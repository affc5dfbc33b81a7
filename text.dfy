/**
 * The parts of Python's `str` and `int` that the scanner's helpers rely on:
 * `str.isspace`, `str.strip`, `str.split(sep)`, `int(text)` and `str(n)`.
 */
module Text {
  import opened Wrappers

  // ---------------------------------------------------------------------------
  // Whitespace and strip
  // ---------------------------------------------------------------------------

  /** The characters for which Python's `str.isspace()` holds. */
  predicate IsSpace(c: char) {
    || c == ' '
    || ('\t' <= c <= '\r')
    || ('\U{1C}' <= c <= '\U{1F}')
    || c == '\U{85}' || c == '\U{A0}' || c == '\U{1680}'
    || ('\U{2000}' <= c <= '\U{200A}')
    || c == '\U{2028}' || c == '\U{2029}' || c == '\U{202F}' || c == '\U{205F}'
    || c == '\U{3000}'
  }

  /** Python's truthiness test `not s or not s.strip()`: empty or all whitespace. */
  predicate IsBlank(s: string) {
    forall i :: 0 <= i < |s| ==> IsSpace(s[i])
  }

  /** `s.lstrip()`: drop leading whitespace. */
  function TrimStart(s: string): (r: string)
    ensures |r| <= |s|
  {
    if s != [] && IsSpace(s[0]) then TrimStart(s[1..]) else s
  }

  /** `lstrip` removes exactly the leading run of whitespace. */
  lemma {:induction false} TrimStartSpec(s: string)
    ensures var r := TrimStart(s);
      && r == s[|s| - |r|..]
      && (r == [] || !IsSpace(r[0]))
      && forall i :: 0 <= i < |s| - |r| ==> IsSpace(s[i])
    decreases |s|
  {
    if s != [] && IsSpace(s[0]) {
      TrimStartSpec(s[1..]);
    }
  }

  /** `s.rstrip()`: drop trailing whitespace. */
  function TrimEnd(s: string): (r: string)
    ensures |r| <= |s|
  {
    if s != [] && IsSpace(s[|s| - 1]) then TrimEnd(s[..|s| - 1]) else s
  }

  /** `rstrip` removes exactly the trailing run of whitespace. */
  lemma {:induction false} TrimEndSpec(s: string)
    ensures var r := TrimEnd(s);
      && r == s[..|r|]
      && (r == [] || !IsSpace(r[|r| - 1]))
      && forall i :: |r| <= i < |s| ==> IsSpace(s[i])
    decreases |s|
  {
    if s != [] && IsSpace(s[|s| - 1]) {
      TrimEndSpec(s[..|s| - 1]);
    }
  }

  /** `s.strip()`: drop leading and trailing whitespace. */
  function Strip(s: string): (r: string)
    ensures |r| <= |s|
  {
    TrimEnd(TrimStart(s))
  }

  /** `strip` leaves nothing exactly for a blank string. */
  lemma StripBlank(s: string)
    ensures Strip(s) == [] <==> IsBlank(s)
  {
    var t := TrimStart(s);
    TrimStartSpec(s);
    TrimEndSpec(t);
    if TrimEnd(t) != [] {
      assert t != [] && !IsSpace(t[0]);
      assert !IsSpace(s[|s| - |t|]);
    }
  }

  /** What `strip` leaves has no whitespace at either end. */
  lemma StripEnds(s: string)
    ensures Strip(s) != [] ==> !IsSpace(Strip(s)[0]) && !IsSpace(Strip(s)[|Strip(s)| - 1])
  {
    var t := TrimStart(s);
    TrimStartSpec(s);
    TrimEndSpec(t);
    var r := TrimEnd(t);
    if r != [] {
      assert r[0] == t[0];
    }
  }

  /**
   * `strip` leaves nothing exactly for a blank string, leaves no whitespace at either end, and
   * leaves a string without whitespace at its ends unchanged.
   */
  lemma StripSpec(s: string)
    ensures Strip(s) == [] <==> IsBlank(s)
    ensures Strip(s) != [] ==> !IsSpace(Strip(s)[0]) && !IsSpace(Strip(s)[|Strip(s)| - 1])
    ensures (s == [] || (!IsSpace(s[0]) && !IsSpace(s[|s| - 1]))) ==> Strip(s) == s
  {
    StripBlank(s);
    StripEnds(s);
    if s != [] && !IsSpace(s[0]) && !IsSpace(s[|s| - 1]) {
      StripUnchanged(s);
    }
  }

  /** A string with no whitespace at either end strips to itself. */
  lemma StripUnchanged(s: string)
    requires s != [] && !IsSpace(s[0]) && !IsSpace(s[|s| - 1])
    ensures Strip(s) == s && !IsBlank(s)
  {
    assert TrimStart(s) == s;
  }

  // ---------------------------------------------------------------------------
  // split
  // ---------------------------------------------------------------------------

  /** Prefix the character `c` to the first piece of a split. */
  function PrependToFirst(c: char, pieces: seq<string>): (r: seq<string>)
    requires |pieces| >= 1
    ensures |r| == |pieces| && r[0] == [c] + pieces[0] && r[1..] == pieces[1..]
  {
    [[c] + pieces[0]] + pieces[1..]
  }

  /** `s.split(d)` with an explicit one-character separator: never empty, so `"".split(d) == [""]`. */
  function Split(s: string, d: char): (r: seq<string>)
    ensures |r| >= 1
    ensures d !in s ==> r == [s]
    ensures d in s ==> |r| >= 2
    decreases |s|
  {
    if s == [] then [""]
    else if s[0] == d then [""] + Split(s[1..], d)
    else
      assert s == [s[0]] + s[1..];
      PrependToFirst(s[0], Split(s[1..], d))
  }

  /** No piece of a split contains the separator. */
  lemma {:induction false} SplitPieces(s: string, d: char)
    ensures forall i :: 0 <= i < |Split(s, d)| ==> d !in Split(s, d)[i]
    decreases |s|
  {
    if s != [] {
      SplitPieces(s[1..], d);
    }
  }

  /** `d.join(parts)`. */
  function Join(parts: seq<string>, d: char): string
    requires |parts| >= 1
  {
    if |parts| == 1 then parts[0] else parts[0] + [d] + Join(parts[1..], d)
  }

  /** Splitting is the inverse of joining: the pieces glue back to the string. */
  lemma {:induction false} JoinSplit(s: string, d: char)
    ensures Join(Split(s, d), d) == s
    decreases |s|
  {
    if s != [] {
      JoinSplit(s[1..], d);
      var rest := Split(s[1..], d);
      if s[0] == d {
        assert s == [d] + s[1..];
      } else if |rest| == 1 {
        assert s == [s[0]] + s[1..];
      } else {
        assert Split(s, d)[1..] == rest[1..];
        assert s == [s[0]] + s[1..];
      }
    }
  }

  /** A string without the separator, followed by the separator, is split at that first separator. */
  lemma {:induction false} SplitAtFirst(a: string, d: char, b: string)
    requires d !in a
    ensures Split(a + [d] + b, d) == [a] + Split(b, d)
    decreases |a|
  {
    if a == [] {
      assert a + [d] + b == [d] + b;
      assert ([d] + b)[1..] == b;
    } else {
      SplitAtFirst(a[1..], d, b);
      assert (a + [d] + b)[1..] == a[1..] + [d] + b;
      assert [a[0]] + a[1..] == a;
    }
  }

  /** Joining pieces that do not contain the separator and splitting again gives the pieces back. */
  lemma {:induction false} SplitJoin(parts: seq<string>, d: char)
    requires |parts| >= 1
    requires forall i :: 0 <= i < |parts| ==> d !in parts[i]
    ensures Split(Join(parts, d), d) == parts
    decreases |parts|
  {
    if |parts| > 1 {
      SplitJoin(parts[1..], d);
      SplitAtFirst(parts[0], d, Join(parts[1..], d));
      assert [parts[0]] + parts[1..] == parts;
    }
  }

  // ---------------------------------------------------------------------------
  // Decimal digits: int(text) and str(n)
  // ---------------------------------------------------------------------------

  predicate IsDigit(c: char) { '0' <= c <= '9' }

  predicate AllDigits(s: string) { forall i :: 0 <= i < |s| ==> IsDigit(s[i]) }

  function DigitValue(c: char): nat
    requires IsDigit(c)
  {
    (c - '0') as nat
  }

  function DigitChar(d: nat): (c: char)
    requires d < 10
    ensures IsDigit(c) && DigitValue(c) == d
  {
    ('0' as int + d) as char
  }

  /**
   * The value of a group of decimal digits with single underscores between them, as
   * Python's `int` admits (`1_000`), read from the right; `None` for anything else.
   */
  function ParseGroup(s: string): (r: Option<nat>)
    ensures r.Some? ==> s != [] && IsDigit(s[0]) && IsDigit(s[|s| - 1])
    decreases |s|
  {
    if s == [] || !IsDigit(s[|s| - 1]) then None
    else if |s| == 1 then Some(DigitValue(s[0]))
    else
      var front := if s[|s| - 2] == '_' then s[..|s| - 2] else s[..|s| - 1];
      match ParseGroup(front)
      case None => None
      case Some(v) => Some(v * 10 + DigitValue(s[|s| - 1]))
  }

  /** `str(n)` for a natural number: its shortest decimal rendering. */
  function NatToDecimal(n: nat): (s: string)
    ensures |s| >= 1
    ensures |s| > 1 ==> s[0] != '0'
    ensures n < 10 ==> |s| == 1
    ensures n < 100 ==> |s| <= 2
    ensures n < 1000 ==> |s| <= 3
  {
    if n < 10 then [DigitChar(n)] else NatToDecimal(n / 10) + [DigitChar(n % 10)]
  }

  /** `str(n)` for any integer: a minus sign before the digits of a negative number. */
  function IntToDecimal(n: int): (s: string)
  {
    if n < 0 then "-" + NatToDecimal(-n) else NatToDecimal(n)
  }

  /** `str(n)` writes only digits. */
  lemma {:induction false} DecimalDigits(n: nat)
    ensures AllDigits(NatToDecimal(n))
  {
    if n >= 10 {
      DecimalDigits(n / 10);
      var front := NatToDecimal(n / 10);
      assert forall i :: 0 <= i < |front| ==> NatToDecimal(n)[i] == front[i];
    }
  }

  /** Reading back the digits that `str(n)` writes gives `n`. */
  lemma {:induction false} DecimalRoundTrip(n: nat)
    ensures ParseGroup(NatToDecimal(n)) == Some(n)
  {
    if n >= 10 {
      DecimalRoundTrip(n / 10);
      var s, front := NatToDecimal(n), NatToDecimal(n / 10);
      assert s[..|s| - 1] == front;
      assert s[|s| - 2] == front[|front| - 1];
    }
  }

  /**
   * The whitespace `int(text)` skips around a number. It is `str.isspace` without the ASCII
   * separators U+001C..U+001F: CPython's `int` maps only non-ASCII whitespace to a space and
   * then skips the ASCII space and `\t\n\v\f\r`, so a separator is an invalid literal.
   */
  predicate IsIntSpace(c: char) {
    IsSpace(c) && !('\U{1C}' <= c <= '\U{1F}')
  }

  /** Drop the leading whitespace `int` skips. */
  function IntTrimStart(s: string): (r: string)
    ensures |r| <= |s|
  {
    if s != [] && IsIntSpace(s[0]) then IntTrimStart(s[1..]) else s
  }

  /** Drop the trailing whitespace `int` skips. */
  function IntTrimEnd(s: string): (r: string)
    ensures |r| <= |s|
  {
    if s != [] && IsIntSpace(s[|s| - 1]) then IntTrimEnd(s[..|s| - 1]) else s
  }

  /** The text `int` reads once the whitespace around it is skipped. */
  function IntStrip(s: string): (r: string)
    ensures |r| <= |s|
  {
    IntTrimEnd(IntTrimStart(s))
  }

  /** Skipping leading whitespace leaves a suffix that does not start with it. */
  lemma {:induction false} IntTrimStartSpec(s: string)
    ensures var r := IntTrimStart(s);
      && r == s[|s| - |r|..] && (r == [] || !IsIntSpace(r[0]))
      && forall i :: 0 <= i < |s| - |r| ==> IsIntSpace(s[i])
    decreases |s|
  {
    if s != [] && IsIntSpace(s[0]) {
      IntTrimStartSpec(s[1..]);
    }
  }

  /** A string with no whitespace at either end is read by `int` as it stands. */
  lemma IntStripUnchanged(s: string)
    requires s != [] && !IsSpace(s[0]) && !IsSpace(s[|s| - 1])
    ensures IntStrip(s) == s
  {
    assert IntTrimStart(s) == s;
  }

  /**
   * `int(text)` in base 10: surrounding whitespace, an optional sign, then a digit group.
   * `None` stands for the `ValueError` it raises otherwise.
   */
  function ParseInt(text: string): (r: Option<int>)
    ensures IntStrip(text) == [] ==> r == None
  {
    var t := IntStrip(text);
    if t == [] then None
    else
      var negative := t[0] == '-';
      var body := if t[0] == '+' || t[0] == '-' then t[1..] else t;
      match ParseGroup(body)
      case None => None
      case Some(magnitude) => Some(if negative then -(magnitude as int) else magnitude)
  }

  /** `str(n)` starts and ends with a digit and holds no sign and no comma. */
  lemma DecimalEnds(n: nat)
    ensures var d := NatToDecimal(n);
      && d != [] && '-' !in d && ',' !in d
      && IsDigit(d[0]) && IsDigit(d[|d| - 1]) && !IsSpace(d[0]) && !IsSpace(d[|d| - 1])
  {
    DecimalDigits(n);
    var d := NatToDecimal(n);
    assert forall i :: 0 <= i < |d| ==> IsDigit(d[i]);
  }

  /** `int(str(n))` is `n`: the two conversions are inverse on every integer. */
  lemma ParseIntOfDecimal(n: int)
    ensures ParseInt(IntToDecimal(n)) == Some(n)
  {
    var m := if n < 0 then -n else n;
    var d := NatToDecimal(m);
    DecimalRoundTrip(m);
    DecimalEnds(m);
    if n < 0 {
      var s := "-" + d;
      assert s[0] == '-' && s[|s| - 1] == d[|d| - 1];
      IntStripUnchanged(s);
      assert s[1..] == d;
    } else {
      IntStripUnchanged(d);
    }
  }

  /**
   * Text ending in a separator U+001C..U+001F is no integer for `int`, although `str.strip`
   * counts the separator as whitespace.
   */
  lemma ParseIntRejectsSeparator(s: string, sep: char)
    requires '\U{1C}' <= sep <= '\U{1F}'
    ensures IsSpace(sep) && !IsIntSpace(sep)
    ensures ParseInt(s + [sep]) == None
  {
    var text := s + [sep];
    IntTrimStartSpec(text);
    var u := IntTrimStart(text);
    assert !IsIntSpace(text[|text| - 1]);
    assert u[|u| - 1] == sep;
    assert IntTrimEnd(u) == u;
  }

  /** `"5\x1c".strip()` is `"5"`, yet `int("5\x1c")` raises. */
  lemma SeparatorExample()
    ensures Strip("5\U{1C}") == "5"
    ensures ParseInt("5\U{1C}") == None
  {
    ParseIntRejectsSeparator("5", '\U{1C}');
    assert "5\U{1C}" == "5" + ['\U{1C}'];
    assert TrimStart("5\U{1C}") == "5\U{1C}";
  }

  // ---------------------------------------------------------------------------
  // Field padding used by format specs such as `{x:5d}` and `{x:15s}`
  // ---------------------------------------------------------------------------

  function Spaces(n: nat): (r: string)
    ensures |r| == n
  {
    if n == 0 then [] else [' '] + Spaces(n - 1)
  }

  /** `int` skips padding spaces put in front of a string that does not start with whitespace. */
  lemma {:induction false} IntTrimStartSpaces(n: nat, s: string)
    requires s == [] || !IsSpace(s[0])
    ensures IntTrimStart(Spaces(n) + s) == s
  {
    if n > 0 {
      IntTrimStartSpaces(n - 1, s);
      assert (Spaces(n) + s)[1..] == Spaces(n - 1) + s;
    }
  }

  /** The last character of a non-empty run of spaces is a space. */
  lemma {:induction false} SpacesEnd(n: nat)
    requires n > 0
    ensures Spaces(n)[n - 1] == ' '
  {
    if n > 1 {
      SpacesEnd(n - 1);
    }
  }

  /** Right-align `s` in a field of `width` characters; never truncates. */
  function PadLeft(s: string, width: nat): (r: string)
    ensures |r| == if |s| < width then width else |s|
  {
    if |s| < width then Spaces(width - |s|) + s else s
  }

  /** Left-align `s` in a field of `width` characters; never truncates. */
  function PadRight(s: string, width: nat): (r: string)
    ensures |r| == if |s| < width then width else |s|
  {
    if |s| < width then s + Spaces(width - |s|) else s
  }

  /** `int` reads a right-aligned field as the value it holds, when that has no whitespace at its ends. */
  lemma PadLeftStrips(s: string, width: nat)
    requires s != [] && !IsSpace(s[0]) && !IsSpace(s[|s| - 1])
    ensures IntStrip(PadLeft(s, width)) == s
  {
    if |s| < width {
      IntTrimStartSpaces(width - |s|, s);
    }
    IntStripUnchanged(s);
  }

  /** A left-aligned field ends with its value's last character or with a padding space. */
  lemma PadRightEnd(s: string, width: nat)
    requires s != []
    ensures var r := PadRight(s, width);
      r[|r| - 1] == s[|s| - 1] || (|s| < width && r[|r| - 1] == ' ')
  {
    if |s| < width {
      SpacesEnd(width - |s|);
    }
  }
}
