/**
 * The host check run before a scan starts (`validate_ip_or_domain`): a host is accepted when it
 * is an IP address or when it looks like a domain name.
 */
module HostName {
  import opened Text

  /** Longest host name accepted as a domain. */
  const MaxHostLength := 253
  /** Longest label, the `{1,63}` of the domain pattern. */
  const MaxLabelLength := 63

  /** `[A-Za-z0-9-]`: letters, digits and hyphen. */
  predicate IsLdh(c: char) {
    ('A' <= c <= 'Z') || ('a' <= c <= 'z') || ('0' <= c <= '9') || c == '-'
  }

  /** `[A-Za-z0-9-]{1,63}`: one label, with no restriction on where hyphens go. */
  predicate IsLabel(s: string) {
    1 <= |s| <= MaxLabelLength && forall i :: 0 <= i < |s| ==> IsLdh(s[i])
  }

  /** `(?!-)[A-Za-z0-9-]{1,63}(?<!-)`: the first label, which neither starts nor ends with a hyphen. */
  predicate IsFirstLabel(s: string) {
    IsLabel(s) && s[0] != '-' && s[|s| - 1] != '-'
  }

  /** The labels of a domain name: a first label, then any number of labels. */
  predicate WellFormedLabels(labels: seq<string>) {
    && |labels| >= 1
    && IsFirstLabel(labels[0])
    && forall i :: 1 <= i < |labels| ==> IsLabel(labels[i])
  }

  /**
   * The whole of the domain pattern `^(?!-)[A-Za-z0-9-]{1,63}(?<!-)(\.[A-Za-z0-9-]{1,63})*$`
   * read as a statement about the dot-separated pieces of `h`. No label contains a dot, so the
   * pattern has exactly one way to place its labels: at the pieces of the split.
   */
  predicate IsDomainName(h: string) {
    WellFormedLabels(Split(h, '.'))
  }

  /**
   * `re.match` of the domain pattern. Python's `$` also matches just before a final line feed,
   * so a name followed by one `'\n'` matches as well.
   */
  predicate DomainPatternMatches(h: string) {
    || IsDomainName(h)
    || (h != [] && h[|h| - 1] == '\n' && IsDomainName(h[..|h| - 1]))
  }

  /** A label never contains the separator. */
  lemma LabelHasNoDot(s: string)
    requires IsLabel(s)
    ensures '.' !in s
  {
    assert forall i :: 0 <= i < |s| ==> s[i] != '.';
  }

  /** Well-formed labels joined with dots form a domain name, and splitting it gives them back. */
  lemma DomainNameOfLabels(labels: seq<string>)
    requires WellFormedLabels(labels)
    ensures Split(Join(labels, '.'), '.') == labels
    ensures IsDomainName(Join(labels, '.'))
  {
    forall i | 0 <= i < |labels|
      ensures '.' !in labels[i]
    {
      LabelHasNoDot(labels[i]);
    }
    SplitJoin(labels, '.');
  }

  /** Every domain name is its well-formed labels joined with dots. */
  lemma DomainNameLabels(h: string)
    requires IsDomainName(h)
    ensures WellFormedLabels(Split(h, '.')) && Join(Split(h, '.'), '.') == h
  {
    JoinSplit(h, '.');
  }

  /** Once `strip` has run there is no final line feed, so the pattern asks for a domain name. */
  lemma PatternOnStrippedHost(host: string)
    requires Strip(host) != []
    ensures DomainPatternMatches(Strip(host)) <==> IsDomainName(Strip(host))
  {
    StripSpec(host);
  }

  /**
   * `validate_ip_or_domain(host)`. `isIpAddress` stands for `ipaddress.ip_address` succeeding on
   * the stripped host; the checks then run on that stripped host.
   */
  function ValidateHost(host: string, isIpAddress: string -> bool): (ok: bool)
    ensures IsBlank(host) ==> !ok
    ensures !IsBlank(host) && isIpAddress(Strip(host)) ==> ok
    ensures !IsBlank(host) && !isIpAddress(Strip(host)) ==>
      (ok <==> |Strip(host)| <= MaxHostLength && IsDomainName(Strip(host)))
  {
    StripSpec(host);
    if host == [] || Strip(host) == [] then false
    else
      var h := Strip(host);
      PatternOnStrippedHost(host);
      if isIpAddress(h) then true
      else if |h| > MaxHostLength then false
      else DomainPatternMatches(h)
  }

  /** Joining a trailing empty piece adds just the separator. */
  lemma {:induction false} JoinEmptyLast(parts: seq<string>, d: char)
    requires |parts| >= 1
    ensures Join(parts + [""], d) == Join(parts, d) + [d]
    decreases |parts|
  {
    if |parts| > 1 {
      JoinEmptyLast(parts[1..], d);
      assert (parts + [""])[1..] == parts[1..] + [""];
    }
  }

  /** A name ending in a dot is never a domain name: its last label is empty. */
  lemma TrailingDotRejected(h: string)
    ensures !IsDomainName(h + ['.'])
  {
    var parts := Split(h, '.');
    SplitPieces(h, '.');
    JoinSplit(h, '.');
    JoinEmptyLast(parts, '.');
    assert forall i :: 0 <= i < |parts + [""]| ==> '.' !in (parts + [""])[i];
    SplitJoin(parts + [""], '.');
    assert Split(h + ['.'], '.') == parts + [""];
    assert !IsLabel((parts + [""])[|parts|]);
  }

  /** A name starting with a hyphen is never a domain name. */
  lemma LeadingHyphenRejected(rest: string)
    ensures !IsDomainName(['-'] + rest)
  {
    assert (['-'] + rest)[1..] == rest;
  }

  /** A join starts with the first character of its first piece. */
  lemma JoinStart(parts: seq<string>, d: char)
    requires |parts| >= 1 && parts[0] != []
    ensures Join(parts, d) != [] && Join(parts, d)[0] == parts[0][0]
  {
  }

  /** A join ends with the last character of its last piece. */
  lemma {:induction false} JoinEnd(parts: seq<string>, d: char)
    requires |parts| >= 1 && parts[|parts| - 1] != []
    ensures var j, last := Join(parts, d), parts[|parts| - 1];
      j != [] && j[|j| - 1] == last[|last| - 1]
    decreases |parts|
  {
    if |parts| > 1 {
      JoinEnd(parts[1..], d);
    }
  }

  /** A domain name has a letter, digit or hyphen at either end. */
  lemma DomainNameEnds(h: string)
    requires IsDomainName(h)
    ensures h != [] && IsLdh(h[0]) && IsLdh(h[|h| - 1])
  {
    var parts := Split(h, '.');
    DomainNameLabels(h);
    var last := parts[|parts| - 1];
    assert IsLabel(last);
    JoinStart(parts, '.');
    JoinEnd(parts, '.');
  }

  /** A domain name of at most 253 characters is accepted, whatever the IP oracle says. */
  lemma DomainNameAccepted(h: string, isIpAddress: string -> bool)
    requires IsDomainName(h) && |h| <= MaxHostLength
    ensures ValidateHost(h, isIpAddress)
  {
    DomainNameEnds(h);
    StripUnchanged(h);
  }

  /** A decimal number below 1000 renders as a label that can also open a name. */
  lemma SmallDecimalLabel(n: nat)
    requires n < 1000
    ensures IsFirstLabel(NatToDecimal(n))
  {
    DecimalDigits(n);
    var s := NatToDecimal(n);
    assert IsDigit(s[0]) && IsDigit(s[|s| - 1]);
  }

  /** Four pieces joined with a separator. */
  lemma JoinFour(w: string, x: string, y: string, z: string, d: char)
    ensures Join([w, x, y, z], d) == w + [d] + x + [d] + y + [d] + z
  {
    assert [w, x, y, z][1..] == [x, y, z];
    assert [x, y, z][1..] == [y, z];
    assert [y, z][1..] == [z];
    assert Join([y, z], d) == y + [d] + z;
    assert Join([x, y, z], d) == x + [d] + (y + [d] + z);
  }

  /** Four labels joined with dots, the first of which may open a name, form a domain name. */
  lemma FourLabels(w: string, x: string, y: string, z: string)
    requires IsFirstLabel(w) && IsLabel(x) && IsLabel(y) && IsLabel(z)
    ensures IsDomainName(Join([w, x, y, z], '.'))
    ensures |Join([w, x, y, z], '.')| == |w| + |x| + |y| + |z| + 3
  {
    var labels := [w, x, y, z];
    assert WellFormedLabels(labels);
    DomainNameOfLabels(labels);
    JoinFour(w, x, y, z, '.');
  }

  /**
   * Four numbers below 1000 joined with dots form a domain name short enough to pass, so
   * `DomainNameAccepted` applies: a string such as `999.1.1.1` that is no IP address still
   * passes `validate_ip_or_domain`.
   */
  lemma DottedNumbersAreDomainName(a: nat, b: nat, c: nat, d: nat)
    requires a < 1000 && b < 1000 && c < 1000 && d < 1000
    ensures var h := Join([NatToDecimal(a), NatToDecimal(b), NatToDecimal(c), NatToDecimal(d)], '.');
      IsDomainName(h) && |h| <= 15
  {
    SmallDecimalLabel(a);
    SmallDecimalLabel(b);
    SmallDecimalLabel(c);
    SmallDecimalLabel(d);
    FourLabels(NatToDecimal(a), NatToDecimal(b), NatToDecimal(c), NatToDecimal(d));
  }

  /** `999.1.1.1` and every other dotted group of four numbers below 1000 pass, whatever the IP oracle says. */
  lemma DottedNumbersAccepted(a: nat, b: nat, c: nat, d: nat, isIpAddress: string -> bool)
    requires a < 1000 && b < 1000 && c < 1000 && d < 1000
    ensures ValidateHost(Join([NatToDecimal(a), NatToDecimal(b), NatToDecimal(c), NatToDecimal(d)], '.'), isIpAddress)
  {
    DottedNumbersAreDomainName(a, b, c, d);
    DomainNameAccepted(Join([NatToDecimal(a), NatToDecimal(b), NatToDecimal(c), NatToDecimal(d)], '.'), isIpAddress);
  }
}
