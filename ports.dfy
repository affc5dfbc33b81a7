/**
 * The port-specification parser `parse_ports` (utils.py): a comma-separated list of tokens,
 * each a single port or an inclusive range `start-end`, expanded into the sorted list of the
 * distinct ports it names. Any bad token makes the whole specification fail.
 */
module PortSpec {
  import opened Wrappers
  import opened Text

  const MinPort: int := 1
  const MaxPort: int := 65535

  predicate InPortRange(p: int) { MinPort <= p <= MaxPort }

  predicate StrictlyAscending(s: seq<int>) {
    forall i, j :: 0 <= i < j < |s| ==> s[i] < s[j]
  }

  /**
   * The `ValueError`s `parse_ports` raises. The ones it raises itself name the stripped token
   * they reject; the unpacking error it re-raises for a third integer piece names no token.
   */
  datatype PortError =
    | EmptyInput                     // the whole specification is empty or whitespace
    | InvalidRange(token: string)    // both bounds are integers but not 1 <= start <= end <= 65535
    | MalformedRange(token: string)  // a bound of a range is not an integer literal
    | TooManyBounds                  // more than two integer pieces around `-`
    | InvalidPort(token: string)     // a single port that is not an integer in [1, 65535]

  /** The ports of `range(start, end + 1)`: the integers from `start` to `end` inclusive. */
  function RangePorts(start: int, end: int): (r: set<int>)
    ensures forall p :: p in r <==> start <= p <= end
    ensures |r| == if start <= end then end - start + 1 else 0
    decreases end - start
  {
    if start > end then {} else {start} + RangePorts(start + 1, end)
  }

  /** The comma-separated tokens of a specification, as `port_string.strip().split(',')`. */
  function Tokens(spec: string): (r: seq<string>)
    ensures |r| >= 1 && Join(r, ',') == Strip(spec)
    ensures forall i :: 0 <= i < |r| ==> ',' !in r[i]
  {
    JoinSplit(Strip(spec), ',');
    SplitPieces(Strip(spec), ',');
    Split(Strip(spec), ',')
  }

  /**
   * The range branch of the loop of `parse_ports`, for a stripped token containing `-`:
   * `start, end = map(int, part.split('-'))`. The map is lazy, so a third piece is converted
   * before the unpacking fails on it.
   */
  function RangeToken(part: string): (r: Result<set<int>, PortError>)
    requires '-' in part
    ensures r.Err? ==> !r.error.EmptyInput? && (r.error.TooManyBounds? || r.error.token == part)
    ensures var pieces := Split(part, '-');
      var a, b := ParseInt(pieces[0]), ParseInt(pieces[1]);
      && (r == Err(TooManyBounds) <==> |pieces| > 2 && a.Some? && b.Some? && ParseInt(pieces[2]).Some?)
      && (r.Ok? <==> |pieces| == 2 && a.Some? && b.Some? && MinPort <= a.value <= b.value <= MaxPort)
      && (r.Ok? ==> r.value == RangePorts(a.value, b.value))
  {
    var pieces := Split(part, '-');
    var a, b := ParseInt(pieces[0]), ParseInt(pieces[1]);
    if a.None? || b.None? then Err(MalformedRange(part))
    else if |pieces| > 2 then
      (if ParseInt(pieces[2]).None? then Err(MalformedRange(part)) else Err(TooManyBounds))
    else if a.value < MinPort || b.value > MaxPort || a.value > b.value then Err(InvalidRange(part))
    else Ok(RangePorts(a.value, b.value))
  }

  /** The single-port branch: `int(part)` in [1, 65535]; every failure is reported as a bad port. */
  function PortToken(part: string): (r: Result<set<int>, PortError>)
    ensures r.Err? ==> r.error == InvalidPort(part)
    ensures var n := ParseInt(part);
      && (r.Ok? <==> n.Some? && InPortRange(n.value))
      && (r.Ok? ==> r.value == {n.value})
  {
    var n := ParseInt(part);
    if n.None? || !InPortRange(n.value) then Err(InvalidPort(part)) else Ok({n.value})
  }

  /** What one comma-separated token contributes: the body of the loop of `parse_ports`. */
  function TokenPorts(token: string): (r: Result<set<int>, PortError>)
    ensures r.Err? ==> !r.error.EmptyInput? && (r.error.TooManyBounds? || r.error.token == Strip(token))
  {
    var part := Strip(token);
    if '-' in part then RangeToken(part) else PortToken(part)
  }

  /** A good token contributes at least one port, and only ports in [1, 65535]. */
  lemma TokenPortsInRange(token: string)
    requires TokenPorts(token).Ok?
    ensures TokenPorts(token).value != {}
    ensures forall p :: p in TokenPorts(token).value ==> InPortRange(p)
  {
  }

  /** The ports a token contributes, or none when it is rejected. */
  function Contribution(token: string): set<int> {
    var r := TokenPorts(token);
    if r.Ok? then r.value else {}
  }

  /** The outcome of the loop body for each token, in order. */
  function Contributions(tokens: seq<string>): (r: seq<Result<set<int>, PortError>>)
    ensures |r| == |tokens|
    ensures forall i :: 0 <= i < |tokens| ==> r[i] == TokenPorts(tokens[i])
  {
    seq(|tokens|, i requires 0 <= i < |tokens| => TokenPorts(tokens[i]))
  }

  /** Add `acc` to a successful result; keep an error. */
  function Extend(acc: set<int>, r: Result<set<int>, PortError>): Result<set<int>, PortError> {
    match r
    case Ok(rest) => Ok(acc + rest)
    case Err(e) => Err(e)
  }

  lemma ExtendTwice(a: set<int>, b: set<int>, r: Result<set<int>, PortError>)
    ensures Extend(a, Extend(b, r)) == Extend(a + b, r)
  {
    if r.Ok? {
      assert a + (b + r.value) == (a + b) + r.value;
    }
  }

  /**
   * The loop of `parse_ports` over the tokens' outcomes: the union of all the ports, or the
   * first error, since the first `ValueError` leaves the loop.
   */
  function Collect(rs: seq<Result<set<int>, PortError>>): Result<set<int>, PortError>
    decreases |rs|
  {
    if rs == [] then Ok({})
    else
      match rs[0]
      case Err(e) => Err(e)
      case Ok(first) => Extend(first, Collect(rs[1..]))
  }

  /** One step of the loop: the outcome at `i` either stops it or is added to the rest. */
  lemma CollectStep(rs: seq<Result<set<int>, PortError>>, i: nat)
    requires i < |rs|
    ensures Collect(rs[i..]) == match rs[i]
      case Err(e) => Err(e)
      case Ok(v) => Extend(v, Collect(rs[i + 1..]))
  {
    assert rs[i..][0] == rs[i];
    assert rs[i..][1..] == rs[i + 1..];
  }

  lemma {:induction false} CollectOk(rs: seq<Result<set<int>, PortError>>)
    ensures Collect(rs).Ok? <==> forall i :: 0 <= i < |rs| ==> rs[i].Ok?
    decreases |rs|
  {
    if rs != [] {
      CollectOk(rs[1..]);
      assert forall i :: 1 <= i < |rs| ==> rs[i] == rs[1..][i - 1];
    }
  }

  /** The ports of a successful outcome; none for an error. */
  function Ports(r: Result<set<int>, PortError>): set<int> {
    if r.Ok? then r.value else {}
  }

  lemma {:induction false} CollectMembers(rs: seq<Result<set<int>, PortError>>, p: int)
    requires Collect(rs).Ok?
    ensures p in Collect(rs).value <==> exists i :: 0 <= i < |rs| && p in Ports(rs[i])
    decreases |rs|
  {
    if rs != [] {
      CollectMembers(rs[1..], p);
      if p in Ports(rs[0]) {
      } else if exists i :: 0 <= i < |rs| && p in Ports(rs[i]) {
        var i :| 0 <= i < |rs| && p in Ports(rs[i]);
        assert rs[1..][i - 1] == rs[i];
      } else {
        forall i | 0 <= i < |rs| - 1 ensures p !in Ports(rs[1..][i]) {
          assert rs[1..][i] == rs[i + 1];
        }
      }
    }
  }

  lemma {:induction false} CollectFirstError(rs: seq<Result<set<int>, PortError>>, j: nat)
    requires j < |rs| && rs[j].Err?
    requires forall i :: 0 <= i < j ==> rs[i].Ok?
    ensures Collect(rs) == Err(rs[j].error)
    decreases j
  {
    if j > 0 {
      assert forall i :: 0 <= i < j - 1 ==> rs[1..][i] == rs[i + 1];
      CollectFirstError(rs[1..], j - 1);
    }
  }

  /** Every successful outcome holds at least one port, and only ports in [1, 65535]. */
  predicate GoodOutcomes(rs: seq<Result<set<int>, PortError>>) {
    forall i :: 0 <= i < |rs| ==> rs[i].Ok? ==>
      rs[i].value != {} && forall p :: p in rs[i].value ==> InPortRange(p)
  }

  lemma {:induction false} CollectInRange(rs: seq<Result<set<int>, PortError>>)
    requires GoodOutcomes(rs)
    requires Collect(rs).Ok?
    ensures forall p :: p in Collect(rs).value ==> InPortRange(p)
    ensures rs != [] ==> Collect(rs).value != {}
    decreases |rs|
  {
    if rs != [] {
      assert rs[0].Ok?;
      assert forall i :: 0 <= i < |rs| - 1 ==> rs[1..][i] == rs[i + 1];
      CollectInRange(rs[1..]);
    }
  }

  /** Every error names a token: none of them is the empty-input error. */
  predicate TokenErrors(rs: seq<Result<set<int>, PortError>>) {
    forall i :: 0 <= i < |rs| ==> rs[i].Err? ==> !rs[i].error.EmptyInput?
  }

  lemma {:induction false} CollectError(rs: seq<Result<set<int>, PortError>>)
    requires TokenErrors(rs)
    requires Collect(rs).Err?
    ensures !Collect(rs).error.EmptyInput?
    decreases |rs|
  {
    if rs[0].Ok? {
      assert forall i :: 0 <= i < |rs| - 1 ==> rs[1..][i] == rs[i + 1];
      CollectError(rs[1..]);
    }
  }

  /** The outcomes of real tokens meet both side conditions above. */
  lemma ContributionsGood(tokens: seq<string>)
    ensures GoodOutcomes(Contributions(tokens)) && TokenErrors(Contributions(tokens))
  {
    var rs := Contributions(tokens);
    forall i | 0 <= i < |tokens| && rs[i].Ok?
      ensures rs[i].value != {} && forall p :: p in rs[i].value ==> InPortRange(p)
    {
      TokenPortsInRange(tokens[i]);
    }
  }

  // ---------------------------------------------------------------------------
  // sorted(list(ports))
  // ---------------------------------------------------------------------------

  /** The members of `s` that lie in `[lo, hi]`. */
  function Within(s: set<int>, lo: int, hi: int): set<int> {
    set x | x in s && lo <= x <= hi
  }

  /** The members of `s` within `[lo, hi]`, in ascending order. */
  function AscendingIn(s: set<int>, lo: int, hi: int): (r: seq<int>)
    decreases hi - lo
  {
    if lo > hi then []
    else if lo in s then [lo] + AscendingIn(s, lo + 1, hi)
    else AscendingIn(s, lo + 1, hi)
  }

  lemma {:induction false} AscendingInMembers(s: set<int>, lo: int, hi: int)
    ensures forall x :: x in AscendingIn(s, lo, hi) <==> x in s && lo <= x <= hi
    decreases hi - lo
  {
    if lo <= hi {
      AscendingInMembers(s, lo + 1, hi);
    }
  }

  lemma {:induction false} AscendingInSorted(s: set<int>, lo: int, hi: int)
    ensures StrictlyAscending(AscendingIn(s, lo, hi))
    decreases hi - lo
  {
    if lo <= hi {
      var rest := AscendingIn(s, lo + 1, hi);
      AscendingInSorted(s, lo + 1, hi);
      if lo in s {
        AscendingInMembers(s, lo + 1, hi);
        assert forall k :: 0 <= k < |rest| ==> rest[k] in rest;
        var r := [lo] + rest;
        forall i, j | 0 <= i < j < |r| ensures r[i] < r[j] {
          assert r[j] == rest[j - 1];
          if i > 0 {
            assert r[i] == rest[i - 1];
          }
        }
      }
    }
  }

  lemma {:induction false} AscendingInCount(s: set<int>, lo: int, hi: int)
    ensures |AscendingIn(s, lo, hi)| == |Within(s, lo, hi)|
    decreases hi - lo
  {
    if lo > hi {
      assert Within(s, lo, hi) == {};
    } else {
      AscendingInCount(s, lo + 1, hi);
      if lo in s {
        assert Within(s, lo, hi) == {lo} + Within(s, lo + 1, hi);
      } else {
        assert Within(s, lo, hi) == Within(s, lo + 1, hi);
      }
    }
  }

  lemma AscendingInSpec(s: set<int>, lo: int, hi: int)
    ensures var r := AscendingIn(s, lo, hi);
      && StrictlyAscending(r)
      && (forall x :: x in r <==> x in s && lo <= x <= hi)
      && |r| == |Within(s, lo, hi)|
  {
    AscendingInMembers(s, lo, hi);
    AscendingInSorted(s, lo, hi);
    AscendingInCount(s, lo, hi);
  }

  /**
   * `sorted(list(ports))`: the ports of the set in ascending order. Only ports in [1, 65535]
   * are ever collected (`CollectInRange`), so the scan over that interval sees all of them.
   */
  function SortedPorts(ports: set<int>): seq<int> {
    AscendingIn(ports, MinPort, MaxPort)
  }

  /** Sorting a set of valid ports lists every port once, in ascending order. */
  lemma SortedPortsSpec(ports: set<int>)
    requires forall p :: p in ports ==> InPortRange(p)
    ensures StrictlyAscending(SortedPorts(ports))
    ensures forall x :: x in SortedPorts(ports) <==> x in ports
    ensures |SortedPorts(ports)| == |ports|
  {
    SortedPortsMembers(ports);
    AscendingInSpec(ports, MinPort, MaxPort);
  }

  /** Sorting a set of valid ports lists exactly its ports, once each. */
  lemma SortedPortsMembers(ports: set<int>)
    requires forall p :: p in ports ==> InPortRange(p)
    ensures forall x :: x in SortedPorts(ports) <==> x in ports
    ensures |SortedPorts(ports)| == |ports|
  {
    AscendingInSpec(ports, MinPort, MaxPort);
    forall x | x in ports ensures x in Within(ports, MinPort, MaxPort) {
      assert InPortRange(x);
    }
    assert Within(ports, MinPort, MaxPort) == ports;
  }

  // ---------------------------------------------------------------------------
  // parse_ports
  // ---------------------------------------------------------------------------

  /** `sorted(list(ports))` applied to the collected set, or the error raised while collecting. */
  function SortCollected(collected: Result<set<int>, PortError>): Result<seq<int>, PortError> {
    match collected
    case Ok(ports) => Ok(SortedPorts(ports))
    case Err(e) => Err(e)
  }

  /** What `parse_ports` returns for a specification, or the error it raises. */
  function ParsedPorts(spec: string): Result<seq<int>, PortError> {
    if IsBlank(spec) then Err(EmptyInput)
    else
      SortCollected(Collect(Contributions(Tokens(spec))))
  }

  /** `parse_ports`: collects the tokens' ports into a set in one loop, then sorts the set. */
  method ParsePorts(spec: string) returns (r: Result<seq<int>, PortError>)
    ensures r == ParsedPorts(spec)
  {
    if IsBlank(spec) {
      return Err(EmptyInput);
    }
    var parts := Split(Strip(spec), ',');
    ghost var rs := Contributions(parts);
    var ports: set<int> := {};
    var i := 0;
    while i < |parts|
      invariant 0 <= i <= |parts|
      invariant Collect(rs) == Extend(ports, Collect(rs[i..]))
    {
      var contribution := TokenPorts(parts[i]);
      assert contribution == rs[i];
      if contribution.Err? {
        CollectStops(rs, i, ports);
        return Err(contribution.error);
      }
      CollectAdvances(rs, i, ports);
      ports := ports + contribution.value;
      i := i + 1;
    }
    CollectDone(rs, ports);
    r := SortCollected(Ok(ports));
  }

  /** The loop leaves at the first error, which is then the outcome of the whole collection. */
  lemma CollectStops(rs: seq<Result<set<int>, PortError>>, i: nat, ports: set<int>)
    requires i < |rs| && rs[i].Err? && Collect(rs) == Extend(ports, Collect(rs[i..]))
    ensures Collect(rs) == Err(rs[i].error)
  {
    CollectStep(rs, i);
  }

  /** A good token's ports join the ports collected so far. */
  lemma CollectAdvances(rs: seq<Result<set<int>, PortError>>, i: nat, ports: set<int>)
    requires i < |rs| && rs[i].Ok? && Collect(rs) == Extend(ports, Collect(rs[i..]))
    ensures Collect(rs) == Extend(ports + rs[i].value, Collect(rs[i + 1..]))
  {
    CollectStep(rs, i);
    ExtendTwice(ports, rs[i].value, Collect(rs[i + 1..]));
  }

  /** After the last token, the ports collected so far are the whole collection. */
  lemma CollectDone(rs: seq<Result<set<int>, PortError>>, ports: set<int>)
    requires Collect(rs) == Extend(ports, Collect(rs[|rs|..]))
    ensures Collect(rs) == Ok(ports)
  {
    assert rs[|rs|..] == [];
    assert ports + {} == ports;
  }

  // ---------------------------------------------------------------------------
  // Properties of parse_ports
  // ---------------------------------------------------------------------------

  /** The empty-input error is raised exactly for an empty or whitespace-only specification. */
  lemma BlankIsRejected(spec: string)
    ensures ParsedPorts(spec) == Err(EmptyInput) <==> IsBlank(spec)
  {
    var rs := Contributions(Tokens(spec));
    if !IsBlank(spec) && Collect(rs).Err? {
      ContributionsGood(Tokens(spec));
      CollectError(rs);
    }
  }

  /** The ports collected from a specification are valid, and there is at least one. */
  lemma CollectedInRange(spec: string)
    requires Collect(Contributions(Tokens(spec))).Ok?
    ensures var ports := Collect(Contributions(Tokens(spec))).value;
      && ports != {}
      && forall p :: p in ports ==> InPortRange(p)
  {
    ContributionsGood(Tokens(spec));
    CollectInRange(Contributions(Tokens(spec)));
  }

  /** A successful result is non-empty, strictly ascending (so free of duplicates) and in [1, 65535]. */
  lemma ParsedPortsWellFormed(spec: string)
    requires ParsedPorts(spec).Ok?
    ensures var ports := ParsedPorts(spec).value;
      && ports != []
      && StrictlyAscending(ports)
      && forall i :: 0 <= i < |ports| ==> InPortRange(ports[i])
  {
    var collected := Collect(Contributions(Tokens(spec))).value;
    CollectedInRange(spec);
    SortedPortsSpec(collected);
    var ports := ParsedPorts(spec).value;
    assert forall i :: 0 <= i < |ports| ==> ports[i] in collected;
  }

  /** The specification is accepted exactly when it is not blank and every token is good. */
  lemma ParsedPortsOk(spec: string)
    ensures ParsedPorts(spec).Ok? <==>
      !IsBlank(spec) && forall i :: 0 <= i < |Tokens(spec)| ==> TokenPorts(Tokens(spec)[i]).Ok?
  {
    CollectOk(Contributions(Tokens(spec)));
  }

  /** The result holds exactly the ports that some token contributes, so repeats collapse. */
  lemma ParsedPortsMembers(spec: string, p: int)
    requires ParsedPorts(spec).Ok?
    ensures p in ParsedPorts(spec).value <==>
      exists i :: 0 <= i < |Tokens(spec)| && p in Contribution(Tokens(spec)[i])
  {
    var tokens := Tokens(spec);
    var rs := Contributions(tokens);
    ParsedPortsAreCollected(spec);
    CollectMembers(rs, p);
    assert forall i :: 0 <= i < |tokens| ==> Ports(rs[i]) == Contribution(tokens[i]);
  }

  /** The sorted result lists exactly the collected set. */
  lemma ParsedPortsAreCollected(spec: string)
    requires ParsedPorts(spec).Ok?
    ensures Collect(Contributions(Tokens(spec))).Ok?
    ensures forall p :: p in ParsedPorts(spec).value <==> p in Collect(Contributions(Tokens(spec))).value
  {
    CollectedInRange(spec);
    SortedPortsMembers(Collect(Contributions(Tokens(spec))).value);
  }

  /** A bad token rejects the whole specification, with the error of the first bad token. */
  lemma FirstBadTokenRejects(spec: string, j: nat)
    requires !IsBlank(spec)
    requires j < |Tokens(spec)| && TokenPorts(Tokens(spec)[j]).Err?
    requires forall i :: 0 <= i < j ==> TokenPorts(Tokens(spec)[i]).Ok?
    ensures ParsedPorts(spec) == Err(TokenPorts(Tokens(spec)[j]).error)
  {
    CollectFirstError(Contributions(Tokens(spec)), j);
  }

  // ---------------------------------------------------------------------------
  // Worked examples
  // ---------------------------------------------------------------------------

  /** Three pieces without the separator, joined by it, split back into those pieces. */
  lemma SplitThree(a: string, b: string, c: string, d: char)
    requires d !in a && d !in b && d !in c
    ensures Split(a + [d] + b + [d] + c, d) == [a, b, c]
  {
    SplitAtFirst(a, d, b + [d] + c);
    SplitAtFirst(b, d, c);
    assert a + [d] + b + [d] + c == a + [d] + (b + [d] + c);
  }

  lemma SplitTwo(a: string, b: string, d: char)
    requires d !in a && d !in b
    ensures Split(a + [d] + b, d) == [a, b]
  {
    SplitAtFirst(a, d, b);
  }

  /** `int(str(n))` is `n`, and `str(n)` has nothing to strip. */
  lemma DecimalParses(n: nat)
    ensures Strip(NatToDecimal(n)) == NatToDecimal(n)
    ensures ParseInt(NatToDecimal(n)) == Some(n)
  {
    DecimalEnds(n);
    ParseIntOfDecimal(n);
    StripUnchanged(NatToDecimal(n));
  }

  /** The token `str(n)` names the single port `n`. */
  lemma DecimalToken(n: nat)
    requires InPortRange(n)
    ensures TokenPorts(NatToDecimal(n)) == Ok({n})
  {
    DecimalEnds(n);
    DecimalParses(n);
  }

  /** Gluing two pieces with a separator keeps their outer ends and adds the separator. */
  lemma GlueEnds(x: string, d: char, y: string)
    requires x != [] && y != []
    ensures var s := x + [d] + y;
      s != [] && s[0] == x[0] && s[|s| - 1] == y[|y| - 1] && d in s
  {
    var s := x + [d] + y;
    assert s[|x|] == d;
  }

  /** A character in neither piece, other than the separator, is not in the glued string. */
  lemma GlueLacks(x: string, d: char, y: string, e: char)
    requires e != d && e !in x && e !in y
    ensures e !in x + [d] + y
  {
    var s := x + [d] + y;
    forall i | 0 <= i < |s| ensures s[i] != e {
      if i < |x| {
        assert s[i] == x[i];
      } else if i > |x| {
        assert s[i] == y[i - |x| - 1];
      }
    }
  }

  /** A specification that is one token, its own stripped form. */
  lemma OneTokenOutcome(spec: string)
    requires spec != [] && !IsSpace(spec[0]) && !IsSpace(spec[|spec| - 1]) && ',' !in spec
    ensures !IsBlank(spec)
    ensures ParsedPorts(spec) == SortCollected(TokenPorts(spec))
  {
    StripUnchanged(spec);
    var rs := Contributions(Tokens(spec));
    assert rs == [TokenPorts(spec)];
    assert rs[1..] == [];
    if TokenPorts(spec).Ok? {
      var v := TokenPorts(spec).value;
      assert Collect(rs) == Ok(v + {});
      assert v + {} == v;
    }
  }

  /** The token `str(n)` names port `n` when it is in range, and is a bad port otherwise. */
  lemma SinglePortToken(n: nat)
    ensures var s := NatToDecimal(n);
      TokenPorts(s) == if InPortRange(n) then Ok({n}) else Err(InvalidPort(s))
  {
    DecimalEnds(n);
    DecimalParses(n);
  }

  /** A single valid port sorts to the one-element list. */
  lemma SortedSingleton(n: int)
    requires InPortRange(n)
    ensures SortedPorts({n}) == [n]
  {
    SortedPortsMembers({n});
    var ports := SortedPorts({n});
    assert n in ports;
  }

  /** `str(n)` alone names port `n` when it is in range, and is a bad port otherwise. */
  lemma SinglePortSpec(n: nat)
    ensures var spec := NatToDecimal(n);
      ParsedPorts(spec) == if InPortRange(n) then Ok([n]) else Err(InvalidPort(spec))
  {
    DecimalEnds(n);
    SinglePortToken(n);
    OneTokenOutcome(NatToDecimal(n));
    if InPortRange(n) {
      SortedSingleton(n);
    }
  }

  /** The token `str(a)-str(b)`: nothing to strip, and split at `-` into the two renderings. */
  lemma RangeTokenShape(a: nat, b: nat)
    ensures var s := NatToDecimal(a) + ['-'] + NatToDecimal(b);
      && s != [] && !IsSpace(s[0]) && !IsSpace(s[|s| - 1]) && ',' !in s
      && Strip(s) == s && '-' in s
      && Split(s, '-') == [NatToDecimal(a), NatToDecimal(b)]
  {
    var x, y := NatToDecimal(a), NatToDecimal(b);
    DecimalEnds(a);
    DecimalEnds(b);
    GlueEnds(x, '-', y);
    GlueLacks(x, '-', y, ',');
    StripUnchanged(x + ['-'] + y);
    SplitTwo(x, y, '-');
  }

  /** What the range token `str(a)-str(b)` contributes. */
  lemma RangeTokenPorts(a: nat, b: nat)
    ensures var s := NatToDecimal(a) + ['-'] + NatToDecimal(b);
      TokenPorts(s) == if MinPort <= a <= b <= MaxPort then Ok(RangePorts(a, b)) else Err(InvalidRange(s))
  {
    RangeTokenShape(a, b);
    DecimalParses(a);
    DecimalParses(b);
  }

  /**
   * The range `str(a)-str(b)` names every port from `a` to `b` when 1 <= a <= b <= 65535,
   * and is an invalid range otherwise (a reversed range, port 0, or past 65535).
   */
  lemma RangeSpec(a: nat, b: nat)
    ensures var spec := NatToDecimal(a) + ['-'] + NatToDecimal(b);
      && (ParsedPorts(spec).Ok? <==> MinPort <= a <= b <= MaxPort)
      && (ParsedPorts(spec).Err? ==> ParsedPorts(spec).error == InvalidRange(spec))
      && (ParsedPorts(spec).Ok? ==>
            |ParsedPorts(spec).value| == b - a + 1 &&
            forall p :: p in ParsedPorts(spec).value <==> a <= p <= b)
  {
    var spec := NatToDecimal(a) + ['-'] + NatToDecimal(b);
    RangeTokenShape(a, b);
    RangeTokenPorts(a, b);
    OneTokenOutcome(spec);
    if MinPort <= a <= b <= MaxPort {
      SortedPortsMembers(RangePorts(a, b));
    }
  }

  /** `str(a)-str(b)-str(c)` has no whitespace at its ends and no comma. */
  lemma TripleTokenEnds(a: nat, b: nat, c: nat)
    ensures var s := NatToDecimal(a) + ['-'] + NatToDecimal(b) + ['-'] + NatToDecimal(c);
      && s != [] && !IsSpace(s[0]) && !IsSpace(s[|s| - 1]) && ',' !in s && '-' in s
  {
    RangeGlue(a, b);
    DecimalEnds(c);
    GlueClean(NatToDecimal(a) + ['-'] + NatToDecimal(b), NatToDecimal(c));
  }

  /** `str(a)-str(b)` starts and ends with a digit and has no comma. */
  lemma RangeGlue(a: nat, b: nat)
    ensures var s := NatToDecimal(a) + ['-'] + NatToDecimal(b);
      s != [] && !IsSpace(s[0]) && !IsSpace(s[|s| - 1]) && ',' !in s
  {
    DecimalEnds(a);
    DecimalEnds(b);
    GlueClean(NatToDecimal(a), NatToDecimal(b));
  }

  /** Gluing two comma-free pieces without outer whitespace at `-` keeps both properties. */
  lemma GlueClean(x: string, y: string)
    requires x != [] && y != [] && !IsSpace(x[0]) && !IsSpace(y[|y| - 1])
    requires ',' !in x && ',' !in y
    ensures var s := x + ['-'] + y;
      s != [] && !IsSpace(s[0]) && !IsSpace(s[|s| - 1]) && ',' !in s && '-' in s
  {
    GlueEnds(x, '-', y);
    GlueLacks(x, '-', y, ',');
  }

  /** `str(a)-str(b)-str(c)` splits at `-` into the three renderings. */
  lemma TripleTokenSplit(a: nat, b: nat, c: nat)
    ensures Split(NatToDecimal(a) + ['-'] + NatToDecimal(b) + ['-'] + NatToDecimal(c), '-') ==
      [NatToDecimal(a), NatToDecimal(b), NatToDecimal(c)]
  {
    DecimalEnds(a);
    DecimalEnds(b);
    DecimalEnds(c);
    SplitThree(NatToDecimal(a), NatToDecimal(b), NatToDecimal(c), '-');
  }

  /** Three integer pieces around `-` are too many bounds. */
  lemma ThreeBounds(part: string, x: string, y: string, z: string)
    requires '-' in part && Split(part, '-') == [x, y, z]
    requires ParseInt(x).Some? && ParseInt(y).Some? && ParseInt(z).Some?
    ensures RangeToken(part) == Err(TooManyBounds)
  {
  }

  /** The third bound is converted before the unpacking into two fails on it. */
  lemma TripleTokenPorts(a: nat, b: nat, c: nat)
    ensures var s := NatToDecimal(a) + ['-'] + NatToDecimal(b) + ['-'] + NatToDecimal(c);
      TokenPorts(s) == Err(TooManyBounds)
  {
    var s := NatToDecimal(a) + ['-'] + NatToDecimal(b) + ['-'] + NatToDecimal(c);
    TripleTokenEnds(a, b, c);
    StripUnchanged(s);
    TripleTokenSplit(a, b, c);
    DecimalParses(a);
    DecimalParses(b);
    DecimalParses(c);
    ThreeBounds(s, NatToDecimal(a), NatToDecimal(b), NatToDecimal(c));
  }

  /**
   * Three integer bounds are rejected by the unpacking, not as a malformed range: the
   * lazy conversion reaches the third piece first.
   */
  lemma TripleRangeRejected(a: nat, b: nat, c: nat)
    ensures var spec := NatToDecimal(a) + ['-'] + NatToDecimal(b) + ['-'] + NatToDecimal(c);
      ParsedPorts(spec) == Err(TooManyBounds)
  {
    TripleTokenEnds(a, b, c);
    TripleTokenPorts(a, b, c);
    OneTokenOutcome(NatToDecimal(a) + ['-'] + NatToDecimal(b) + ['-'] + NatToDecimal(c));
  }

  /** A trailing comma leaves an empty last token, which is not a port number. */
  lemma TrailingCommaRejected(n: nat)
    requires InPortRange(n)
    ensures ParsedPorts(NatToDecimal(n) + [',']) == Err(InvalidPort([]))
  {
    var x := NatToDecimal(n);
    var spec := x + [','];
    DecimalEnds(n);
    assert spec[0] == x[0];
    StripUnchanged(spec);
    SplitTwo(x, [], ',');
    assert spec == x + [','] + [];
    var tokens := Tokens(spec);
    assert tokens == [x, []];
    SinglePortToken(n);
    assert TokenPorts([]) == Err(InvalidPort([]));
    CollectFirstError(Contributions(tokens), 1);
  }

  lemma CollectThree(rs: seq<Result<set<int>, PortError>>, a: set<int>, b: set<int>, c: set<int>)
    requires |rs| == 3 && rs[0] == Ok(a) && rs[1] == Ok(b) && rs[2] == Ok(c)
    ensures Collect(rs) == Ok(a + b + c)
  {
    assert rs[1..][0] == Ok(b) && rs[1..][1..][0] == Ok(c);
    assert rs[1..][1..][1..] == [];
    assert Collect(rs[1..][1..]) == Ok(c + {});
    assert Collect(rs[1..]) == Ok(b + (c + {}));
    assert a + (b + (c + {})) == a + b + c;
  }

  /** A specification `str(a)-str(b),str(c),str(d)` of a range and two single ports. */
  function RangeAndTwo(a: nat, b: nat, c: nat, d: nat): string {
    NatToDecimal(a) + ['-'] + NatToDecimal(b) + [','] + NatToDecimal(c) + [','] + NatToDecimal(d)
  }

  lemma RangeAndTwoTokens(a: nat, b: nat, c: nat, d: nat)
    ensures !IsBlank(RangeAndTwo(a, b, c, d))
    ensures Tokens(RangeAndTwo(a, b, c, d)) ==
      [NatToDecimal(a) + ['-'] + NatToDecimal(b), NatToDecimal(c), NatToDecimal(d)]
  {
    var range, y, z := NatToDecimal(a) + ['-'] + NatToDecimal(b), NatToDecimal(c), NatToDecimal(d);
    RangeTokenShape(a, b);
    DecimalEnds(c);
    DecimalEnds(d);
    GlueEnds(range, ',', y);
    GlueEnds(range + [','] + y, ',', z);
    assert RangeAndTwo(a, b, c, d) == range + [','] + y + [','] + z;
    StripUnchanged(range + [','] + y + [','] + z);
    SplitThree(range, y, z, ',');
  }

  lemma RangeAndTwoContributions(a: nat, b: nat, c: nat, d: nat)
    requires MinPort <= a <= b <= MaxPort && InPortRange(c) && InPortRange(d)
    ensures var rs := Contributions(Tokens(RangeAndTwo(a, b, c, d)));
      |rs| == 3 && rs[0] == Ok(RangePorts(a, b)) && rs[1] == Ok({c}) && rs[2] == Ok({d})
  {
    var tokens := Tokens(RangeAndTwo(a, b, c, d));
    RangeAndTwoTokens(a, b, c, d);
    assert tokens[0] == NatToDecimal(a) + ['-'] + NatToDecimal(b);
    assert tokens[1] == NatToDecimal(c) && tokens[2] == NatToDecimal(d);
    RangeTokenPorts(a, b);
    SinglePortToken(c);
    SinglePortToken(d);
  }

  /** A range and two single ports, all in range, name exactly those ports. */
  lemma RangeAndTwoSpec(a: nat, b: nat, c: nat, d: nat)
    requires MinPort <= a <= b <= MaxPort && InPortRange(c) && InPortRange(d)
    ensures var r := ParsedPorts(RangeAndTwo(a, b, c, d));
      && r.Ok?
      && |r.value| == |RangePorts(a, b) + {c} + {d}|
      && forall p :: p in r.value <==> a <= p <= b || p == c || p == d
  {
    var ports := RangePorts(a, b) + {c} + {d};
    assert forall p :: p in ports ==> InPortRange(p);
    RangeAndTwoSorted(a, b, c, d);
    SortedPortsMembers(ports);
  }

  lemma RangeAndTwoSorted(a: nat, b: nat, c: nat, d: nat)
    requires MinPort <= a <= b <= MaxPort && InPortRange(c) && InPortRange(d)
    ensures ParsedPorts(RangeAndTwo(a, b, c, d)) == Ok(SortedPorts(RangePorts(a, b) + {c} + {d}))
  {
    RangeAndTwoTokens(a, b, c, d);
    RangeAndTwoContributions(a, b, c, d);
    CollectThree(Contributions(Tokens(RangeAndTwo(a, b, c, d))), RangePorts(a, b), {c}, {d});
  }

  /** A range followed by two larger ports, in order, has two more ports than the range. */
  lemma RangeAndTwoCount(a: int, b: int, c: int, d: int)
    requires a <= b < c < d
    ensures |RangePorts(a, b) + {c} + {d}| == b - a + 3
  {
    assert c !in RangePorts(a, b);
    assert d !in RangePorts(a, b) + {c};
  }

  /** The default specification of the scan form is `20-80,443,8080`. */
  lemma DefaultSpecificationText()
    ensures RangeAndTwo(20, 80, 443, 8080) == "20-80,443,8080"
  {
  }

  /** The form's default specification `20-80,443,8080` names 63 ports. */
  lemma DefaultSpecification()
    ensures RangeAndTwo(20, 80, 443, 8080) == "20-80,443,8080"
    ensures var r := ParsedPorts("20-80,443,8080");
      && r.Ok?
      && |r.value| == 63
      && forall p :: p in r.value <==> 20 <= p <= 80 || p == 443 || p == 8080
  {
    DefaultSpecificationText();
    RangeAndTwoSpec(20, 80, 443, 8080);
    RangeAndTwoCount(20, 80, 443, 8080);
  }
}
