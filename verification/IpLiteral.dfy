/** The recogniser of IP literals (src/request-context.ts), against the grammar. */
module IpLiteral {
  import opened Prelude
  import opened Splitting
  import opened IpGrammar

  // ----- isIpv4Literal: the regular expression, alternative by alternative -----

  /** 25[0-5]|2[0-4]\d|1\d\d|[1-9]?\d */
  predicate OctetPattern(s: string) {
    || (|s| == 3 && s[..2] == "25" && '0' <= s[2] <= '5')
    || (|s| == 3 && s[0] == '2' && '0' <= s[1] <= '4' && IsDigit(s[2]))
    || (|s| == 3 && s[0] == '1' && IsDigit(s[1]) && IsDigit(s[2]))
    || (|s| == 2 && '1' <= s[0] <= '9' && IsDigit(s[1]))
    || (|s| == 1 && IsDigit(s[0]))
  }

  /** (octet)(\.(octet)){n} */
  predicate OctetsPattern(n: nat, s: string)
    decreases |s|, 2
  {
    exists i :: 0 <= i <= |s| && OctetsPatternFrom(n, s, i)
  }

  predicate OctetsPatternFrom(n: nat, s: string, i: nat)
    requires i <= |s|
    decreases |s|, 1
  {
    OctetPattern(s[..i]) && DottedPattern(n, s[i..])
  }

  /** (\.(octet)){n} */
  predicate DottedPattern(n: nat, s: string)
    decreases |s|, 0
  {
    if n == 0 then s == "" else s != "" && s[0] == '.' && OctetsPattern(n - 1, s[1..])
  }

  predicate IsIpv4Literal(s: string) {
    OctetsPattern(3, s)
  }

  lemma PatternIsDecOctet(s: string)
    ensures OctetPattern(s) <==> DecOctet(s)
  {
  }

  /** An octet followed by `n` dotted ones is `n + 1` octets. */
  lemma {:induction false} PatternIsOctets(n: nat, s: string)
    ensures OctetsPattern(n, s) <==> Octets(n + 1, s)
  {
    if n == 0 {
      PatternIsDecOctet(s);
      assert s[..|s|] == s;
      assert OctetsPatternFrom(0, s, |s|) <==> DecOctet(s);
      forall i | 0 <= i < |s| ensures !OctetsPatternFrom(0, s, i) {
        assert s[i..] != "";
      }
    } else {
      forall i | 0 <= i < |s| ensures OctetsPatternFrom(n, s, i) <==> OctetsFrom(n + 1, s, i) {
        PatternIsDecOctet(s[..i]);
        assert s[i..][1..] == s[i + 1..];
        PatternIsOctets(n - 1, s[i + 1..]);
      }
      assert !OctetsPatternFrom(n, s, |s|);
      if i :| 0 <= i <= |s| && OctetsPatternFrom(n, s, i) {
        assert OctetsFrom(n + 1, s, i);
      }
      if Octets(n + 1, s) {
        var i :| 0 <= i < |s| && OctetsFrom(n + 1, s, i);
        assert OctetsPatternFrom(n, s, i);
      }
    }
  }

  /** The expression accepts exactly the IPv4 addresses of the grammar. */
  lemma Ipv4IffGrammar(s: string)
    ensures IsIpv4Literal(s) <==> IPv4address(s)
  {
    PatternIsOctets(3, s);
  }

  // ----- groups and parts -----

  /** Each group followed by a colon. */
  function Colons(gs: seq<string>): string {
    if gs == [] then "" else gs[0] + [':'] + Colons(gs[1..])
  }

  predicate AllH16(gs: seq<string>) {
    forall k :: 0 <= k < |gs| ==> H16(gs[k])
  }

  lemma H16HasNoMarks(g: string)
    requires H16(g)
    ensures g != "" && ':' !in g && '.' !in g
  {
    HexHasNoMarks(g);
  }

  lemma {:induction false} HexHasNoMarks(g: string)
    requires HexDigits(g)
    ensures ':' !in g && '.' !in g
  {
    if g != "" {
      HexHasNoMarks(g[1..]);
      assert g == [g[0]] + g[1..];
    }
  }

  lemma ColonsCons(g: string, gs: seq<string>)
    ensures Colons([g] + gs) == g + [':'] + Colons(gs)
  {
    assert ([g] + gs)[1..] == gs;
  }

  lemma GroupInFront(n: nat, g: string, s: string)
    requires H16(g) && Groups(n, s)
    ensures Groups(n + 1, g + [':'] + s)
  {
    var v, f := g + [':'] + s, |g|;
    assert v[..f] == g && v[f] == ':' && v[f + 1..] == s;
    assert GroupsFrom(n + 1, v, f);
  }

  lemma {:induction false} ColonsAreGroups(gs: seq<string>)
    requires AllH16(gs)
    ensures Groups(|gs|, Colons(gs))
  {
    if gs != [] {
      ColonsAreGroups(gs[1..]);
      GroupInFront(|gs| - 1, gs[0], Colons(gs[1..]));
    }
  }

  lemma FirstGroup(n: nat, s: string) returns (g: string, more: string)
    requires n > 0 && Groups(n, s)
    ensures H16(g) && Groups(n - 1, more) && s == g + [':'] + more
  {
    var i :| 0 <= i < |s| && GroupsFrom(n, s, i);
    g, more := s[..i], s[i + 1..];
  }

  lemma {:induction false} GroupsAreColons(n: nat, s: string) returns (gs: seq<string>)
    requires Groups(n, s)
    ensures |gs| == n && AllH16(gs) && s == Colons(gs)
    decreases n
  {
    if n == 0 {
      gs := [];
    } else {
      var g, more := FirstGroup(n, s);
      var rest := GroupsAreColons(n - 1, more);
      ColonsCons(g, rest);
      gs := [g] + rest;
    }
  }

  lemma {:induction false} SplitColons(gs: seq<string>, t: string)
    requires AllH16(gs)
    ensures Split(Colons(gs) + t, [':']) == gs + Split(t, [':'])
    decreases |gs|
  {
    if gs == [] {
      assert Colons(gs) + t == t;
    } else {
      var g, more := gs[0], gs[1..];
      SplitColons(more, t);
      SplitCons(g, Colons(more), t, more, Split(t, [':']));
      ColonsCons(g, more);
      assert gs == [g] + more;
    }
  }

  lemma SplitCons(g: string, s: string, t: string, gs: seq<string>, parts: seq<string>)
    requires H16(g) && Split(s + t, [':']) == gs + parts
    ensures Split((g + [':'] + s) + t, [':']) == ([g] + gs) + parts
  {
    H16HasNoMarks(g);
    SplitFirst(g, ':', s + t);
    assert (g + [':'] + s) + t == g + [':'] + (s + t);
    assert ([g] + gs) + parts == [g] + (gs + parts);
  }

  /** The string after the first `n` parts. */
  lemma {:induction false} AfterParts(n: nat, v: string) returns (rest: string)
    requires n < |Split(v, [':'])|
    ensures v == Colons(Split(v, [':'])[..n]) + rest && Split(rest, [':']) == Split(v, [':'])[n..]
    decreases n
  {
    if n == 0 {
      rest := v;
    } else {
      if ':' !in v {
        SplitNone(v, ':');
      }
      var first, more := SplitFront(v, ':');
      rest := AfterParts(n - 1, more);
      TakeOne(v, first, more, rest, Split(v, [':']), Split(more, [':']), n);
    }
  }

  lemma TakeOne(v: string, first: string, more: string, rest: string, all: seq<string>, parts: seq<string>, n: nat)
    requires 0 < n <= |parts| && all == [first] + parts && v == first + [':'] + more && more == Colons(parts[..n - 1]) + rest
    ensures all[n..] == parts[n - 1..] && v == Colons(all[..n]) + rest
  {
    assert all[..n] == [first] + parts[..n - 1];
    ColonsCons(first, parts[..n - 1]);
  }

  // ----- isIpv6Literal -----

  const IPV4_MAPPED_TAIL_GROUPS: nat := 2
  const IPV6_GROUPS: nat := 8

  /** How many groups a part stands for: none when it is not one. */
  function PartGroups(part: string, isTailGroup: bool): Option<nat> {
    if isTailGroup && '.' in part then if IsIpv4Literal(part) then Some(IPV4_MAPPED_TAIL_GROUPS) else None
    else if H16(part) then Some(1) else None
  }

  function PartsGroups(parts: seq<string>, n: nat, isLastHalf: bool): Option<nat>
    requires n <= |parts|
  {
    if n == 0 then Some(0)
    else
      var before, here := PartsGroups(parts, n - 1, isLastHalf), PartGroups(parts[n - 1], isLastHalf && n == |parts|);
      if before.None? || here.None? then None else Some(before.value + here.value)
  }

  function HalfGroups(half: string, isLastHalf: bool): Option<nat> {
    if half == "" then Some(0) else PartsGroups(Split(half, [':']), |Split(half, [':'])|, isLastHalf)
  }

  function HalvesAccepted(halves: seq<string>): bool {
    if |halves| == 1 then HalfGroups(halves[0], true) == Some(IPV6_GROUPS)
    else
      && |halves| == 2 && HalfGroups(halves[0], false).Some? && HalfGroups(halves[1], true).Some?
      && HalfGroups(halves[0], false).value + HalfGroups(halves[1], true).value < IPV6_GROUPS
  }

  lemma {:induction false} RejectedStays(parts: seq<string>, n: nat, m: nat, isLastHalf: bool)
    requires n <= m <= |parts| && PartsGroups(parts, n, isLastHalf).None?
    ensures PartsGroups(parts, m, isLastHalf).None?
  {
    if n < m {
      RejectedStays(parts, n, m - 1, isLastHalf);
    }
  }

  // ----- what the counts mean -----

  lemma {:induction false} PlainParts(parts: seq<string>, n: nat, isLastHalf: bool, g: nat)
    requires n <= |parts| && (isLastHalf ==> n < |parts|)
    ensures PartsGroups(parts, n, isLastHalf) == Some(g) <==> AllH16(parts[..n]) && g == n
  {
    if n > 0 {
      PlainParts(parts, n - 1, isLastHalf, n - 1);
      assert PartsGroups(parts, n - 1, isLastHalf).Some? ==> PartsGroups(parts, n - 1, isLastHalf) == Some(n - 1) by {
        if PartsGroups(parts, n - 1, isLastHalf).Some? {
          PlainParts(parts, n - 1, isLastHalf, PartsGroups(parts, n - 1, isLastHalf).value);
        }
      }
      assert parts[..n] == parts[..n - 1] + [parts[n - 1]];
      assert AllH16(parts[..n]) <==> AllH16(parts[..n - 1]) && H16(parts[n - 1]);
    }
  }

  lemma Ipv4HasMarks(s: string)
    requires IPv4address(s)
    ensures '.' in s && ':' !in s && s != ""
  {
    OctetsChars(4, s);
  }

  predicate EndsInIpv4(parts: seq<string>) {
    parts != [] && AllH16(parts[..|parts| - 1]) && IPv4address(parts[|parts| - 1])
  }

  lemma TailPart(part: string)
    ensures PartGroups(part, true) == if H16(part) then Some(1) else if IPv4address(part) then Some(2) else None
    ensures !(H16(part) && IPv4address(part))
  {
    Ipv4IffGrammar(part);
    if IPv4address(part) {
      Ipv4HasMarks(part);
    }
    if H16(part) {
      H16HasNoMarks(part);
    }
  }

  lemma LastOfAll(parts: seq<string>)
    requires parts != []
    ensures AllH16(parts) <==> AllH16(parts[..|parts| - 1]) && H16(parts[|parts| - 1])
  {
    assert parts == parts[..|parts| - 1] + [parts[|parts| - 1]];
  }

  lemma TailParts(parts: seq<string>, g: nat)
    requires parts != []
    ensures PartsGroups(parts, |parts|, true) == Some(g) <==> (AllH16(parts) && g == |parts|) || (EndsInIpv4(parts) && g == |parts| + 1)
  {
    var n, before := |parts|, PartsGroups(parts, |parts| - 1, true);
    PlainParts(parts, n - 1, true, if before.Some? then before.value else n - 1);
    PlainParts(parts, n - 1, true, n - 1);
    TailPart(parts[n - 1]);
    LastOfAll(parts);
  }

  lemma OnePart(s: string)
    ensures |Split(s, [':'])| == 1 ==> Split(s, [':']) == [s]
  {
    if ':' in s {
      var first, rest := SplitFront(s, ':');
    } else {
      SplitNone(s, ':');
    }
  }

  lemma RunPieces(n: nat, s: string) returns (front: string, rest: string)
    requires Run(n, s)
    ensures s == front + rest && Groups(n, front) && H16(rest)
  {
    var i :| 0 <= i <= |s| && RunFrom(n, s, i);
    front, rest := s[..i], s[i..];
  }

  lemma RunForm(k: nat, s: string)
    ensures Run(k, s) <==> AllH16(Split(s, [':'])) && |Split(s, [':'])| == k + 1
  {
    var parts := Split(s, [':']);
    if Run(k, s) {
      var front, rest := RunPieces(k, s);
      var gs := GroupsAreColons(k, front);
      SplitColons(gs, rest);
      H16HasNoMarks(rest);
      SplitNone(rest, ':');
    }
    if AllH16(parts) && |parts| == k + 1 {
      var rest := AfterParts(k, s);
      OnePart(rest);
      assert rest == parts[k];
      ColonsAreGroups(parts[..k]);
      RunOf(k, s, Colons(parts[..k]), rest);
    }
  }

  lemma RunOf(k: nat, s: string, front: string, rest: string)
    requires s == front + rest && Groups(k, front) && H16(rest)
    ensures Run(k, s)
  {
    assert s[..|front|] == front && s[|front|..] == rest;
    assert RunFrom(k, s, |front|);
  }

  lemma Ls32Parts(s: string)
    requires Ls32(s)
    ensures (AllH16(Split(s, [':'])) && |Split(s, [':'])| == 2) || (Split(s, [':']) == [s] && IPv4address(s))
  {
    if IPv4address(s) {
      Ipv4HasMarks(s);
      SplitNone(s, ':');
    } else {
      var i :| 0 <= i < |s| && TwoGroups(s, i);
      var a, b := s[..i], s[i + 1..];
      H16HasNoMarks(a);
      H16HasNoMarks(b);
      assert s == a + [':'] + b;
      SplitFirst(a, ':', b);
      SplitNone(b, ':');
    }
  }

  lemma TwoPartsLs32(s: string)
    requires |Split(s, [':'])| == 2 && AllH16(Split(s, [':']))
    ensures Ls32(s)
  {
    if ':' !in s {
      SplitNone(s, ':');
    }
    var first, rest := SplitFront(s, ':');
    OnePart(rest);
    var parts := Split(s, [':']);
    assert parts[0] == first && parts[1] == rest;
    assert s[..|first|] == first && s[|first| + 1..] == rest;
    assert TwoGroups(s, |first|);
  }

  /** How the parts of `n` groups and a tail look. */
  ghost predicate TailShape(parts: seq<string>, n: nat) {
    (AllH16(parts) && |parts| == n + 2) || (EndsInIpv4(parts) && |parts| == n + 1)
  }

  lemma ShapeOfConcat(gs: seq<string>, more: seq<string>, t: string)
    requires AllH16(gs) && ((AllH16(more) && |more| == 2) || (more == [t] && IPv4address(t)))
    ensures TailShape(gs + more, |gs|)
  {
    if more == [t] {
      assert (gs + more)[..|gs|] == gs;
    }
  }

  lemma ColonsThenTail(gs: seq<string>, rest: string)
    requires AllH16(gs) && Ls32(rest)
    ensures TailShape(Split(Colons(gs) + rest, [':']), |gs|)
  {
    SplitColons(gs, rest);
    Ls32Parts(rest);
    ShapeOfConcat(gs, Split(rest, [':']), rest);
  }

  lemma TailPieces(n: nat, s: string) returns (front: string, rest: string)
    requires Tail(n, s)
    ensures s == front + rest && Groups(n, front) && Ls32(rest)
  {
    var i :| 0 <= i <= |s| && TailFrom(n, s, i);
    front, rest := s[..i], s[i..];
  }

  lemma TailParted(n: nat, s: string)
    requires Tail(n, s)
    ensures TailShape(Split(s, [':']), n)
  {
    var front, rest := TailPieces(n, s);
    var gs := GroupsAreColons(n, front);
    ColonsThenTail(gs, rest);
  }

  lemma ShapeRest(parts: seq<string>, n: nat, rest: string)
    requires TailShape(parts, n) && Split(rest, [':']) == parts[n..]
    ensures AllH16(parts[..n]) && Ls32(rest)
  {
    if AllH16(parts) && |parts| == n + 2 {
      assert AllH16(parts[n..]);
      TwoPartsLs32(rest);
    } else {
      OnePart(rest);
      assert parts[n..][0] == parts[n];
    }
  }

  lemma TailForm(n: nat, s: string)
    ensures Tail(n, s) <==> TailShape(Split(s, [':']), n)
  {
    if Tail(n, s) {
      TailParted(n, s);
    }
    if TailShape(Split(s, [':']), n) {
      var rest := AfterParts(n, s);
      ShapeRest(Split(s, [':']), n, rest);
      ColonsAreGroups(Split(s, [':'])[..n]);
      TailOf(n, s, Colons(Split(s, [':'])[..n]), rest);
    }
  }

  lemma TailOf(n: nat, s: string, front: string, rest: string)
    requires s == front + rest && Groups(n, front) && Ls32(rest)
    ensures Tail(n, s)
  {
    assert s[..|front|] == front && s[|front|..] == rest;
    assert TailFrom(n, s, |front|);
  }

  /** What the recogniser's counts say about a half, in the words of the grammar. */
  lemma CountsAreGrammar(s: string)
    ensures s == "" <==> HalfGroups(s, true) == Some(0)
    ensures H16(s) <==> HalfGroups(s, true) == Some(1)
    ensures forall n: nat :: Tail(n, s) <==> HalfGroups(s, true) == Some(n + 2)
    ensures forall n: nat :: Lead(n, s) <==> HalfGroups(s, false).Some? && HalfGroups(s, false).value <= n + 1
  {
    OneGroup(s);
    forall n: nat ensures Tail(n, s) <==> HalfGroups(s, true) == Some(n + 2) {
      TailCount(n, s);
    }
    forall n: nat ensures Lead(n, s) <==> HalfGroups(s, false).Some? && HalfGroups(s, false).value <= n + 1 {
      LeadCount(n, s);
    }
  }

  lemma SplitNothing()
    ensures Split("", [':']) == [""]
  {
  }

  lemma OneGroup(s: string)
    ensures s == "" <==> HalfGroups(s, true) == Some(0)
    ensures H16(s) <==> HalfGroups(s, true) == Some(1)
  {
    if s != "" {
      var parts := Split(s, [':']);
      TailParts(parts, 0);
      TailParts(parts, 1);
      OnePart(s);
      if H16(s) {
        H16HasNoMarks(s);
        SplitNone(s, ':');
      }
    }
  }

  lemma TailCount(n: nat, s: string)
    ensures Tail(n, s) <==> HalfGroups(s, true) == Some(n + 2)
  {
    TailForm(n, s);
    if s == "" {
      SplitNothing();
    } else {
      TailParts(Split(s, [':']), n + 2);
    }
  }

  lemma LeadCount(n: nat, s: string)
    ensures Lead(n, s) <==> HalfGroups(s, false).Some? && HalfGroups(s, false).value <= n + 1
  {
    if s != "" {
      var parts := Split(s, [':']);
      PlainParts(parts, |parts|, false, |parts|);
      if HalfGroups(s, false).Some? {
        PlainParts(parts, |parts|, false, HalfGroups(s, false).value);
      }
      assert parts[..|parts|] == parts;
      RunForm(|parts| - 1, s);
      forall k: nat ensures Run(k, s) ==> AllH16(parts) && |parts| == k + 1 {
        RunForm(k, s);
      }
    }
  }

  /** The nine alternatives, by the number of groups on either side. */
  lemma GrammarByCounts(s: string)
    ensures IPv6address(s) <==> AddsUp(s)
  {
    CountsAreGrammar(s);
    forall i | 0 <= i < |s| && ElidesAt(s, i) ensures Fits(s, i) <==> FitsAlternatives(s[..i], s[i + 2..]) {
      AlternativesByCounts(s[..i], s[i + 2..]);
    }
    assert IPv6address(s) <==> Tail(6, s) || exists i :: 0 <= i < |s| && ElidesAt(s, i) && FitsAlternatives(s[..i], s[i + 2..]);
  }

  /** Eight groups, or fewer around a "::". */
  predicate AddsUp(s: string) {
    HalfGroups(s, true) == Some(IPV6_GROUPS) || exists i :: 0 <= i < |s| && ElidesAt(s, i) && Fits(s, i)
  }

  predicate Fits(s: string, i: nat)
    requires ElidesAt(s, i)
  {
    var a, b := HalfGroups(s[..i], false), HalfGroups(s[i + 2..], true);
    a.Some? && b.Some? && a.value + b.value < IPV6_GROUPS
  }

  /** The eight alternatives with "::", of its two sides. */
  predicate FitsAlternatives(a: string, b: string) {
    || (a == "" && Tail(5, b)) || (Lead(0, a) && Tail(4, b)) || (Lead(1, a) && Tail(3, b)) || (Lead(2, a) && Tail(2, b))
    || (Lead(3, a) && Tail(1, b)) || (Lead(4, a) && Tail(0, b)) || (Lead(5, a) && H16(b)) || (Lead(6, a) && b == "")
  }

  lemma AlternativesByCounts(a: string, b: string)
    ensures FitsAlternatives(a, b) <==>
            HalfGroups(a, false).Some? && HalfGroups(b, true).Some? && HalfGroups(a, false).value + HalfGroups(b, true).value < IPV6_GROUPS
  {
    LeadNothing(a);
    TailCount(5, b);
    Alternative(0, a, b);
    Alternative(1, a, b);
    Alternative(2, a, b);
    Alternative(3, a, b);
    Alternative(4, a, b);
    LeadCount(5, a);
    LeadCount(6, a);
    OneGroup(b);
    EightWays(HalfGroups(a, false), HalfGroups(b, true));
  }

  /** With fewer than eight groups, there are `y` on the right and at most `7 - y` on the left. */
  lemma EightWays(x: Option<nat>, y: Option<nat>)
    ensures x.Some? && y.Some? && x.value + y.value < 8 <==>
            || (x == Some(0) && y == Some(7)) || (x.Some? && x.value <= 1 && y == Some(6)) || (x.Some? && x.value <= 2 && y == Some(5))
            || (x.Some? && x.value <= 3 && y == Some(4)) || (x.Some? && x.value <= 4 && y == Some(3)) || (x.Some? && x.value <= 5 && y == Some(2))
            || (x.Some? && x.value <= 6 && y == Some(1)) || (x.Some? && x.value <= 7 && y == Some(0))
  {
  }

  lemma Alternative(n: nat, a: string, b: string)
    requires n <= 4
    ensures Lead(n, a) && Tail(4 - n, b) <==>
            HalfGroups(a, false).Some? && HalfGroups(a, false).value <= n + 1 && HalfGroups(b, true) == Some(6 - n)
  {
    LeadCount(n, a);
    TailCount(4 - n, b);
  }

  lemma LeadNothing(a: string)
    ensures a == "" <==> HalfGroups(a, false) == Some(0)
  {
    if a != "" {
      PlainParts(Split(a, [':']), |Split(a, [':'])|, false, 0);
    }
  }

  // ----- where "::" can stand -----

  /** Neither begins nor ends with a colon, nor has two in a row. */
  predicate Clean(s: string) {
    s != "" ==> s[0] != ':' && s[|s| - 1] != ':' && forall j :: 0 <= j < |s| ==> !ElidesAt(s, j)
  }

  lemma {:induction false} NoEmptyPartIsClean(s: string)
    requires "" !in Split(s, [':'])
    ensures s != "" && Clean(s)
    decreases |s|
  {
    if ':' in s {
      var first, rest := SplitFront(s, ':');
      assert Split(s, [':'])[0] == first;
      assert forall p :: p in Split(rest, [':']) ==> p in Split(s, [':']);
      NoEmptyPartIsClean(rest);
      forall j | 0 <= j < |s| ensures !ElidesAt(s, j) {
        if j > |first| {
          assert !ElidesAt(rest, j - |first| - 1);
        }
      }
    } else {
      SplitNone(s, ':');
    }
  }

  /** A half that counts has no colon to spare. */
  lemma CountedIsClean(s: string, isLastHalf: bool)
    requires HalfGroups(s, isLastHalf).Some?
    ensures Clean(s)
  {
    if s != "" {
      var parts, g := Split(s, [':']), HalfGroups(s, isLastHalf).value;
      if isLastHalf {
        TailParts(parts, g);
      } else {
        PlainParts(parts, |parts|, false, g);
        assert parts[..|parts|] == parts;
      }
      forall k | 0 <= k < |parts| ensures parts[k] != "" {
        if EndsInIpv4(parts) && k == |parts| - 1 {
          Ipv4HasMarks(parts[k]);
        } else {
          assert EndsInIpv4(parts) ==> H16(parts[..|parts| - 1][k]);
        }
      }
      NoEmptyPartIsClean(s);
    }
  }

  lemma ElidesIsHasAt(s: string, j: nat)
    ensures ElidesAt(s, j) <==> HasAt(s, "::", j)
  {
    if j + 2 <= |s| {
      assert s[j..j + 2] == [s[j], s[j + 1]];
    }
  }

  lemma CleanDoesNotSplit(s: string)
    requires Clean(s)
    ensures Split(s, "::") == [s]
  {
    forall j | 0 <= j < |s| ensures !HasAt(s, "::", j) {
      ElidesIsHasAt(s, j);
    }
    NoneAt(s, "::");
  }

  /** Clean sides come apart at the "::" between them, and nowhere else. */
  lemma SplitsAtElision(s: string, i: nat)
    requires ElidesAt(s, i) && Clean(s[..i]) && Clean(s[i + 2..])
    ensures Split(s, "::") == [s[..i], s[i + 2..]]
  {
    forall j | 0 <= j < i ensures !HasAt(s, "::", j) {
      ElidesIsHasAt(s, j);
      assert j + 1 < i ==> !ElidesAt(s[..i], j);
      assert j + 1 == i ==> s[..i][i - 1] == s[j];
    }
    ElidesIsHasAt(s, i);
    FirstIs(s, "::", i);
    CleanDoesNotSplit(s[i + 2..]);
  }

  lemma TwoHalves(s: string) returns (i: nat)
    requires |Split(s, "::")| == 2
    ensures i < |s| && ElidesAt(s, i) && Split(s, "::") == [s[..i], s[i + 2..]]
  {
    i := FirstAt(s, "::");
    ElidesIsHasAt(s, i);
    var rest := s[i + 2..];
    assert Split(s, "::") == [s[..i]] + Split(rest, "::");
    assert |Split(rest, "::")| == 1;
    assert FirstAt(rest, "::") == |rest|;
  }

  /** The recogniser's verdict on the halves is the grammar's on the string. */
  lemma HalvesIffGrammar(s: string)
    ensures HalvesAccepted(Split(s, "::")) <==> IPv6address(s)
  {
    GrammarByCounts(s);
    var halves := Split(s, "::");
    if HalvesAccepted(halves) {
      if |halves| == 1 {
        OneHalf(s);
      } else {
        var i := TwoHalves(s);
        assert ElidesAt(s, i) && Fits(s, i);
      }
    }
    if IPv6address(s) {
      if HalfGroups(s, true) == Some(8) {
        CountedIsClean(s, true);
        CleanDoesNotSplit(s);
      } else {
        var i :| 0 <= i < |s| && ElidesAt(s, i) && Fits(s, i);
        CountedIsClean(s[..i], false);
        CountedIsClean(s[i + 2..], true);
        SplitsAtElision(s, i);
      }
    }
  }

  lemma OneHalf(s: string)
    requires |Split(s, "::")| == 1
    ensures Split(s, "::") == [s]
  {
  }

  // ----- the recogniser, as it is written -----

  /** Accepts exactly the IPv6 addresses of the grammar. */
  method IsIpv6Literal(value: string) returns (accepted: bool)
    ensures accepted <==> IPv6address(value)
  {
    HalvesIffGrammar(value);
    var halves := Split(value, "::");
    if |halves| > 2 {
      return false;
    }
    var groups := 0;
    for h := 0 to |halves|
      invariant h == 0 ==> groups == 0
      invariant h == 1 ==> HalfGroups(halves[0], |halves| == 1) == Some(groups)
      invariant h == 2 ==> HalfGroups(halves[0], false).Some? && HalfGroups(halves[1], true).Some?
                           && groups == HalfGroups(halves[0], false).value + HalfGroups(halves[1], true).value
    {
      var half := halves[h];
      if half != "" {
        var counted := CountGroups(half, h == |halves| - 1);
        if counted.None? {
          return false;
        }
        groups := groups + counted.value;
      }
    }
    return if |halves| == 2 then groups < IPV6_GROUPS else groups == IPV6_GROUPS;
  }

  /** The inner loop, over the parts of one half. */
  method CountGroups(half: string, isLastHalf: bool) returns (groups: Option<nat>)
    requires half != ""
    ensures groups == HalfGroups(half, isLastHalf)
  {
    var parts := Split(half, ":");
    var count := 0;
    for p := 0 to |parts|
      invariant PartsGroups(parts, p, isLastHalf) == Some(count)
    {
      var part := parts[p];
      var isTailGroup := isLastHalf && p == |parts| - 1;
      if isTailGroup && '.' in part {
        if !IsIpv4Literal(part) {
          RejectedStays(parts, p + 1, |parts|, isLastHalf);
          return None;
        }
        count := count + IPV4_MAPPED_TAIL_GROUPS;
      } else {
        if !H16(part) {
          RejectedStays(parts, p + 1, |parts|, isLastHalf);
          return None;
        }
        count := count + 1;
      }
    }
    return Some(count);
  }
}
