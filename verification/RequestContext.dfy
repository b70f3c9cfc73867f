/** Reading a client's address out of the request headers (src/request-context.ts). */
module RequestContext {
  import opened Prelude
  import opened Splitting
  import opened IpGrammar
  import opened IpLiteral

  // ----- parseIpLiteral -----

  /** What `trim` takes off. */
  predicate IsSpace(c: char) {
    || '\t' <= c <= '\r' || c == ' ' || c == '\U{00A0}' || c == '\U{1680}' || '\U{2000}' <= c <= '\U{200A}'
    || c == '\U{2028}' || c == '\U{2029}' || c == '\U{202F}' || c == '\U{205F}' || c == '\U{3000}' || c == '\U{FEFF}'
  }

  function TrimStart(s: string): string {
    if s != "" && IsSpace(s[0]) then TrimStart(s[1..]) else s
  }

  function TrimEnd(s: string): string {
    if s != "" && IsSpace(s[|s| - 1]) then TrimEnd(s[..|s| - 1]) else s
  }

  function Trim(s: string): string {
    TrimEnd(TrimStart(s))
  }

  /** ^\d+$ */
  predicate IsNumber(s: string) {
    s != "" && forall c :: c in s ==> IsDigit(c)
  }

  /** The inside of ^\[([^\]]+)\](?::\d+)?$, when the whole matches. */
  function Bracketed(s: string): Option<string> {
    if s == "" || s[0] != '[' then None
    else
      var end := FirstAt(s, "]");
      if end == |s| || end < 2 then None
      else if s[end + 1..] == "" || (s[end + 1] == ':' && IsNumber(s[end + 2..])) then Some(s[1..end])
      else None
  }

  function StripIpv4Port(value: string): string {
    var parts := Split(value, ":");
    if |parts| == 2 && IsNumber(parts[1]) then parts[0] else value
  }

  predicate IsIpLiteral(s: string) {
    IPv4address(s) || IPv6address(s)
  }

  function ParseIpLiteral(value: Option<string>): (r: Option<string>)
    ensures r.Some? ==> IsIpLiteral(r.value)
  {
    if value.None? || value.value == "" then None
    else
      var trimmed := Trim(value.value);
      var candidate := match Bracketed(trimmed) case Some(inside) => inside case None => StripIpv4Port(trimmed);
      Ipv4IffGrammar(candidate);
      if candidate != "" && (IsIpv4Literal(candidate) || IPv6address(candidate)) then Some(candidate) else None
  }

  // ----- every way of writing an address is read -----

  predicate IsIpChar(c: char) {
    IsHexDigit(c) || c == ':' || c == '.'
  }

  predicate AllIpChars(s: string) {
    forall j :: 0 <= j < |s| ==> IsIpChar(s[j])
  }

  lemma {:induction false} HexChars(s: string)
    requires HexDigits(s)
    ensures AllIpChars(s)
  {
    if s != "" {
      HexChars(s[1..]);
      assert s == [s[0]] + s[1..];
    }
  }

  lemma Ipv4Chars(s: string)
    requires IPv4address(s)
    ensures AllIpChars(s)
  {
    OctetsChars(4, s);
  }

  lemma {:induction false} PartsChars(s: string)
    requires forall p :: p in Split(s, [':']) ==> AllIpChars(p)
    ensures AllIpChars(s)
    decreases |s|
  {
    if ':' in s {
      var first, rest := SplitFront(s, ':');
      assert Split(s, [':'])[0] == first;
      forall p | p in Split(rest, [':']) ensures AllIpChars(p) {
        assert p in Split(s, [':']);
      }
      PartsChars(rest);
      assert first in Split(s, [':']);
      CharsAround(first, rest);
    } else {
      SplitNone(s, ':');
      assert Split(s, [':'])[0] == s;
    }
  }

  lemma CharsAround(a: string, b: string)
    requires AllIpChars(a) && AllIpChars(b)
    ensures AllIpChars(a + [':'] + b)
  {
    forall j | 0 <= j < |a| + 1 + |b| ensures IsIpChar((a + [':'] + b)[j]) {
      assert (a + [':'] + b)[j] == if j < |a| then a[j] else if j == |a| then ':' else b[j - |a| - 1];
    }
  }

  lemma CountedChars(s: string, isLastHalf: bool)
    requires HalfGroups(s, isLastHalf).Some?
    ensures AllIpChars(s)
  {
    if s != "" {
      var parts, g := Split(s, [':']), HalfGroups(s, isLastHalf).value;
      if isLastHalf {
        TailParts(parts, g);
      } else {
        PlainParts(parts, |parts|, false, g);
        assert parts[..|parts|] == parts;
      }
      forall k | 0 <= k < |parts| ensures AllIpChars(parts[k]) {
        if EndsInIpv4(parts) && k == |parts| - 1 {
          Ipv4Chars(parts[k]);
        } else {
          assert EndsInIpv4(parts) ==> H16(parts[..|parts| - 1][k]);
          HexChars(parts[k]);
        }
      }
      PartsChars(s);
    }
  }

  /** An IPv6 address has its own characters only, and more than one colon. */
  lemma Ipv6Looks(s: string)
    requires IPv6address(s)
    ensures s != "" && AllIpChars(s) && |Split(s, [':'])| > 2
  {
    GrammarByCounts(s);
    LooksWhenItAddsUp(s);
  }

  lemma LooksWhenItAddsUp(s: string)
    requires AddsUp(s)
    ensures s != "" && AllIpChars(s) && |Split(s, [':'])| > 2
  {
    if HalfGroups(s, true) == Some(IPV6_GROUPS) {
      EightGroupsLook(s);
    } else {
      var i :| 0 <= i < |s| && ElidesAt(s, i) && Fits(s, i);
      FittingLooks(s, i);
    }
  }

  lemma EightGroupsLook(s: string)
    requires HalfGroups(s, true) == Some(IPV6_GROUPS)
    ensures s != "" && AllIpChars(s) && |Split(s, [':'])| > 2
  {
    CountedChars(s, true);
    TailParts(Split(s, [':']), IPV6_GROUPS);
  }

  lemma FittingLooks(s: string, i: nat)
    requires ElidesAt(s, i) && Fits(s, i)
    ensures AllIpChars(s) && |Split(s, [':'])| > 2
  {
    CountedChars(s[..i], false);
    CountedChars(s[i + 2..], true);
    ElisionLooks(s, i);
  }

  lemma ElisionLooks(s: string, i: nat)
    requires ElidesAt(s, i) && AllIpChars(s[..i]) && AllIpChars(s[i + 2..])
    ensures AllIpChars(s) && |Split(s, [':'])| > 2
  {
    ElidedLooks(s[..i], s[i + 2..]);
    assert s == s[..i] + [':'] + ([':'] + s[i + 2..]);
  }

  lemma ElidedLooks(a: string, b: string)
    requires AllIpChars(a) && AllIpChars(b)
    ensures var s := a + [':'] + ([':'] + b); AllIpChars(s) && |Split(s, [':'])| > 2
  {
    SplitAround(a, ':', [':'] + b);
    SplitAround("", ':', b);
    assert "" + [':'] + b == [':'] + b;
    CharsAround("", b);
    CharsAround(a, [':'] + b);
  }

  predicate IsPadding(s: string) {
    forall j :: 0 <= j < |s| ==> IsSpace(s[j])
  }

  lemma {:induction false} TrimsStart(p: string, s: string)
    requires IsPadding(p) && s != "" && !IsSpace(s[0])
    ensures TrimStart(p + s) == s
    decreases |p|
  {
    if p == "" {
      assert p + s == s;
    } else {
      assert (p + s)[1..] == p[1..] + s;
      TrimsStart(p[1..], s);
    }
  }

  lemma {:induction false} TrimsEnd(s: string, q: string)
    requires IsPadding(q) && s != "" && !IsSpace(s[|s| - 1])
    ensures TrimEnd(s + q) == s
    decreases |q|
  {
    if q == "" {
      assert s + q == s;
    } else {
      assert (s + q)[..|s + q| - 1] == s + q[..|q| - 1];
      TrimsEnd(s, q[..|q| - 1]);
    }
  }

  lemma Trims(p: string, s: string, q: string)
    requires IsPadding(p) && IsPadding(q) && s != "" && !IsSpace(s[0]) && !IsSpace(s[|s| - 1])
    ensures Trim(p + s + q) == s
  {
    assert p + s + q == p + (s + q);
    TrimsStart(p, s + q);
    TrimsEnd(s, q);
  }

  lemma LiteralLooks(ip: string)
    requires IsIpLiteral(ip)
    ensures ip != "" && AllIpChars(ip) && |Split(ip, [':'])| != 2
  {
    if IPv6address(ip) {
      Ipv6Looks(ip);
    } else {
      Ipv4Chars(ip);
      Ipv4HasMarks(ip);
      SplitNone(ip, ':');
    }
  }

  /** A bare address, with space around it, is read as itself. */
  lemma ReadsBare(p: string, ip: string, q: string)
    requires IsPadding(p) && IsPadding(q) && IsIpLiteral(ip)
    ensures ParseIpLiteral(Some(p + ip + q)) == Some(ip)
  {
    LiteralLooks(ip);
    Trims(p, ip, q);
    Ipv4IffGrammar(ip);
  }

  /** An IPv4 address with a port is read without it. */
  lemma ReadsPort(p: string, ip: string, port: string, q: string)
    requires IsPadding(p) && IsPadding(q) && IPv4address(ip) && IsNumber(port)
    ensures ParseIpLiteral(Some(p + (ip + ":" + port) + q)) == Some(ip)
  {
    var s := ip + ":" + port;
    PortLooks(ip, port);
    Trims(p, s, q);
    PortComesOff(ip, port);
    CandidateIsRead(p + s + q, s, ip);
  }

  lemma PortLooks(ip: string, port: string)
    requires IPv4address(ip) && IsNumber(port)
    ensures var s := ip + ":" + port; s != "" && !IsSpace(s[0]) && s[0] != '[' && !IsSpace(s[|s| - 1]) && ':' !in ip
  {
    var s := ip + ":" + port;
    Ipv4HasMarks(ip);
    Ipv4Chars(ip);
    assert s[0] == ip[0] && s[|s| - 1] == port[|port| - 1] && port[|port| - 1] in port;
  }

  lemma CandidateIsRead(value: string, text: string, ip: string)
    requires value != "" && Trim(value) == text && text != "" && text[0] != '[' && StripIpv4Port(text) == ip && IsIpLiteral(ip)
    ensures ParseIpLiteral(Some(value)) == Some(ip)
  {
    LiteralLooks(ip);
    Ipv4IffGrammar(ip);
  }

  lemma PortComesOff(ip: string, port: string)
    requires ':' !in ip && IsNumber(port)
    ensures StripIpv4Port(ip + ":" + port) == ip
  {
    SplitFirst(ip, ':', port);
    SplitNone(port, ':');
  }

  /** An address in brackets, with or without a port, is read without either. */
  lemma ReadsBracketed(p: string, ip: string, port: Option<string>, q: string)
    requires IsPadding(p) && IsPadding(q) && IsIpLiteral(ip) && (port.Some? ==> IsNumber(port.value))
    ensures ParseIpLiteral(Some(p + ("[" + ip + "]" + if port.Some? then ":" + port.value else "") + q)) == Some(ip)
  {
    var tail := if port.Some? then ":" + port.value else "";
    var s := "[" + ip + "]" + tail;
    LiteralLooks(ip);
    assert s[0] == '[' && s[|s| - 1] == if port.Some? then port.value[|port.value| - 1] else ']';
    assert port.Some? ==> port.value[|port.value| - 1] in port.value;
    Trims(p, s, q);
    BracketsComeOff(ip, tail);
    Ipv4IffGrammar(ip);
  }

  lemma BracketsComeOff(ip: string, tail: string)
    requires ip != "" && AllIpChars(ip) && (tail == "" || (tail[0] == ':' && IsNumber(tail[1..])))
    ensures Bracketed("[" + ip + "]" + tail) == Some(ip)
  {
    var s := "[" + ip + "]" + tail;
    forall j | 0 <= j < |ip| + 1 ensures !HasAt(s, "]", j) {
      HasOneAt(s, ']', j);
      assert j > 0 ==> s[j] == ip[j - 1];
    }
    HasOneAt(s, ']', |ip| + 1);
    FirstAtIs(s, "]", |ip| + 1);
    assert s[1..|ip| + 1] == ip && s[|ip| + 2..] == tail;
    assert tail != "" ==> s[|ip| + 3..] == tail[1..];
  }

  // ----- and nothing else is -----

  /** An address as it is written: bare, an IPv4 address with a port, or in brackets with or without one. */
  ghost predicate IsWritten(text: string, ip: string) {
    || text == ip
    || (IPv4address(ip) && exists port :: IsNumber(port) && text == ip + ":" + port)
    || text == "[" + ip + "]"
    || (exists port :: IsNumber(port) && text == "[" + ip + "]" + (":" + port))
  }

  /** A text with what stands around it. */
  datatype Padded = Padded(before: string, text: string, after: string)

  ghost predicate IsMadeOf(value: string, ip: string, v: Padded) {
    IsPadding(v.before) && IsWritten(v.text, ip) && IsPadding(v.after) && value == v.before + v.text + v.after
  }

  /** The value is an address so written, with space around it. */
  ghost predicate Carries(value: string, ip: string) {
    IsIpLiteral(ip) && exists v :: IsMadeOf(value, ip, v)
  }

  lemma {:induction false} StartComesOff(s: string) returns (p: string)
    ensures IsPadding(p) && s == p + TrimStart(s)
  {
    if s != "" && IsSpace(s[0]) {
      var rest := StartComesOff(s[1..]);
      p := [s[0]] + rest;
      assert s == [s[0]] + (rest + TrimStart(s)) == p + TrimStart(s);
    } else {
      p := "";
    }
  }

  lemma {:induction false} EndComesOff(s: string) returns (q: string)
    ensures IsPadding(q) && s == TrimEnd(s) + q
    decreases |s|
  {
    if s != "" && IsSpace(s[|s| - 1]) {
      var rest := EndComesOff(s[..|s| - 1]);
      q := rest + [s[|s| - 1]];
      assert s == s[..|s| - 1] + [s[|s| - 1]];
    } else {
      q := "";
    }
  }

  lemma BracketsWereWritten(text: string)
    requires Bracketed(text).Some?
    ensures IsWritten(text, Bracketed(text).value)
  {
    var end, ip := FirstAt(text, "]"), Bracketed(text).value;
    HasOneAt(text, ']', end);
    assert text == "[" + ip + "]" + text[end + 1..];
    if text[end + 1..] != "" {
      var port := text[end + 2..];
      assert text[end + 1..] == ":" + port;
    }
  }

  lemma PortWasWritten(text: string)
    requires |Split(text, ":")| == 2 && IsNumber(Split(text, ":")[1])
    ensures var ip := Split(text, ":")[0]; text == ip + ":" + Split(text, ":")[1] && (IsIpLiteral(ip) ==> IPv4address(ip))
  {
    if ':' !in text {
      SplitNone(text, ':');
    } else {
      var first, rest := SplitFront(text, ':');
      SplitNone(first, ':');
      if ':' in rest {
        var more, last := SplitFront(rest, ':');
      } else {
        SplitNone(rest, ':');
      }
      if IPv6address(first) {
        Ipv6Looks(first);
      }
    }
  }

  /** An address is read exactly from the values that carry it. */
  lemma ReadsIff(value: string, ip: string)
    ensures ParseIpLiteral(Some(value)) == Some(ip) <==> Carries(value, ip)
  {
    if Carries(value, ip) {
      var v :| IsMadeOf(value, ip, v);
      ReadsWritten(v.before, v.text, ip, v.after);
    }
    if ParseIpLiteral(Some(value)) == Some(ip) {
      var p := StartComesOff(value);
      var q := EndComesOff(TrimStart(value));
      var text := Trim(value);
      assert value == p + text + q;
      if Bracketed(text).Some? {
        BracketsWereWritten(text);
      } else if |Split(text, ":")| == 2 && IsNumber(Split(text, ":")[1]) {
        PortWasWritten(text);
      }
      assert IsMadeOf(value, ip, Padded(p, text, q));
    }
  }

  lemma ReadsWritten(p: string, text: string, ip: string, q: string)
    requires IsPadding(p) && IsPadding(q) && IsIpLiteral(ip) && IsWritten(text, ip)
    ensures ParseIpLiteral(Some(p + text + q)) == Some(ip)
  {
    if text == ip {
      ReadsBare(p, ip, q);
    } else if IPv4address(ip) && exists port :: IsNumber(port) && text == ip + ":" + port {
      var port :| IsNumber(port) && text == ip + ":" + port;
      ReadsPort(p, ip, port, q);
    } else if text == "[" + ip + "]" {
      ReadsBracketed(p, ip, None, q);
      assert text + "" == text;
    } else {
      var port :| IsNumber(port) && text == "[" + ip + "]" + (":" + port);
      ReadsBracketed(p, ip, Some(port), q);
    }
  }

  // ----- resolveForwardedClientIp -----

  datatype ProxyTrust = Unconfigured | Direct | BehindProxy(hops: nat)

  datatype Headers = Headers(xRealIp: Option<string>, xForwardedFor: Option<string>)

  function ResolveForwardedClientIp(headers: Headers, trust: ProxyTrust): Option<string> {
    if !trust.BehindProxy? then None
    else
      var realIp := if trust.hops == 1 then ParseIpLiteral(headers.xRealIp) else None;
      if headers.xForwardedFor.None? then realIp
      else AtTrustedHop(realIp, Split(headers.xForwardedFor.value, ","), trust.hops)
  }

  function AtTrustedHop(realIp: Option<string>, chain: seq<string>, hops: nat): Option<string> {
    var hopIndex := |chain| - hops;
    var forwardedIp := if 0 <= hopIndex < |chain| then ParseIpLiteral(Some(chain[hopIndex])) else None;
    if forwardedIp.None? then None
    else if realIp.Some? && realIp != forwardedIp then None
    else forwardedIp
  }

  /**
   * Behind `hops` proxies, what a client puts in front of the last `hops` entries makes no difference, and
   * neither does anything else in front of them: the result depends on those entries alone.
   */
  lemma OnlyTheTrustedHopsCount(realIp: Option<string>, header: string, other: string, hops: nat)
    requires hops >= 1 && |Split(header, ",")| >= hops && |Split(other, ",")| >= hops
    requires Split(header, ",")[|Split(header, ",")| - hops..] == Split(other, ",")[|Split(other, ",")| - hops..]
    ensures ResolveForwardedClientIp(Headers(realIp, Some(header)), BehindProxy(hops)) ==
            ResolveForwardedClientIp(Headers(realIp, Some(other)), BehindProxy(hops))
  {
    var a, b := Split(header, ","), Split(other, ",");
    assert a[|a| - hops..][0] == a[|a| - hops] && b[|b| - hops..][0] == b[|b| - hops];
  }

  /** So a prefix makes no difference to a chain as long as the trusted hops; a shorter one gives no answer. */
  lemma PrefixMakesNoDifference(realIp: Option<string>, prefix: string, header: string, hops: nat)
    requires hops >= 1
    ensures if |Split(header, ",")| >= hops
            then ResolveForwardedClientIp(Headers(realIp, Some(prefix + "," + header)), BehindProxy(hops)) ==
                 ResolveForwardedClientIp(Headers(realIp, Some(header)), BehindProxy(hops))
            else ResolveForwardedClientIp(Headers(realIp, Some(header)), BehindProxy(hops)) == None
  {
    SplitAround(prefix, ',', header);
    if |Split(header, ",")| >= hops {
      SameEnd(Split(prefix, ","), Split(header, ","), hops);
      OnlyTheTrustedHopsCount(realIp, prefix + "," + header, header, hops);
    }
  }

  lemma SameEnd(front: seq<string>, back: seq<string>, n: nat)
    requires n <= |back|
    ensures (front + back)[|front + back| - n..] == back[|back| - n..]
  {
  }

  /** `x-real-ip` carries some other address than this one. */
  ghost predicate Contradicts(realIp: Option<string>, ip: string) {
    realIp.Some? && exists other :: other != ip && Carries(realIp.value, other)
  }

  lemma ContradictsIff(realIp: Option<string>, ip: string)
    ensures Contradicts(realIp, ip) <==> ParseIpLiteral(realIp).Some? && ParseIpLiteral(realIp).value != ip
  {
    if Contradicts(realIp, ip) {
      var other :| other != ip && Carries(realIp.value, other);
      ReadsIff(realIp.value, other);
    } else if ParseIpLiteral(realIp).Some? {
      ReadsIff(realIp.value, ParseIpLiteral(realIp).value);
    }
  }

  lemma HopDecides(realIp: Option<string>, chain: seq<string>, hops: nat, ip: string)
    requires hops >= 1
    ensures AtTrustedHop(realIp, chain, hops) == Some(ip) <==>
            |chain| >= hops && Carries(chain[|chain| - hops], ip) && !(realIp.Some? && realIp.value != ip)
  {
    if |chain| >= hops {
      ReadsIff(chain[|chain| - hops], ip);
    }
  }

  /**
   * Behind proxies an address is the answer exactly when the entry at the trusted hop carries it, and behind
   * a single one `x-real-ip` does not contradict it.
   */
  lemma ResolvedIff(realIp: Option<string>, header: string, hops: nat, ip: string)
    requires hops >= 1
    ensures var chain := Split(header, ",");
            ResolveForwardedClientIp(Headers(realIp, Some(header)), BehindProxy(hops)) == Some(ip) <==>
            |chain| >= hops && Carries(chain[|chain| - hops], ip) && !(hops == 1 && Contradicts(realIp, ip))
  {
    ContradictsIff(realIp, ip);
    HopDecides(if hops == 1 then ParseIpLiteral(realIp) else None, Split(header, ","), hops, ip);
  }

  /** Without a chain only a single proxy's `x-real-ip` counts, and without a trusted proxy nothing does. */
  lemma ResolvedWithoutChain(realIp: Option<string>, trust: ProxyTrust, ip: string)
    ensures ResolveForwardedClientIp(Headers(realIp, None), trust) == Some(ip) <==>
            trust == BehindProxy(1) && realIp.Some? && Carries(realIp.value, ip)
    ensures !trust.BehindProxy? ==> forall header :: ResolveForwardedClientIp(Headers(realIp, header), trust) == None
  {
    if realIp.Some? {
      ReadsIff(realIp.value, ip);
    }
  }
}
