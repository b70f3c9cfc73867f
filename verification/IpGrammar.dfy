/** IPv4address and IPv6address, as section 3.2.2 of RFC 3986 writes them. */
module IpGrammar {
  import opened Prelude

  predicate IsDigit(c: char) {
    '0' <= c <= '9'
  }

  predicate IsHexDigit(c: char) {
    IsDigit(c) || 'a' <= c <= 'f' || 'A' <= c <= 'F'
  }

  /** dec-octet = DIGIT / %x31-39 DIGIT / "1" 2DIGIT / "2" %x30-34 DIGIT / "25" %x30-35 */
  predicate DecOctet(s: string) {
    || (|s| == 1 && IsDigit(s[0]))
    || (|s| == 2 && '1' <= s[0] <= '9' && IsDigit(s[1]))
    || (|s| == 3 && s[0] == '1' && IsDigit(s[1]) && IsDigit(s[2]))
    || (|s| == 3 && s[0] == '2' && '0' <= s[1] <= '4' && IsDigit(s[2]))
    || (|s| == 3 && s[0] == '2' && s[1] == '5' && '0' <= s[2] <= '5')
  }

  /** dec-octet "." ... "." dec-octet, `n` of them */
  predicate Octets(n: nat, s: string)
    requires n >= 1
    decreases |s|, 1
  {
    if n == 1 then DecOctet(s) else exists i :: 0 <= i < |s| && OctetsFrom(n, s, i)
  }

  predicate OctetsFrom(n: nat, s: string, i: nat)
    requires n > 1 && i < |s|
    decreases |s|, 0
  {
    DecOctet(s[..i]) && s[i] == '.' && Octets(n - 1, s[i + 1..])
  }

  /** IPv4address = dec-octet "." dec-octet "." dec-octet "." dec-octet */
  predicate IPv4address(s: string) {
    Octets(4, s)
  }

  predicate HexDigits(s: string) {
    s == "" || (IsHexDigit(s[0]) && HexDigits(s[1..]))
  }

  /** h16 = 1*4HEXDIG */
  predicate H16(s: string) {
    1 <= |s| <= 4 && HexDigits(s)
  }

  /** ls32 = ( h16 ":" h16 ) / IPv4address */
  predicate Ls32(s: string) {
    (exists i :: 0 <= i < |s| && TwoGroups(s, i)) || IPv4address(s)
  }

  predicate TwoGroups(s: string, i: nat)
    requires i < |s|
  {
    H16(s[..i]) && s[i] == ':' && H16(s[i + 1..])
  }

  /** n( h16 ":" ) */
  predicate Groups(n: nat, s: string)
    decreases |s|, 1
  {
    if n == 0 then s == "" else exists i :: 0 <= i < |s| && GroupsFrom(n, s, i)
  }

  predicate GroupsFrom(n: nat, s: string, i: nat)
    requires n > 0 && i < |s|
    decreases |s|, 0
  {
    H16(s[..i]) && s[i] == ':' && Groups(n - 1, s[i + 1..])
  }

  /** n( h16 ":" ) ls32 */
  predicate Tail(n: nat, s: string) {
    exists i :: 0 <= i <= |s| && TailFrom(n, s, i)
  }

  predicate TailFrom(n: nat, s: string, i: nat)
    requires i <= |s|
  {
    Groups(n, s[..i]) && Ls32(s[i..])
  }

  /** n( h16 ":" ) h16 */
  predicate Run(n: nat, s: string) {
    exists i :: 0 <= i <= |s| && RunFrom(n, s, i)
  }

  predicate RunFrom(n: nat, s: string, i: nat)
    requires i <= |s|
  {
    Groups(n, s[..i]) && H16(s[i..])
  }

  /** [ *n( h16 ":" ) h16 ] */
  predicate Lead(n: nat, s: string) {
    s == "" || exists k: nat :: 0 <= k <= n && Run(k, s)
  }

  /** The places where a string can be read as something, "::", and something more. */
  predicate ElidesAt(s: string, i: nat) {
    i + 2 <= |s| && s[i] == ':' && s[i + 1] == ':'
  }

  /** The nine alternatives, in the order of the standard. */
  predicate IPv6address(s: string) {
    || Tail(6, s)
    || (exists i :: 0 <= i < |s| && ElidesAt(s, i) && s[..i] == "" && Tail(5, s[i + 2..]))
    || (exists i :: 0 <= i < |s| && ElidesAt(s, i) && Lead(0, s[..i]) && Tail(4, s[i + 2..]))
    || (exists i :: 0 <= i < |s| && ElidesAt(s, i) && Lead(1, s[..i]) && Tail(3, s[i + 2..]))
    || (exists i :: 0 <= i < |s| && ElidesAt(s, i) && Lead(2, s[..i]) && Tail(2, s[i + 2..]))
    || (exists i :: 0 <= i < |s| && ElidesAt(s, i) && Lead(3, s[..i]) && Tail(1, s[i + 2..]))
    || (exists i :: 0 <= i < |s| && ElidesAt(s, i) && Lead(4, s[..i]) && Tail(0, s[i + 2..]))
    || (exists i :: 0 <= i < |s| && ElidesAt(s, i) && Lead(5, s[..i]) && H16(s[i + 2..]))
    || (exists i :: 0 <= i < |s| && ElidesAt(s, i) && Lead(6, s[..i]) && s[i + 2..] == "")
  }

  // ----- what the octets mean -----

  function Decimal(n: nat): string
    requires n < 1000
  {
    if n < 10 then ['0' + n as char]
    else if n < 100 then ['0' + (n / 10) as char, '0' + (n % 10) as char]
    else ['0' + (n / 100) as char, '0' + (n / 10 % 10) as char, '0' + (n % 10) as char]
  }

  function Digit(c: char): nat
    requires IsDigit(c)
  {
    (c - '0') as nat
  }

  lemma DecOctetValue(s: string) returns (n: nat)
    requires DecOctet(s)
    ensures n < 256 && s == Decimal(n)
  {
    if |s| == 1 {
      n := Digit(s[0]);
    } else if |s| == 2 {
      n := 10 * Digit(s[0]) + Digit(s[1]);
      TensAndUnits(Digit(s[0]), Digit(s[1]));
    } else {
      n := 100 * Digit(s[0]) + 10 * Digit(s[1]) + Digit(s[2]);
      HundredsTensAndUnits(Digit(s[0]), Digit(s[1]), Digit(s[2]));
    }
  }

  lemma TensAndUnits(t: nat, u: nat)
    requires t < 10 && u < 10
    ensures (10 * t + u) / 10 == t && (10 * t + u) % 10 == u
  {
  }

  lemma HundredsTensAndUnits(h: nat, t: nat, u: nat)
    requires t < 10 && u < 10
    ensures (100 * h + 10 * t + u) / 100 == h && (100 * h + 10 * t + u) / 10 % 10 == t && (100 * h + 10 * t + u) % 10 == u
  {
    assert (100 * h + 10 * t + u) / 10 == 10 * h + t;
  }

  lemma DecimalIsDecOctet(n: nat)
    requires n < 256
    ensures DecOctet(Decimal(n))
  {
    if n >= 100 {
      assert n / 100 == 1 || n / 100 == 2;
      assert n / 100 == 2 ==> n / 10 % 10 <= 5 && (n / 10 % 10 == 5 ==> n % 10 <= 5);
    }
  }

  /** A dec-octet is a number below 256 in decimal, without leading zeros. */
  lemma DecOctetIsDecimal(s: string)
    ensures DecOctet(s) <==> exists n: nat :: n < 256 && s == Decimal(n)
  {
    if DecOctet(s) {
      var n := DecOctetValue(s);
    }
    if n: nat :| n < 256 && s == Decimal(n) {
      DecimalIsDecOctet(n);
    }
  }

  // ----- characters -----

  lemma {:induction false} OctetsChars(n: nat, s: string)
    requires n >= 1 && Octets(n, s)
    ensures s != "" && (forall c :: c in s ==> IsDigit(c) || c == '.') && (n > 1 ==> '.' in s)
  {
    if n > 1 {
      var i :| 0 <= i < |s| && OctetsFrom(n, s, i);
      var rest := s[i + 1..];
      OctetsChars(n - 1, rest);
      forall j | 0 <= j < |s| ensures IsDigit(s[j]) || s[j] == '.' {
        if j < i {
          assert s[..i][j] == s[j];
        } else if j > i {
          assert rest[j - i - 1] == s[j];
        }
      }
    }
  }
}
