/** JavaScript's `split` with a non-empty separator. */
module Splitting {
  import opened Prelude

  predicate HasAt(s: string, sep: string, j: nat) {
    j + |sep| <= |s| && s[j..j + |sep|] == sep
  }

  /** Where the separator first begins, or the length of the string. */
  function FirstAt(s: string, sep: string): (i: nat)
    requires sep != []
    ensures i <= |s| && (i < |s| ==> HasAt(s, sep, i))
  {
    if |s| < |sep| then |s|
    else if HasAt(s, sep, 0) then 0
    else
      var i := FirstAt(s[1..], sep);
      assert i < |s[1..]| ==> s[1 + i..1 + i + |sep|] == s[1..][i..i + |sep|];
      1 + i
  }

  lemma {:induction false} NoneBeforeFirst(s: string, sep: string, j: nat)
    requires sep != [] && j < FirstAt(s, sep)
    ensures !HasAt(s, sep, j)
    decreases |s|
  {
    if |s| >= |sep| && j > 0 {
      NoneBeforeFirst(s[1..], sep, j - 1);
      assert j + |sep| <= |s| ==> s[j..j + |sep|] == s[1..][j - 1..j - 1 + |sep|];
    }
  }

  function Split(s: string, sep: string): (parts: seq<string>)
    requires sep != []
    ensures parts != []
    decreases |s|
  {
    var i := FirstAt(s, sep);
    if i == |s| then [s] else [s[..i]] + Split(s[i + |sep|..], sep)
  }

  lemma FirstAtIs(s: string, sep: string, i: nat)
    requires sep != [] && HasAt(s, sep, i) && forall j :: 0 <= j < i ==> !HasAt(s, sep, j)
    ensures FirstAt(s, sep) == i
  {
    if i < FirstAt(s, sep) {
      NoneBeforeFirst(s, sep, i);
    }
  }

  /** A separator with none before it is where the string splits first. */
  lemma FirstIs(s: string, sep: string, i: nat)
    requires sep != [] && HasAt(s, sep, i) && forall j :: 0 <= j < i ==> !HasAt(s, sep, j)
    ensures Split(s, sep) == [s[..i]] + Split(s[i + |sep|..], sep)
  {
    FirstAtIs(s, sep, i);
  }

  lemma NoneAt(s: string, sep: string)
    requires sep != [] && forall j :: 0 <= j < |s| ==> !HasAt(s, sep, j)
    ensures Split(s, sep) == [s]
  {
  }

  // ----- separators of one character -----

  lemma HasOneAt(s: string, c: char, j: nat)
    ensures HasAt(s, [c], j) <==> j < |s| && s[j] == c
  {
    if j < |s| {
      assert s[j..j + 1] == [s[j]];
    }
  }

  /** What has none of the separator comes off first. */
  lemma SplitFirst(s: string, c: char, t: string)
    requires c !in s
    ensures Split(s + [c] + t, [c]) == [s] + Split(t, [c])
  {
    var v := s + [c] + t;
    HasOneAt(v, c, |s|);
    forall j | 0 <= j < |s| ensures !HasAt(v, [c], j) {
      HasOneAt(v, c, j);
      assert v[j] == s[j];
    }
    FirstIs(v, [c], |s|);
    assert v[..|s|] == s && v[|s| + 1..] == t;
  }

  lemma SplitNone(s: string, c: char)
    requires c !in s
    ensures Split(s, [c]) == [s]
  {
    forall j | 0 <= j < |s| ensures !HasAt(s, [c], j) {
      HasOneAt(s, c, j);
    }
    NoneAt(s, [c]);
  }

  /** The first part of a split does not contain the separator, and the rest follows it. */
  lemma SplitFront(s: string, c: char) returns (first: string, rest: string)
    requires c in s
    ensures c !in first && s == first + [c] + rest && Split(s, [c]) == [first] + Split(rest, [c])
  {
    var k :| 0 <= k < |s| && s[k] == c;
    var i := FirstAt(s, [c]);
    if k < i {
      NoneBeforeFirst(s, [c], k);
      HasOneAt(s, c, k);
    }
    HasOneAt(s, c, i);
    forall j | 0 <= j < i ensures s[j] != c {
      NoneBeforeFirst(s, [c], j);
      HasOneAt(s, c, j);
    }
    first, rest := s[..i], s[i + 1..];
  }

  /** Splitting the two sides of a separator apart. */
  lemma {:induction false} SplitAround(s: string, c: char, t: string)
    ensures Split(s + [c] + t, [c]) == Split(s, [c]) + Split(t, [c])
    decreases |s|
  {
    if c in s {
      var first, rest := SplitFront(s, c);
      SplitAround(rest, c, t);
      FrontAround(first, rest, c, t, Split(rest, [c]), Split(t, [c]));
    } else {
      SplitNone(s, c);
      SplitFirst(s, c, t);
    }
  }

  lemma FrontAround(first: string, rest: string, c: char, t: string, parts: seq<string>, more: seq<string>)
    requires c !in first && Split(rest + [c] + t, [c]) == parts + more
    ensures Split((first + [c] + rest) + [c] + t, [c]) == ([first] + parts) + more
  {
    var v := rest + [c] + t;
    assert (first + [c] + rest) + [c] + t == first + [c] + v;
    SplitFirst(first, c, v);
    assert ([first] + parts) + more == [first] + (parts + more);
  }
}
