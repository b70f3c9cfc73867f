/** Strings in the order of their code units, as JavaScript's default `sort` and an ordered query on ids list them. */
module StringOrder {
  import opened Prelude
  import opened Sorting

  predicate AtMost(a: string, b: string) {
    a == [] || (b != [] && (a[0] < b[0] || (a[0] == b[0] && AtMost(a[1..], b[1..]))))
  }

  function ByUnits(): (string, string) -> bool {
    (a: string, b: string) => AtMost(a, b)
  }

  lemma {:induction false} AtMostTotal(a: string, b: string)
    ensures AtMost(a, b) || AtMost(b, a)
    ensures AtMost(a, b) && AtMost(b, a) ==> a == b
  {
    if a != [] && b != [] && a[0] == b[0] {
      AtMostTotal(a[1..], b[1..]);
      assert a == [a[0]] + a[1..] && b == [b[0]] + b[1..];
    }
  }

  lemma {:induction false} AtMostTransitive(a: string, b: string, c: string)
    requires AtMost(a, b) && AtMost(b, c)
    ensures AtMost(a, c)
  {
    if a != [] && a[0] == b[0] && b[0] == c[0] {
      AtMostTransitive(a[1..], b[1..], c[1..]);
    }
  }

  lemma OrderIsPreorder()
    ensures TotalPreorder(ByUnits())
  {
    forall a, b ensures ByUnits()(a, b) || ByUnits()(b, a) {
      AtMostTotal(a, b);
    }
    forall a, b, c | ByUnits()(a, b) && ByUnits()(b, c) ensures ByUnits()(a, c) {
      AtMostTransitive(a, b, c);
    }
  }

  /** An ordered list of distinct strings is determined by which strings there are. */
  lemma {:induction false} OneListing(a: seq<string>, b: seq<string>)
    requires NoDuplicates(a) && NoDuplicates(b) && Elements(a) == Elements(b) && Sorted(a, ByUnits()) && Sorted(b, ByUnits())
    ensures a == b
  {
    if a == [] {
      assert forall i :: 0 <= i < |b| ==> b[i] in Elements(b);
    } else {
      assert a[0] in Elements(b) && b != [];
      var i :| 0 <= i < |b| && b[i] == a[0];
      assert b[0] in Elements(a);
      var j :| 0 <= j < |a| && a[j] == b[0];
      assert ByUnits()(a[0], a[j]) || j == 0;
      assert ByUnits()(b[0], b[i]) || i == 0;
      AtMostTotal(a[0], b[0]);
      RestElements(a);
      RestElements(b);
      OneListing(a[1..], b[1..]);
    }
  }

  lemma RestElements(a: seq<string>)
    requires a != [] && NoDuplicates(a)
    ensures NoDuplicates(a[1..]) && Elements(a[1..]) == Elements(a) - {a[0]}
  {
    forall x | x in Elements(a) - {a[0]} ensures x in a[1..] {
      var i :| 0 <= i < |a| && a[i] == x;
      assert a[1..][i - 1] == x;
    }
  }

  /** A list put in order. */
  function InOrder(ss: seq<string>): (r: seq<string>)
    requires NoDuplicates(ss)
    ensures Sorted(r, ByUnits()) && NoDuplicates(r) && Elements(r) == Elements(ss)
  {
    OrderIsPreorder();
    SortSorted(ss, ByUnits());
    SortMembers(ss, ByUnits());
    SameMembers(ss, Sort(ss, ByUnits()));
    Sort(ss, ByUnits())
  }

  /** `[...s].sort()`. */
  method SortedElements(s: set<string>) returns (r: seq<string>)
    ensures Enumerates(r, s) && Sorted(r, ByUnits())
  {
    r := [];
    var rest := s;
    while rest != {}
      invariant rest <= s && NoDuplicates(r) && Elements(r) == s - rest
      decreases rest
    {
      var x :| x in rest;
      assert x !in Elements(r);
      PrependElements(x, r);
      r, rest := [x] + r, rest - {x};
    }
    r := InOrder(r);
  }
}
