/** Small vocabulary shared by every module of the model. */
module Prelude {

  datatype Option<+T> = None | Some(value: T)

  /** The elements of a sequence, as a set. */
  function Elements<T>(s: seq<T>): set<T> {
    set x | x in s
  }

  ghost predicate NoDuplicates<T>(s: seq<T>) {
    forall i, j :: 0 <= i < j < |s| ==> s[i] != s[j]
  }

  /** `s` lists every element of `all` exactly once, in some order. */
  ghost predicate Enumerates<T>(s: seq<T>, all: set<T>) {
    NoDuplicates(s) && Elements(s) == all
  }

  lemma PrependElements<T>(x: T, s: seq<T>)
    ensures Elements([x] + s) == {x} + Elements(s)
  {
    forall y | y in {x} + Elements(s) ensures y in [x] + s {
      assert y == x ==> y == ([x] + s)[0];
      if y in s {
        var i :| 0 <= i < |s| && s[i] == y;
        assert ([x] + s)[i + 1] == y;
      }
    }
  }

  ghost predicate StrictlyAscending(s: seq<int>) {
    forall i, j :: 0 <= i < j < |s| ==> s[i] < s[j]
  }

  /** A finite set of numbers in ascending order. */
  ghost function Ascending(s: set<nat>): seq<nat> {
    if s == {} then []
    else
      LeastExists(s);
      var m :| IsLeast(m, s);
      [m] + Ascending(s - {m})
  }

  lemma AscendingStep(m: nat, s: set<nat>)
    requires IsLeast(m, s)
    ensures Ascending(s) == [m] + Ascending(s - {m})
  {
  }

  lemma {:induction false} AscendingElements(s: set<nat>)
    ensures Elements(Ascending(s)) == s
  {
    if s != {} {
      LeastExists(s);
      var m :| IsLeast(m, s);
      AscendingStep(m, s);
      AscendingElements(s - {m});
      PrependElements(m, Ascending(s - {m}));
    }
  }

  lemma {:induction false} AscendingSorted(s: set<nat>)
    ensures StrictlyAscending(Ascending(s))
  {
    if s != {} {
      LeastExists(s);
      var m :| IsLeast(m, s);
      var rest := Ascending(s - {m});
      AscendingStep(m, s);
      AscendingSorted(s - {m});
      forall j | 0 <= j < |rest| ensures m < rest[j] {
        AscendingElements(s - {m});
        assert rest[j] in Elements(rest);
      }
    }
  }

  lemma AscendingMeaning(s: set<nat>)
    ensures Enumerates(Ascending(s), s) && StrictlyAscending(Ascending(s))
  {
    AscendingElements(s);
    AscendingSorted(s);
  }

  predicate IsLeast(m: nat, s: set<nat>) {
    m in s && forall x :: x in s ==> m <= x
  }

  lemma LeastExists(s: set<nat>)
    requires s != {}
    ensures exists m :: IsLeast(m, s)
  {
    var y :| y in s;
    if s == {y} {
      assert IsLeast(y, s);
    } else {
      var rest := s - {y};
      assert s == {y} + rest;
      LeastExists(rest);
      var m :| IsLeast(m, rest);
      assert IsLeast(if y < m then y else m, s);
    }
  }

  /** A set with more than one element, or with an element other than `x`, keeps one when `x` leaves. */
  lemma AnotherElement<T>(s: set<T>, x: T)
    requires x in s && |s| != 1
    ensures s - {x} != {}
  {
    assert s == {x} + (s - {x});
  }
}
