/** The per-user index of session tokens (src/session-index.ts) and the values the store holds. */
module SessionIndex {
  import opened Prelude
  import opened Sorting

  type Token = string

  datatype Entry = Entry(token: Token, expiresAt: int)

  datatype ChallengeMethod = MagicLink | Github

  /** What a login challenge remembers about the first factor. */
  datatype Challenge = Challenge(userId: string, redirectUrl: string, firstFactor: ChallengeMethod)

  type NonWhole = x: real | x.Floor as real != x witness 0.5

  /** A finite number that a counter can hold. */
  datatype Count = Whole(n: int) | Fractional(x: NonWhole)

  /**
   * A stored text, known by what its readers make of it: the decimal text of a number, as a counter is
   * written; a JSON array (an item is `None` when it is not an index entry); the JSON of a login
   * challenge; or any other text, with what JavaScript's `Number` and Postgres' `bigint` cast make of it.
   */
  datatype Value =
    | Number(n: int)
    | Fraction(x: NonWhole)
    | JsonArray(items: seq<Option<Entry>>)
    | Login(challenge: Challenge)
    | Text(s: string, asNumber: Option<Count>, asBigint: Option<int>)

  datatype Merged = Merged(value: Value, ttlSeconds: int)

  function Somes(items: seq<Option<Entry>>): seq<Entry> {
    if items == [] then []
    else Somes(items[..|items| - 1]) + match items[|items| - 1] case Some(e) => [e] case None => []
  }

  /** Malformed values and items are dropped, never an error. */
  function EntriesOf(raw: Option<Value>): seq<Entry> {
    match raw
    case Some(JsonArray(items)) => Somes(items)
    case _ => []
  }

  function Stringify(es: seq<Entry>): Value {
    JsonArray(seq(|es|, i requires 0 <= i < |es| => Some(es[i])))
  }

  lemma {:induction false} SomesOfStringify(es: seq<Entry>)
    ensures EntriesOf(Some(Stringify(es))) == es
  {
    if es != [] {
      SomesOfStringify(es[..|es| - 1]);
      assert Stringify(es).items[..|es| - 1] == Stringify(es[..|es| - 1]).items;
    }
  }

  function EarlierFirst(): (Entry, Entry) -> bool {
    (a: Entry, b: Entry) => a.expiresAt <= b.expiresAt
  }

  function Tokens(es: seq<Entry>): set<Token> {
    set e | e in es :: e.token
  }

  function CeilSeconds(ms: int): int {
    (ms + 999) / 1000
  }

  function Max(a: int, b: int): int {
    if a < b then b else a
  }

  function MergedEntries(stored: Option<Value>, incoming: Value, now: int): seq<Entry> {
    var written := EntriesOf(Some(incoming));
    var kept := Filter(EntriesOf(stored), (e: Entry) => e.token !in Tokens(written) && e.expiresAt > now);
    Sort(kept + written, EarlierFirst())
  }

  function MergeSessionIndex(stored: Option<Value>, incoming: Value, now: int): Merged {
    var merged := MergedEntries(stored, incoming, now);
    var latest := if merged == [] then now else merged[|merged| - 1].expiresAt;
    Merged(Stringify(merged), Max(0, CeilSeconds(latest - now)))
  }

  // ----- one merge -----

  ghost predicate DistinctTokens(es: seq<Entry>) {
    forall i, j :: 0 <= i < j < |es| ==> es[i].token != es[j].token
  }

  lemma {:induction false} FilterMembers(es: seq<Entry>, keep: Entry -> bool)
    ensures forall e :: e in Filter(es, keep) <==> e in es && keep(e)
    ensures DistinctTokens(es) ==> DistinctTokens(Filter(es, keep))
  {
    if es != [] {
      var init := es[..|es| - 1];
      FilterMembers(init, keep);
      assert forall e :: e in es <==> e in init || e == es[|es| - 1];
      if DistinctTokens(es) {
        forall i | 0 <= i < |Filter(init, keep)| ensures Filter(init, keep)[i].token != es[|es| - 1].token {
          assert Filter(init, keep)[i] in init;
        }
      }
    }
  }

  lemma EarlierFirstIsPreorder()
    ensures TotalPreorder(EarlierFirst())
  {
  }

  /** Distinct tokens are a matter of which entries there are, not of their order. */
  lemma PermutedDistinct(a: seq<Entry>, b: seq<Entry>)
    requires multiset(a) == multiset(b) && DistinctTokens(a)
    ensures DistinctTokens(b)
  {
    forall i, j | 0 <= i < j < |b| ensures b[i].token != b[j].token {
      assert b[i] in multiset(a) && b[j] in multiset(a);
      if b[i].token == b[j].token {
        assert b[i] == b[j];
        assert multiset(b)[b[i]] >= 2 by {
          assert b == b[..j] + [b[j]] + b[j + 1..];
          assert b[i] in b[..j];
        }
        OnceInDistinct(a, b[i]);
      }
    }
  }

  lemma {:induction false} OnceInDistinct(a: seq<Entry>, e: Entry)
    requires DistinctTokens(a)
    ensures multiset(a)[e] <= 1
  {
    if a != [] {
      var n := |a| - 1;
      assert a == a[..n] + [a[n]];
      OnceInDistinct(a[..n], e);
      if a[n] == e {
        assert e !in a[..n];
      }
    }
  }

  /** The merged list is sorted by expiry, and has each token once when each side does. */
  lemma MergeKeepsOrder(stored: Option<Value>, incoming: Value, now: int)
    ensures Sorted(MergedEntries(stored, incoming, now), EarlierFirst())
    ensures DistinctTokens(EntriesOf(stored)) && DistinctTokens(EntriesOf(Some(incoming))) ==>
              DistinctTokens(MergedEntries(stored, incoming, now))
  {
    var written := EntriesOf(Some(incoming));
    var keep := (e: Entry) => e.token !in Tokens(written) && e.expiresAt > now;
    var kept := Filter(EntriesOf(stored), keep);
    EarlierFirstIsPreorder();
    SortSorted(kept + written, EarlierFirst());
    if DistinctTokens(EntriesOf(stored)) && DistinctTokens(written) {
      FilterMembers(EntriesOf(stored), keep);
      forall i, j | 0 <= i < |kept| && 0 <= j < |written| ensures kept[i].token != written[j].token {
        assert kept[i] in kept && written[j] in written;
      }
      SortMembers(kept + written, EarlierFirst());
      PermutedDistinct(kept + written, MergedEntries(stored, incoming, now));
    }
  }

  /** Exactly what is written, and what was stored under other tokens and has not expired. */
  lemma MergeMembers(stored: Option<Value>, incoming: Value, now: int, e: Entry)
    ensures var written := EntriesOf(Some(incoming));
            e in MergedEntries(stored, incoming, now) <==>
            e in written || (e in EntriesOf(stored) && e.token !in Tokens(written) && e.expiresAt > now)
  {
    var written := EntriesOf(Some(incoming));
    var keep := (e: Entry) => e.token !in Tokens(written) && e.expiresAt > now;
    var kept := Filter(EntriesOf(stored), keep);
    FilterMembers(EntriesOf(stored), keep);
    SortMembers(kept + written, EarlierFirst());
    assert e in kept + written <==> e in multiset(kept + written);
    assert e in MergedEntries(stored, incoming, now) <==> e in multiset(MergedEntries(stored, incoming, now));
  }

  /** The later of the clock and every expiry in the list. */
  function Horizon(es: seq<Entry>, now: int): (h: int)
    ensures h >= now && (forall e :: e in es ==> e.expiresAt <= h) && (h == now || exists e :: e in es && e.expiresAt == h)
  {
    if es == [] then now
    else
      var h := Horizon(es[..|es| - 1], now);
      var last := es[|es| - 1];
      assert forall e :: e in es <==> e in es[..|es| - 1] || e == last;
      Max(h, last.expiresAt)
  }

  /** In a list sorted by expiry the last entry is the latest. */
  lemma LastIsLatest(es: seq<Entry>, now: int)
    requires Sorted(es, EarlierFirst())
    ensures Horizon(es, now) == if es == [] then now else Max(now, es[|es| - 1].expiresAt)
  {
    if es != [] {
      var latest := es[|es| - 1];
      assert latest in es;
      forall e | e in es ensures e.expiresAt <= latest.expiresAt {
        var i :| 0 <= i < |es| && es[i] == e;
        assert i == |es| - 1 || EarlierFirst()(es[i], latest);
      }
    }
  }

  /** The stored index outlives every entry in it, by less than a second. */
  lemma TtlCoversEveryEntry(stored: Option<Value>, incoming: Value, now: int)
    ensures var end := now + MergeSessionIndex(stored, incoming, now).ttlSeconds * 1000;
            var h := Horizon(MergedEntries(stored, incoming, now), now);
            h <= end < h + 1000
  {
    MergeKeepsOrder(stored, incoming, now);
    LastIsLatest(MergedEntries(stored, incoming, now), now);
  }

  /**
   * Measured against the latest entry alone, "at or after it, by less than a second" holds exactly when
   * that entry has not been expired for a second already.
   */
  lemma TtlWithinASecondIff(stored: Option<Value>, incoming: Value, now: int)
    requires MergedEntries(stored, incoming, now) != []
    ensures var merged := MergedEntries(stored, incoming, now);
            var latest := merged[|merged| - 1].expiresAt;
            var end := now + MergeSessionIndex(stored, incoming, now).ttlSeconds * 1000;
            (latest <= end < latest + 1000) <==> now < latest + 1000
  {
  }

  /** The one who misses: an entry written a second after it expired is kept, with a time to live of zero. */
  lemma WrittenExpired(token: Token, now: int)
    ensures var merged := MergeSessionIndex(None, Stringify([Entry(token, now - 1000)]), now);
            && MergedEntries(None, Stringify([Entry(token, now - 1000)]), now) == [Entry(token, now - 1000)]
            && merged.ttlSeconds == 0 && now + merged.ttlSeconds * 1000 == (now - 1000) + 1000
  {
    var es := [Entry(token, now - 1000)];
    SomesOfStringify(es);
    var none: seq<Entry> := [];
    assert EntriesOf(None) == none && none + es == es;
    SortOne(es[0]);
  }

  lemma SortOne(e: Entry)
    ensures Sort([e], EarlierFirst()) == [e]
  {
    var none: seq<Entry> := [];
    assert [e][..0] == none && none + [e] == [e];
    assert Sort(none, EarlierFirst()) == none && Insert(none, e, EarlierFirst()) == [e];
  }
}
