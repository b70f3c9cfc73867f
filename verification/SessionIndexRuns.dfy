/** The session index in the store, over whole runs: no live session is ever lost from it. */
module SessionIndexRuns {
  import opened Prelude
  import opened Sorting
  import opened SessionIndex
  import opened KvSpec

  /** What happens to one user's index key: the sign-in library writes a list, or deletes the key. */
  datatype Write = Merge(now: Millis, entries: seq<Entry>) | Drop(now: Millis)

  predicate Orderly(ws: seq<Write>) {
    forall i, j :: 0 <= i < j < |ws| ==> ws[i].now <= ws[j].now
  }

  ghost predicate EachDistinct(ws: seq<Write>) {
    forall i :: 0 <= i < |ws| && ws[i].Merge? ==> DistinctTokens(ws[i].entries)
  }

  /** The stored cell after some writes. */
  function Stored(ws: seq<Write>): Option<Cell> {
    if ws == [] then None
    else
      match ws[|ws| - 1]
      case Drop(_) => None
      case Merge(now, es) => Some(MergedCell(Live(Stored(ws[..|ws| - 1]), now), Stringify(es), now))
  }

  /** Last write wins, token by token; a dropped key forgets everything. */
  function LastWritten(ws: seq<Write>): map<Token, Millis> {
    if ws == [] then map[]
    else
      match ws[|ws| - 1]
      case Drop(_) => map[]
      case Merge(_, es) => LastWritten(ws[..|ws| - 1]) + AsMap(es)
  }

  function AsMap(es: seq<Entry>): map<Token, Millis> {
    if es == [] then map[] else AsMap(es[..|es| - 1])[es[|es| - 1].token := es[|es| - 1].expiresAt]
  }

  lemma {:induction false} AsMapMembers(es: seq<Entry>)
    requires DistinctTokens(es)
    ensures AsMap(es).Keys == Tokens(es)
    ensures forall e :: e in es <==> e.token in AsMap(es) && AsMap(es)[e.token] == e.expiresAt
  {
    if es != [] {
      var init, last := es[..|es| - 1], es[|es| - 1];
      AsMapMembers(init);
      assert forall e :: e in es <==> e in init || e == last;
      assert forall e :: e in init ==> e.token != last.token;
    }
  }

  /** What a reader finds in the index at an instant. */
  function Visible(c: Option<Cell>, now: Millis): seq<Entry> {
    EntriesOf(ValueOf(Live(c, now)))
  }

  /** The stored list is sorted and names each token once, and its cell outlives each of its entries. */
  ghost predicate WellStored(c: Option<Cell>) {
    c.Some? ==>
      && Sorted(EntriesOf(Some(c.value.value)), EarlierFirst())
      && DistinctTokens(EntriesOf(Some(c.value.value)))
      && c.value.expiresAt.Some?
      && forall e :: e in EntriesOf(Some(c.value.value)) ==> e.expiresAt <= c.value.expiresAt.value
  }

  /** At `now` and at every later instant, the unexpired visible entries are the unexpired written ones. */
  ghost predicate Complete(c: Option<Cell>, written: map<Token, Millis>, now: Millis) {
    forall later, e: Entry :: later >= now && e.expiresAt > later ==>
      (e in Visible(c, later) <==> e.token in written && written[e.token] == e.expiresAt)
  }

  lemma MergeWellStored(c: Option<Cell>, es: seq<Entry>, now: Millis)
    requires WellStored(c) && DistinctTokens(es)
    ensures WellStored(Some(MergedCell(Live(c, now), Stringify(es), now)))
  {
    var stored := ValueOf(Live(c, now));
    SomesOfStringify(es);
    SomesOfStringify(MergedEntries(stored, Stringify(es), now));
    MergeKeepsOrder(stored, Stringify(es), now);
    TtlCoversEveryEntry(stored, Stringify(es), now);
  }

  lemma MergeCompleteAt(c: Option<Cell>, written: map<Token, Millis>, es: seq<Entry>, now: Millis, later: Millis, e: Entry)
    requires DistinctTokens(es) && later >= now && e.expiresAt > later
    requires e in Visible(c, now) <==> e.token in written && written[e.token] == e.expiresAt
    ensures var stored := ValueOf(Live(c, now));
            e in MergedEntries(stored, Stringify(es), now) <==>
            e.token in written + AsMap(es) && (written + AsMap(es))[e.token] == e.expiresAt
  {
    MergeMembers(ValueOf(Live(c, now)), Stringify(es), now, e);
    SomesOfStringify(es);
    AsMapMembers(es);
  }

  lemma MergeVisible(c: Option<Cell>, es: seq<Entry>, now: Millis, later: Millis, e: Entry)
    requires later >= now && e.expiresAt > later
    ensures var stored := ValueOf(Live(c, now));
            e in Visible(Some(MergedCell(Live(c, now), Stringify(es), now)), later) <==> e in MergedEntries(stored, Stringify(es), now)
  {
    var stored := ValueOf(Live(c, now));
    SomesOfStringify(MergedEntries(stored, Stringify(es), now));
    TtlCoversEveryEntry(stored, Stringify(es), now);
  }

  lemma MergeComplete(c: Option<Cell>, written: map<Token, Millis>, es: seq<Entry>, now: Millis)
    requires DistinctTokens(es) && Complete(c, written, now)
    ensures Complete(Some(MergedCell(Live(c, now), Stringify(es), now)), written + AsMap(es), now)
  {
    var cell := MergedCell(Live(c, now), Stringify(es), now);
    forall later, e: Entry | later >= now && e.expiresAt > later
      ensures e in Visible(Some(cell), later) <==> e.token in written + AsMap(es) && (written + AsMap(es))[e.token] == e.expiresAt
    {
      MergeVisible(c, es, now, later, e);
      MergeCompleteAt(c, written, es, now, later, e);
    }
  }

  /**
   * The index loses no live session. After any orderly sequence of merges (each list naming a token
   * once) and deletions, and at any instant from the last of them on, the unexpired entries a reader
   * sees are exactly the unexpired entries of the last-write-wins map; and the stored list is sorted
   * and free of duplicates.
   */
  lemma {:induction false} NoLiveSessionLost(ws: seq<Write>, now: Millis)
    requires Orderly(ws) && EachDistinct(ws)
    requires ws != [] ==> ws[|ws| - 1].now <= now
    ensures WellStored(Stored(ws)) && Complete(Stored(ws), LastWritten(ws), now)
    decreases |ws|
  {
    if ws != [] {
      var init, last := ws[..|ws| - 1], ws[|ws| - 1];
      NoLiveSessionLost(init, last.now);
      if last.Merge? {
        MergeWellStored(Stored(init), last.entries, last.now);
        MergeComplete(Stored(init), LastWritten(init), last.entries, last.now);
      }
    }
  }

  /** The same index, as any of the stores sees it: writes to one key of a run of calls. */
  function AsCalls(k: Key, ws: seq<Write>): seq<Event> {
    seq(|ws|, i requires 0 <= i < |ws| =>
      Call(ws[i].now, if ws[i].Merge? then Operation.MergeIndex(k, Stringify(ws[i].entries)) else Delete(k)))
  }

  lemma ExecWrite(reader: Reader, t: Table, k: Key, w: Write)
    ensures At(ExecBy(reader, t, w.now, if w.Merge? then Operation.MergeIndex(k, Stringify(w.entries)) else Delete(k)).0, k) ==
            if w.Merge? then Some(MergedCell(Live(At(t, k), w.now), Stringify(w.entries), w.now)) else None
  {
  }

  lemma LastCall(reader: Reader, k: Key, ws: seq<Write>)
    requires ws != []
    ensures var n, w := |ws| - 1, ws[|ws| - 1];
            && AsCalls(k, ws)[..n] == AsCalls(k, ws[..n])
            && SpecRun(reader, AsCalls(k, ws)).0 ==
               ExecBy(reader, SpecRun(reader, AsCalls(k, ws[..n])).0, w.now,
                      if w.Merge? then Operation.MergeIndex(k, Stringify(w.entries)) else Delete(k)).0
  {
    assert AsCalls(k, ws)[..|ws| - 1] == AsCalls(k, ws[..|ws| - 1]);
  }

  lemma {:induction false} StoredInEveryStore(reader: Reader, k: Key, ws: seq<Write>)
    ensures At(SpecRun(reader, AsCalls(k, ws)).0, k) == Stored(ws)
    decreases |ws|
  {
    if ws != [] {
      var init := ws[..|ws| - 1];
      StoredInEveryStore(reader, k, init);
      LastCall(reader, k, ws);
      ExecWrite(reader, SpecRun(reader, AsCalls(k, init)).0, k, ws[|ws| - 1]);
    }
  }
}
