/** What every expiring key-value store means: a map whose entries stop existing at their expiry. */
module KvSpec {
  import opened Prelude
  import opened SessionIndex

  type Key = string
  type Millis = int

  datatype Cell = Cell(value: Value, expiresAt: Option<Millis>)

  type Table = map<Key, Cell>

  datatype Operation =
    | Get(key: Key)
    | Set(key: Key, value: Value, ttlSeconds: Option<int>)
    | Delete(key: Key)
    | GetAndDelete(key: Key)
    | MergeIndex(key: Key, value: Value)
    | IncrementRateWindow(key: Key, windowSeconds: int)

  /** `Failed` is a rejected promise: a count that is not a number, or less than one. */
  datatype Reply =
    | Read(found: Option<Value>)
    | Written
    | Counted(count: int)
    | CountedFraction(fraction: NonWhole)
    | Failed

  predicate LiveAt(c: Cell, now: Millis) {
    c.expiresAt.None? || c.expiresAt.value > now
  }

  function Live(c: Option<Cell>, now: Millis): Option<Cell> {
    if c.Some? && LiveAt(c.value, now) then c else None
  }

  function ValueOf(c: Option<Cell>): Option<Value> {
    match c
    case Some(cell) => Some(cell.value)
    case None => None
  }

  function At(t: Table, k: Key): Option<Cell> {
    if k in t then Some(t[k]) else None
  }

  function After(now: Millis, ttlSeconds: int): Millis {
    now + ttlSeconds * 1000
  }

  /** Who reads a counter: JavaScript's `Number`, or Postgres' cast to `bigint`. */
  datatype Reader = ByNumber | ByBigint

  /** What a reader makes of a stored text; nothing when it refuses. */
  function ReadCount(reader: Reader, v: Value): Option<Count> {
    match v
    case Number(n) => Some(Whole(n))
    case Fraction(x) => if reader.ByNumber? then Some(Fractional(x)) else None
    case Text(_, asNumber, asBigint) =>
      if reader.ByNumber? then asNumber
      else if asBigint.Some? then Some(Whole(asBigint.value)) else None
    case _ => None
  }

  /** The count before an increment: zero when nothing is live, nothing when what is live is not a number. */
  function CountOf(reader: Reader, live: Option<Cell>): Option<Count> {
    match live
    case None => Some(Whole(0))
    case Some(cell) => ReadCount(reader, cell.value)
  }

  /** The same, when it is a whole number. */
  function WholeCountOf(live: Option<Cell>): Option<int> {
    match CountOf(ByNumber, live)
    case Some(Whole(n)) => Some(n)
    case _ => None
  }

  function NextCount(c: Count): Count {
    match c
    case Whole(n) => Whole(n + 1)
    case Fractional(x) => StaysFractional(x, x.Floor); Fractional(x + 1.0)
  }

  lemma StaysFractional(x: NonWhole, f: int)
    requires f as real < x < f as real + 1.0
    ensures (x + 1.0).Floor as real != x + 1.0
  {
    assert (f + 1) as real < x + 1.0 < (f + 2) as real;
  }

  /** How a count is written. */
  function TextOf(c: Count): Value {
    match c
    case Whole(n) => Number(n)
    case Fractional(x) => Fraction(x)
  }

  /** A count below one is a broken promise, though it has been written. */
  function ToRateWindowResult(c: Count): Reply {
    match c
    case Whole(n) => if n < 1 then Failed else Counted(n)
    case Fractional(x) => if x < 1.0 then Failed else CountedFraction(x)
  }

  function MergedCell(live: Option<Cell>, incoming: Value, now: Millis): Cell {
    var merged := MergeSessionIndex(ValueOf(live), incoming, now);
    Cell(merged.value, Some(After(now, merged.ttlSeconds)))
  }

  /** The cell under the operation's key afterwards, and the reply, from the live cell before. */
  function OnCellBy(reader: Reader, live: Option<Cell>, now: Millis, op: Operation): (Option<Cell>, Reply) {
    match op
    case Get(_) => (live, Read(ValueOf(live)))
    case Set(_, v, ttl) => (Some(Cell(v, if ttl.Some? then Some(After(now, ttl.value)) else None)), Written)
    case Delete(_) => (None, Written)
    case GetAndDelete(_) => (None, Read(ValueOf(live)))
    case MergeIndex(_, v) =>
      (Some(MergedCell(live, v, now)), Written)
    case IncrementRateWindow(_, window) =>
      match CountOf(reader, live)
      case None => (live, Failed)
      case Some(count) =>
        (Some(Cell(TextOf(NextCount(count)), Some(After(now, window)))), ToRateWindowResult(NextCount(count)))
  }

  /** The service's own stores read counters with `Number`. */
  function OnCell(live: Option<Cell>, now: Millis, op: Operation): (Option<Cell>, Reply) {
    OnCellBy(ByNumber, live, now, op)
  }

  function Put(t: Table, k: Key, c: Option<Cell>): Table {
    match c
    case Some(cell) => t[k := cell]
    case None => t - {k}
  }

  function ExecBy(reader: Reader, t: Table, now: Millis, op: Operation): (Table, Reply) {
    var (cell, reply) := OnCellBy(reader, Live(At(t, op.key), now), now, op);
    (Put(t, op.key, cell), reply)
  }

  function Exec(t: Table, now: Millis, op: Operation): (Table, Reply) {
    ExecBy(ByNumber, t, now, op)
  }

  // ----- runs -----

  /** A call at an instant, or the alarm of a key firing (which only the Durable Object notices). */
  datatype Event = Call(now: Millis, op: Operation) | Alarm(now: Millis, key: Key)

  predicate Clocked(es: seq<Event>) {
    forall i, j :: 0 <= i < j < |es| ==> es[i].now <= es[j].now
  }

  /** The store after some events, from empty, and the replies to the calls among them. */
  function SpecRun(reader: Reader, es: seq<Event>): (Table, seq<Reply>)
    decreases |es|
  {
    if es == [] then (map[], [])
    else
      var (t, replies) := SpecRun(reader, es[..|es| - 1]);
      match es[|es| - 1]
      case Alarm(_, _) => (t, replies)
      case Call(now, op) =>
        var (t', reply) := ExecBy(reader, t, now, op);
        (t', replies + [reply])
  }

  /** Two tables that no reader can tell apart from `now` on. */
  ghost predicate Alike(a: Table, b: Table, now: Millis) {
    forall k :: Live(At(a, k), now) == Live(At(b, k), now)
  }

  lemma AlikeThrough(a: Table, b: Table, c: Table, now: Millis)
    requires Alike(a, b, now) && Alike(b, c, now)
    ensures Alike(a, c, now)
  {
    forall k ensures Live(At(a, k), now) == Live(At(c, k), now) {
      assert Live(At(a, k), now) == Live(At(b, k), now);
    }
  }

  lemma AlikeLater(a: Table, b: Table, now: Millis, later: Millis)
    requires Alike(a, b, now) && now <= later
    ensures Alike(a, b, later)
  {
    forall k ensures Live(At(a, k), later) == Live(At(b, k), later) {
      assert Live(At(a, k), now) == Live(At(b, k), now);
    }
  }

  /** A store that wrote a cell alike to the specification's under one key, and nothing else, is still alike. */
  lemma AlikeAfterPut(a: Table, a': Table, b: Table, k: Key, c: Option<Cell>, now: Millis)
    requires Alike(a, b, now)
    requires Live(At(a', k), now) == Live(c, now)
    requires forall l :: l != k ==> Live(At(a', l), now) == Live(At(a, l), now)
    ensures Alike(a', Put(b, k, c), now)
  {
    forall l ensures Live(At(a', l), now) == Live(At(Put(b, k, c), l), now) {
      assert Live(At(a, l), now) == Live(At(b, l), now);
    }
  }

  // ----- the last write is what is read -----

  /** Other keys, reads and alarms leave what is stored under a key. */
  predicate Leaves(e: Event, k: Key) {
    e.Alarm? || e.op.key != k || e.op.Get?
  }

  /**
   * Whatever else happens, what a key was last set to is there until its time is over and not a moment
   * longer, and a key that was deleted, or taken, holds nothing.
   */
  lemma {:induction false} LastWriteIsRead(reader: Reader, es: seq<Event>, i: nat, now: Millis)
    requires Clocked(es + [Alarm(now, "")]) && i < |es| && es[i].Call? && (es[i].op.Set? || es[i].op.Delete? || es[i].op.GetAndDelete?)
    requires forall j :: i < j < |es| ==> Leaves(es[j], es[i].op.key)
    ensures var op := es[i].op;
            ValueOf(Live(At(SpecRun(reader, es).0, op.key), now)) ==
            if op.Set? && (op.ttlSeconds.None? || now < es[i].now + op.ttlSeconds.value * 1000) then Some(op.value) else None
    decreases |es|
  {
    var n := |es| - 1;
    var init, last := es[..n], es[n];
    var t := SpecRun(reader, init).0;
    assert (es + [Alarm(now, "")])[|es|].now == now && (es + [Alarm(now, "")])[n] == last;
    if i < n {
      assert forall j :: 0 <= j < |init + [Alarm(last.now, "")]| ==> (init + [Alarm(last.now, "")])[j].now == (es + [Alarm(now, "")])[j].now;
      LastWriteIsRead(reader, init, i, last.now);
      assert forall j :: 0 <= j < |init + [Alarm(now, "")]| - 1 ==> (init + [Alarm(now, "")])[j] == (es + [Alarm(now, "")])[j];
      LastWriteIsRead(reader, init, i, now);
    }
  }

  // ----- where the stores agree -----

  /** Both readers give the same whole number, or both refuse. */
  predicate ReadAlike(v: Value) {
    ReadCount(ByNumber, v) == ReadCount(ByBigint, v)
  }

  /** An increment that finds something live finds a text that both readers read alike. */
  predicate CountsAlike(t: Table, e: Event) {
    e.Call? && e.op.IncrementRateWindow? && Live(At(t, e.op.key), e.now).Some? ==> ReadAlike(Live(At(t, e.op.key), e.now).value.value)
  }

  /** Every increment of the run does. */
  ghost predicate AllCountsAlike(es: seq<Event>)
    decreases |es|
  {
    es != [] ==> AllCountsAlike(es[..|es| - 1]) && CountsAlike(SpecRun(ByNumber, es[..|es| - 1]).0, es[|es| - 1])
  }

  /** At every point of the run the stores have replied the same and hold the same. */
  ghost predicate InStep(es: seq<Event>)
    decreases |es|
  {
    SpecRun(ByNumber, es) == SpecRun(ByBigint, es) && (es != [] ==> InStep(es[..|es| - 1]))
  }

  /** An increment leads to the same cell and reply exactly when the text is read alike. */
  lemma SameCountIff(live: Option<Cell>, now: Millis, op: Operation)
    requires op.IncrementRateWindow?
    ensures OnCellBy(ByNumber, live, now, op) == OnCellBy(ByBigint, live, now, op) <==> (live.Some? ==> ReadAlike(live.value.value))
    ensures OnCellBy(ByNumber, live, now, op).0 == OnCellBy(ByBigint, live, now, op).0 <==> (live.Some? ==> ReadAlike(live.value.value))
  {
  }

  lemma SameStepIff(t: Table, e: Event)
    requires e.Call?
    ensures ExecBy(ByNumber, t, e.now, e.op) == ExecBy(ByBigint, t, e.now, e.op) <==> CountsAlike(t, e)
  {
    var live := Live(At(t, e.op.key), e.now);
    if e.op.IncrementRateWindow? {
      SameCountIff(live, e.now, e.op);
      PutIsSame(t, e.op.key, OnCellBy(ByNumber, live, e.now, e.op).0, OnCellBy(ByBigint, live, e.now, e.op).0);
    }
  }

  lemma PutIsSame(t: Table, k: Key, c: Option<Cell>, d: Option<Cell>)
    ensures Put(t, k, c) == Put(t, k, d) <==> c == d
  {
    assert At(Put(t, k, c), k) == c && At(Put(t, k, d), k) == d;
  }

  /**
   * The stores go through a run in step if and only if, at every increment of a live entry, both readers
   * give the same whole number or both refuse.
   */
  lemma {:induction false} StoresAgreeIff(es: seq<Event>)
    ensures InStep(es) <==> AllCountsAlike(es)
    decreases |es|
  {
    if es != [] {
      var init, last := es[..|es| - 1], es[|es| - 1];
      StoresAgreeIff(init);
      if InStep(init) && last.Call? {
        var (t, replies) := SpecRun(ByNumber, init);
        SameStepIff(t, last);
        assert (replies + [ExecBy(ByNumber, t, last.now, last.op).1])[|replies|] == ExecBy(ByNumber, t, last.now, last.op).1;
        assert (replies + [ExecBy(ByBigint, t, last.now, last.op).1])[|replies|] == ExecBy(ByBigint, t, last.now, last.op).1;
      }
    }
  }

  /** Reading differently shows: asked at once, the entry answers differently. */
  lemma DisagreementShows(t: Table, now: Millis, k: Key, windowSeconds: int)
    requires windowSeconds > 0 && !CountsAlike(t, Call(now, IncrementRateWindow(k, windowSeconds)))
    ensures var op := IncrementRateWindow(k, windowSeconds);
            ExecBy(ByNumber, ExecBy(ByNumber, t, now, op).0, now, Get(k)).1 != ExecBy(ByBigint, ExecBy(ByBigint, t, now, op).0, now, Get(k)).1
  {
    SameCountIff(Live(At(t, k), now), now, IncrementRateWindow(k, windowSeconds));
  }

  const ONE_AND_A_HALF := Text("1.5", Some(Fractional(1.5)), None)

  lemma SettingOneAndAHalf(reader: Reader, k: Key)
    ensures SpecRun(reader, [Call(0, Set(k, ONE_AND_A_HALF, None))]) == (map[k := Cell(ONE_AND_A_HALF, None)], [Written])
  {
    var es := [Call(0, Set(k, ONE_AND_A_HALF, None))];
    assert es[..|es| - 1] == [];
    assert SpecRun(reader, es[..|es| - 1]) == (map[], []);
    var none: seq<Reply> := [];
    assert none + [Written] == [Written];
    assert ExecBy(reader, map[], 0, es[0].op) == (map[k := Cell(ONE_AND_A_HALF, None)], Written);
  }

  /** `set(k, "1.5")`, then an increment: `Number` counts two and a half, `bigint` refuses. */
  lemma OneAndAHalf(k: Key)
    ensures var es := [Call(0, Set(k, ONE_AND_A_HALF, None)), Call(1, IncrementRateWindow(k, 60))];
            SpecRun(ByNumber, es).1 == [Written, CountedFraction(2.5)] && SpecRun(ByBigint, es).1 == [Written, Failed]
  {
    var es := [Call(0, Set(k, ONE_AND_A_HALF, None)), Call(1, IncrementRateWindow(k, 60))];
    SettingOneAndAHalf(ByNumber, k);
    SettingOneAndAHalf(ByBigint, k);
    assert es[..|es| - 1] == [Call(0, Set(k, ONE_AND_A_HALF, None))];
    assert At(map[k := Cell(ONE_AND_A_HALF, None)], k) == Some(Cell(ONE_AND_A_HALF, None));
  }
}
