/**
 * The three stores behind the service, as the program writes them: the in-memory map with lazy
 * deletion, one Durable Object per key with an alarm, and the Postgres table. Each answers every
 * clocked sequence of calls exactly as the specification does.
 */
module KvStores {
  import opened Prelude
  import opened SessionIndex
  import opened KvSpec

  // ----- src/kv-store.memory.ts -----

  class MemoryKvStore {
    var entries: Table

    constructor ()
      ensures entries == map[]
    {
      entries := map[];
    }

    /** Looks an entry up, dropping it when it has expired. */
    method LiveEntry(k: Key, now: Millis) returns (r: Option<Cell>)
      modifies this
      ensures r == Live(At(old(entries), k), now)
      ensures entries == if r.None? then old(entries) - {k} else old(entries)
    {
      if k !in entries {
        return None;
      }
      var entry := entries[k];
      if entry.expiresAt.Some? && entry.expiresAt.value <= now {
        entries := entries - {k};
        return None;
      }
      return Some(entry);
    }

    method Get(k: Key, now: Millis) returns (r: Option<Value>)
      modifies this
      ensures r == ValueOf(Live(At(old(entries), k), now))
      ensures entries == if r.None? then old(entries) - {k} else old(entries)
    {
      var live := LiveEntry(k, now);
      return ValueOf(live);
    }

    method Set(k: Key, v: Value, ttlSeconds: Option<int>, now: Millis)
      modifies this
      ensures entries == old(entries)[k := Cell(v, if ttlSeconds.Some? then Some(After(now, ttlSeconds.value)) else None)]
    {
      var expiresAt := if ttlSeconds.None? then None else Some(now + ttlSeconds.value * 1000);
      entries := entries[k := Cell(v, expiresAt)];
    }

    method Delete(k: Key)
      modifies this
      ensures entries == old(entries) - {k}
    {
      entries := entries - {k};
    }

    method GetAndDelete(k: Key, now: Millis) returns (r: Option<Value>)
      modifies this
      ensures r == ValueOf(Live(At(old(entries), k), now)) && entries == old(entries) - {k}
    {
      r := Get(k, now);
      entries := entries - {k};
    }

    method MergeIndex(k: Key, v: Value, now: Millis)
      modifies this
      ensures entries == Put(old(entries), k, OnCell(Live(At(old(entries), k), now), now, Operation.MergeIndex(k, v)).0)
    {
      var stored := Get(k, now);
      var merged := MergeSessionIndex(stored, v, now);
      Set(k, merged.value, Some(merged.ttlSeconds), now);
    }

    /** `None` when the live value is not a number; nothing is written then. */
    method IncrementWindow(k: Key, windowSeconds: int, now: Millis) returns (r: Option<Count>)
      modifies this
      ensures r == var c := CountOf(ByNumber, Live(At(old(entries), k), now)); if c.None? then None else Some(NextCount(c.value))
      ensures r.None? ==> entries == old(entries)
      ensures r.Some? ==> entries == old(entries)[k := Cell(TextOf(r.value), Some(After(now, windowSeconds)))]
    {
      var live := LiveEntry(k, now);
      var c := CountOf(ByNumber, live);
      if c.None? {
        return None;
      }
      var count := NextCount(c.value);
      Set(k, TextOf(count), Some(windowSeconds), now);
      return Some(count);
    }

    /** The keys with a prefix that are live now. */
    method Keys(prefix: string, now: Millis) returns (r: set<Key>)
      modifies this
      ensures r == set k | k in old(entries) && prefix <= k && LiveAt(old(entries)[k], now)
      ensures forall k :: Live(At(entries, k), now) == Live(At(old(entries), k), now)
    {
      r := {};
      var rest := entries.Keys;
      ghost var seen: set<Key> := {};
      while rest != {}
        invariant seen + rest == old(entries.Keys)
        invariant r == set k | k in seen && prefix <= k && LiveAt(old(entries)[k], now)
        invariant forall k :: Live(At(entries, k), now) == Live(At(old(entries), k), now)
        decreases rest
      {
        var k :| k in rest;
        if prefix <= k {
          assert Live(At(entries, k), now) == Live(At(old(entries), k), now);
          var live := LiveEntry(k, now);
          if live.Some? {
            r := r + {k};
          }
        }
        seen, rest := seen + {k}, rest - {k};
      }
    }

    /** -2 without a live entry, -1 without an expiry, else the seconds left rounded up: never zero. */
    method Ttl(k: Key, now: Millis) returns (r: int)
      modifies this
      ensures match Live(At(old(entries), k), now)
              case None => r == -2
              case Some(cell) =>
                if cell.expiresAt.None? then r == -1
                else r >= 1 && After(now, r - 1) < cell.expiresAt.value <= After(now, r)
    {
      var live := LiveEntry(k, now);
      if live.None? {
        return -2;
      }
      if live.value.expiresAt.None? {
        return -1;
      }
      return CeilSeconds(live.value.expiresAt.value - now);
    }

    method Answer(now: Millis, op: Operation) returns (reply: Reply)
      modifies this
      ensures reply == OnCell(Live(At(old(entries), op.key), now), now, op).1
      ensures Live(At(entries, op.key), now) == Live(OnCell(Live(At(old(entries), op.key), now), now, op).0, now)
      ensures forall k :: k != op.key ==> At(entries, k) == At(old(entries), k)
    {
      match op
      case Get(k) =>
        var v := Get(k, now);
        return Read(v);
      case Set(k, v, ttl) =>
        Set(k, v, ttl, now);
        return Written;
      case Delete(k) =>
        Delete(k);
        return Written;
      case GetAndDelete(k) =>
        var v := GetAndDelete(k, now);
        return Read(v);
      case MergeIndex(k, v) =>
        MergeIndex(k, v, now);
        return Written;
      case IncrementRateWindow(k, window) =>
        var n := IncrementWindow(k, window, now);
        return if n.None? then Failed else ToRateWindowResult(n.value);
    }
  }

  method RunOnMemory(es: seq<Event>) returns (replies: seq<Reply>)
    requires Clocked(es)
    ensures replies == SpecRun(ByNumber, es).1
  {
    var store := new MemoryKvStore();
    replies := [];
    var i := 0;
    while i < |es|
      invariant 0 <= i <= |es| && fresh(store)
      invariant replies == SpecRun(ByNumber, es[..i]).1
      invariant i < |es| ==> Alike(store.entries, SpecRun(ByNumber, es[..i]).0, es[i].now)
    {
      assert es[..i + 1][..i] == es[..i];
      if es[i].Call? {
        ghost var before, spec := store.entries, SpecRun(ByNumber, es[..i]).0;
        var reply := store.Answer(es[i].now, es[i].op);
        assert Live(At(before, es[i].op.key), es[i].now) == Live(At(spec, es[i].op.key), es[i].now);
        AlikeAfterPut(before, store.entries, spec, es[i].op.key,
                      OnCell(Live(At(spec, es[i].op.key), es[i].now), es[i].now, es[i].op).0, es[i].now);
        replies := replies + [reply];
      }
      if i + 1 < |es| {
        AlikeLater(store.entries, SpecRun(ByNumber, es[..i + 1]).0, es[i].now, es[i + 1].now);
      }
      i := i + 1;
    }
    assert es[..|es|] == es;
  }

  // ----- db/testing/ttl-store.ts -----

  class PostgresTtlStore {
    var rows: Table

    /** Opening the store clears out what has expired in the table it finds. */
    constructor (table: Table, now: Millis)
      ensures rows == map k | k in table && LiveAt(table[k], now) :: table[k]
      ensures Alike(rows, table, now)
    {
      rows := map k | k in table && LiveAt(table[k], now) :: table[k];
    }

    /** INSERT ... ON CONFLICT (key) DO UPDATE. */
    method Upsert(k: Key, v: Value, ttlSeconds: Option<int>, now: Millis)
      modifies this
      ensures rows == old(rows)[k := Cell(v, if ttlSeconds.Some? then Some(After(now, ttlSeconds.value)) else None)]
    {
      rows := rows[k := Cell(v, if ttlSeconds.Some? then Some(now + ttlSeconds.value * 1000) else None)];
    }

    /** The row is made to exist (expired), locked and read. */
    method LockRow(k: Key, now: Millis) returns (stored: Option<Value>)
      modifies this
      ensures stored == ValueOf(Live(At(old(rows), k), now))
      ensures rows == if k in old(rows) then old(rows) else old(rows)[k := Cell(JsonArray([]), Some(now))]
    {
      if k !in rows {
        rows := rows[k := Cell(JsonArray([]), Some(now))];
      }
      var row := rows[k];
      return if row.expiresAt.None? || row.expiresAt.value > now then Some(row.value) else None;
    }

    /** And overwritten, in the same transaction. */
    method MergeIndex(k: Key, v: Value, now: Millis)
      modifies this
      ensures rows == old(rows)[k := MergedCell(Live(At(old(rows), k), now), v, now)]
    {
      var stored := LockRow(k, now);
      var merged := MergeSessionIndex(stored, v, now);
      rows := rows[k := Cell(merged.value, Some(After(now, merged.ttlSeconds)))];
    }

    /** One upsert; a live value that the cast refuses fails the statement. The count is checked after the write. */
    method IncrementRateWindow(k: Key, windowSeconds: int, now: Millis) returns (r: Reply)
      modifies this
      ensures r == OnCellBy(ByBigint, Live(At(old(rows), k), now), now, Operation.IncrementRateWindow(k, windowSeconds)).1
      ensures rows == match CountOf(ByBigint, Live(At(old(rows), k), now))
                      case None => old(rows)
                      case Some(c) => old(rows)[k := Cell(TextOf(NextCount(c)), Some(After(now, windowSeconds)))]
    {
      var count := 1;
      if k in rows && (rows[k].expiresAt.None? || rows[k].expiresAt.value > now) {
        var cast := ReadCount(ByBigint, rows[k].value);
        if cast.None? {
          return Failed;
        }
        count := cast.value.n + 1;
      }
      rows := rows[k := Cell(Number(count), Some(now + windowSeconds * 1000))];
      return if count < 1 then Failed else Counted(count);
    }

    method Answer(now: Millis, op: Operation) returns (reply: Reply)
      modifies this
      ensures reply == OnCellBy(ByBigint, Live(At(old(rows), op.key), now), now, op).1
      ensures Live(At(rows, op.key), now) == Live(OnCellBy(ByBigint, Live(At(old(rows), op.key), now), now, op).0, now)
      ensures forall k :: k != op.key ==> At(rows, k) == At(old(rows), k)
    {
      match op
      case Get(k) =>
        return Read(if k in rows && LiveAt(rows[k], now) then Some(rows[k].value) else None);
      case Set(k, v, ttl) =>
        Upsert(k, v, ttl, now);
        return Written;
      case Delete(k) =>
        rows := rows - {k};
        return Written;
      case GetAndDelete(k) =>
        var deleted := At(rows, k);
        rows := rows - {k};
        return Read(if deleted.Some? && LiveAt(deleted.value, now) then Some(deleted.value.value) else None);
      case MergeIndex(k, v) =>
        MergeIndex(k, v, now);
        return Written;
      case IncrementRateWindow(k, window) =>
        reply := IncrementRateWindow(k, window, now);
    }
  }

  method RunOnPostgres(es: seq<Event>) returns (replies: seq<Reply>)
    requires Clocked(es)
    ensures replies == SpecRun(ByBigint, es).1
  {
    var store := new PostgresTtlStore(map[], 0);
    replies := [];
    var i := 0;
    while i < |es|
      invariant 0 <= i <= |es| && fresh(store)
      invariant replies == SpecRun(ByBigint, es[..i]).1
      invariant i < |es| ==> Alike(store.rows, SpecRun(ByBigint, es[..i]).0, es[i].now)
    {
      assert es[..i + 1][..i] == es[..i];
      if es[i].Call? {
        ghost var before, spec := store.rows, SpecRun(ByBigint, es[..i]).0;
        var reply := store.Answer(es[i].now, es[i].op);
        assert Live(At(before, es[i].op.key), es[i].now) == Live(At(spec, es[i].op.key), es[i].now);
        AlikeAfterPut(before, store.rows, spec, es[i].op.key,
                      OnCellBy(ByBigint, Live(At(spec, es[i].op.key), es[i].now), es[i].now, es[i].op).0, es[i].now);
        replies := replies + [reply];
      }
      if i + 1 < |es| {
        AlikeLater(store.rows, SpecRun(ByBigint, es[..i + 1]).0, es[i].now, es[i + 1].now);
      }
      i := i + 1;
    }
    assert es[..|es|] == es;
  }

  // ----- src/kv-store.do.ts -----

  /** The Durable Object of one key: a stored entry and an alarm. */
  class KvStore {
    var entry: Option<Cell>
    var alarm: Option<Millis>

    /** An entry that expires has its alarm set at the expiry; nothing else has an alarm. */
    ghost predicate Valid()
      reads this
    {
      alarm == match entry case Some(cell) => cell.expiresAt case None => None
    }

    constructor ()
      ensures Valid() && entry == None
    {
      entry, alarm := None, None;
    }

    method Write(v: Value, expiresAt: Option<Millis>)
      modifies this
      ensures Valid() && entry == Some(Cell(v, expiresAt))
    {
      entry := Some(Cell(v, expiresAt));
      alarm := expiresAt;
    }

    /** Deleting all storage deletes the alarm with it (compatibility flag `delete_all_deletes_alarm`). */
    method Delete()
      modifies this
      ensures Valid() && entry == None
    {
      entry, alarm := None, None;
    }

    method GetAndDelete(now: Millis) returns (r: Option<Value>)
      requires Valid()
      modifies this
      ensures Valid() && r == ValueOf(Live(old(entry), now)) && Live(entry, now) == None
    {
      r := ValueOf(Live(entry, now));
      if r.Some? {
        Delete();
      }
    }

    method IncrementWindow(windowSeconds: int, now: Millis) returns (r: Option<Count>)
      requires Valid()
      modifies this
      ensures Valid()
      ensures r == var c := CountOf(ByNumber, Live(old(entry), now)); if c.None? then None else Some(NextCount(c.value))
      ensures entry == if r.None? then old(entry) else Some(Cell(TextOf(r.value), Some(After(now, windowSeconds))))
    {
      var c := CountOf(ByNumber, Live(entry, now));
      if c.None? {
        return None;
      }
      var count := NextCount(c.value);
      Write(TextOf(count), Some(now + windowSeconds * 1000));
      return Some(count);
    }

    method MergeIndex(v: Value, now: Millis)
      modifies this
      ensures Valid()
      ensures entry == Some(MergedCell(Live(old(entry), now), v, now))
    {
      var live := Live(entry, now);
      var merged := MergeSessionIndex(ValueOf(live), v, now);
      assert MergedCell(live, v, now) == Cell(merged.value, Some(now + merged.ttlSeconds * 1000));
      Write(merged.value, Some(now + merged.ttlSeconds * 1000));
    }

    /** The runtime clears the alarm and calls the handler, early, late, or spuriously. */
    method AlarmFires(now: Millis)
      requires Valid()
      modifies this
      ensures Valid() && Live(entry, now) == Live(old(entry), now)
      ensures entry == None || entry == old(entry)
    {
      alarm := None;
      if Live(entry, now).None? {
        Delete();
      } else if entry.value.expiresAt.Some? {
        alarm := entry.value.expiresAt;
      }
    }

    method Answer(now: Millis, op: Operation) returns (reply: Reply)
      requires Valid()
      modifies this
      ensures Valid()
      ensures reply == OnCell(Live(old(entry), now), now, op).1
      ensures Live(entry, now) == Live(OnCell(Live(old(entry), now), now, op).0, now)
    {
      match op
      case Get(_) =>
        return Read(ValueOf(Live(entry, now)));
      case Set(_, v, ttl) =>
        Write(v, if ttl.None? then None else Some(now + ttl.value * 1000));
        return Written;
      case Delete(_) =>
        Delete();
        return Written;
      case GetAndDelete(_) =>
        var v := GetAndDelete(now);
        return Read(v);
      case MergeIndex(_, v) =>
        MergeIndex(v, now);
        return Written;
      case IncrementRateWindow(_, window) =>
        var n := IncrementWindow(window, now);
        return if n.None? then Failed else ToRateWindowResult(n.value);
    }
  }

  /** The namespace that hands out one Durable Object per key. */
  class KvStoreNamespace {
    var stubs: map<Key, KvStore>

    ghost predicate Valid()
      reads this, stubs.Values
    {
      && (forall k :: k in stubs ==> stubs[k] in stubs.Values && stubs[k].Valid())
      && (forall k, l :: k in stubs && l in stubs && k != l ==> stubs[k] != stubs[l])
    }

    /** What the objects hold, as one table. */
    ghost function Holds(k: Key): Option<Cell>
      reads this, stubs.Values
    {
      if k in stubs then (assert stubs[k] in stubs.Values; stubs[k].entry) else None
    }

    /** The same, as a table. */
    ghost function View(): (t: Table)
      requires Valid()
      reads this, stubs.Values
      ensures forall k :: At(t, k) == Holds(k)
    {
      map k | k in stubs && Holds(k).Some? :: Holds(k).value
    }

    constructor ()
      ensures Valid() && stubs == map[]
    {
      stubs := map[];
    }

    method GetByName(k: Key) returns (stub: KvStore)
      requires Valid()
      modifies this
      ensures Valid() && k in stubs && stub == stubs[k]
      ensures fresh(stubs.Values - old(stubs.Values))
      ensures forall l :: Holds(l) == old(Holds(l))
    {
      if k !in stubs {
        stub := new KvStore();
        stubs := stubs[k := stub];
      } else {
        stub := stubs[k];
      }
    }

    method Answer(now: Millis, op: Operation) returns (reply: Reply)
      requires Valid()
      modifies this, stubs.Values
      ensures Valid() && fresh(stubs.Values - old(stubs.Values))
      ensures reply == OnCell(Live(old(Holds(op.key)), now), now, op).1
      ensures Live(Holds(op.key), now) == Live(OnCell(Live(old(Holds(op.key)), now), now, op).0, now)
      ensures forall k :: k != op.key ==> Holds(k) == old(Holds(k))
    {
      var stub := GetByName(op.key);
      label named:
      assert stub.entry == old(Holds(op.key)) by {
        assert Holds(op.key) == stub.entry;
      }
      assert forall k :: k in stubs && k != op.key ==> stubs[k] != stub;
      reply := stub.Answer(now, op);
      forall k | k != op.key ensures Holds(k) == old(Holds(k)) {
        assert old@named(Holds(k)) == old(Holds(k));
      }
      assert Holds(op.key) == stub.entry;
    }

    method FireAlarm(k: Key, now: Millis)
      requires Valid()
      modifies this, stubs.Values
      ensures Valid() && fresh(stubs.Values - old(stubs.Values))
      ensures forall l :: Live(Holds(l), now) == Live(old(Holds(l)), now)
    {
      var stub := GetByName(k);
      label named:
      assert stub.entry == old(Holds(k)) by {
        assert Holds(k) == stub.entry;
      }
      assert forall l :: l in stubs && l != k ==> stubs[l] != stub;
      stub.AlarmFires(now);
      forall l ensures Live(Holds(l), now) == Live(old(Holds(l)), now) {
        assert old@named(Holds(l)) == old(Holds(l));
        assert l != k ==> Holds(l) == old@named(Holds(l));
      }
    }
  }

  /**
   * Calls go to the object of their key; alarms fire whenever the runtime pleases. Every entry that
   * expires always has its alarm set (Valid), and no answer depends on when an alarm fired.
   */
  method RunOnDurableObjects(es: seq<Event>) returns (replies: seq<Reply>)
    requires Clocked(es)
    ensures replies == SpecRun(ByNumber, es).1
  {
    var ns := new KvStoreNamespace();
    replies := [];
    var i := 0;
    while i < |es|
      invariant 0 <= i <= |es| && fresh(ns) && fresh(ns.stubs.Values) && ns.Valid()
      invariant replies == SpecRun(ByNumber, es[..i]).1
      invariant i < |es| ==> Alike(ns.View(), SpecRun(ByNumber, es[..i]).0, es[i].now)
    {
      assert es[..i + 1][..i] == es[..i];
      ghost var before, spec, now := ns.View(), SpecRun(ByNumber, es[..i]).0, es[i].now;
      if es[i].Call? {
        assert Live(At(before, es[i].op.key), now) == Live(At(spec, es[i].op.key), now);
        var reply := ns.Answer(es[i].now, es[i].op);
        AlikeAfterPut(before, ns.View(), spec, es[i].op.key, OnCell(Live(At(spec, es[i].op.key), now), now, es[i].op).0, now);
        replies := replies + [reply];
      } else {
        ns.FireAlarm(es[i].key, es[i].now);
        assert Alike(ns.View(), before, now);
        AlikeThrough(ns.View(), before, spec, now);
      }
      if i + 1 < |es| {
        AlikeLater(ns.View(), SpecRun(ByNumber, es[..i + 1]).0, now, es[i + 1].now);
      }
      i := i + 1;
    }
    assert es[..|es|] == es;
  }
}
