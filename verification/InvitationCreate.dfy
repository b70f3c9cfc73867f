/**
 * Finding or inserting an invitation (src/invitation/create.ts) as the three calls it is: a lookup, a spend
 * on the company's counter for the hour, and a transaction, with anybody's transactions in between.
 */
module InvitationCreate {
  import opened Prelude
  import opened KvSpec
  import opened KvStores
  import opened AttemptBudget
  import opened OrgModel
  import opened OrgGuards
  import opened OrgTransactions
  import opened OrgRuns
  import opened OrgDatabase

  // ----- the counter's key -----

  function Digits(n: nat): string {
    if n < 10 then ['0' + n as char] else Digits(n / 10) + ['0' + (n % 10) as char]
  }

  function IntText(i: int): string {
    if i < 0 then ['-'] + Digits(-i) else Digits(i)
  }

  /** One counter for each company and hour. */
  function InvitationKey(c: CompanyId, hour: int): Key {
    "invitation_rate:" + (Digits(c) + [':'] + IntText(hour))
  }

  lemma {:induction false} DigitsOnly(n: nat)
    ensures Digits(n) != "" && ':' !in Digits(n) && '-' !in Digits(n)
  {
    if n >= 10 {
      DigitsOnly(n / 10);
    }
  }

  lemma {:induction false} DigitsApart(n: nat, m: nat)
    requires Digits(n) == Digits(m)
    ensures n == m
  {
    var a, b := Digits(n), Digits(m);
    assert a[|a| - 1] == '0' + (n % 10) as char && b[|b| - 1] == '0' + (m % 10) as char;
    assert n % 10 == m % 10;
    if n >= 10 && m >= 10 {
      assert a[..|a| - 1] == Digits(n / 10) && b[..|b| - 1] == Digits(m / 10);
      DigitsApart(n / 10, m / 10);
    } else {
      DigitsLonger(n);
      DigitsLonger(m);
    }
  }

  lemma DigitsLonger(n: nat)
    ensures |Digits(n)| == 1 <==> n < 10
  {
    if n >= 10 {
      DigitsOnly(n / 10);
    }
  }

  lemma MinusWhenNegative(i: int)
    ensures '-' in IntText(i) <==> i < 0
  {
    DigitsOnly(if i < 0 then -i else i);
  }

  lemma IntTextsApart(i: int, j: int)
    requires IntText(i) == IntText(j)
    ensures i == j
  {
    MinusWhenNegative(i);
    MinusWhenNegative(j);
    if i < 0 {
      assert IntText(i)[1..] == Digits(-i) && IntText(j)[1..] == Digits(-j);
      DigitsApart(-i, -j);
    } else {
      DigitsApart(i, j);
    }
  }

  /** Different companies and different hours are counted apart. */
  lemma InvitationKeysApart(c: CompanyId, hour: int, d: CompanyId, other: int)
    ensures InvitationKey(c, hour) == InvitationKey(d, other) <==> c == d && hour == other
  {
    if InvitationKey(c, hour) == InvitationKey(d, other) {
      assert InvitationKey(c, hour)[16..] == Digits(c) + [':'] + IntText(hour);
      assert InvitationKey(d, other)[16..] == Digits(d) + [':'] + IntText(other);
      DigitsOnly(c);
      DigitsOnly(d);
      PartsApart(Digits(c), IntText(hour), Digits(d), IntText(other));
      DigitsApart(c, d);
      IntTextsApart(hour, other);
    }
  }

  lemma PartsApart(a: string, x: string, b: string, y: string)
    requires a + [':'] + x == b + [':'] + y && ':' !in a && ':' !in b
    ensures a == b && x == y
  {
    var s := a + [':'] + x;
    assert s[|a|] == ':' && s[|b|] == ':';
    forall k | 0 <= k < |a| ensures s[k] != ':' {
      assert s[k] == a[k];
    }
    forall k | 0 <= k < |b| ensures s[k] != ':' {
      assert s[k] == b[k];
    }
    assert s[..|a|] == a && s[..|b|] == b && s[|a| + 1..] == x && s[|b| + 1..] == y;
  }

  // ----- the three calls -----

  /** What the spend comes to; uncountable attempts go through. */
  function SpentOn(entries: Table, limit: nat, key: Key, countedAt: Millis, reach: Reach): Spent {
    Judge(InvitationsPerHour(limit), reach, OnCell(Live(At(entries, key), countedAt), countedAt, IncrementRateWindow(key, INVITATION_WINDOW_SECONDS)).1)
  }

  /**
   * `askedAt`, `bucketAt` and `countedAt` are the readings of the clock at the lookup, when the hour is
   * chosen, and at the store. Others' transactions run between the lookup and the insertion.
   */
  method FindOrInsertInvitation(db: Database, store: MemoryKvStore, g: InviteGrant, id: InvitationId, limit: nat, askedAt: Time,
                                bucketAt: Millis, countedAt: Millis, reach: Reach, meanwhile: seq<Action>)
    returns (r: Result<InvitationId>, reused: bool, ghost others: seq<Action>)
    requires db.hooks == []
    modifies db, store
    ensures reused <==> exists i :: IsReusable(old(db.Snapshot()), g.company, g.email, askedAt, i)
    ensures reused ==>
              && db.State() == old(db.State()) && store.entries == old(store.entries)
              && r.Ok? && IsReusable(db.Snapshot(), g.company, g.email, askedAt, r.value)
    ensures !reused ==>
              var key := InvitationKey(g.company, HourBucket(bucketAt));
              var spent := SpentOn(old(store.entries), limit, key, countedAt, reach);
              && Live(At(store.entries, key), countedAt) == Live(AfterAttempt(InvitationsPerHour(limit), At(old(store.entries), key), countedAt, reach), countedAt)
              && Feasible(old(db.State()), others)
              && (r == Err(RateLimited) <==> spent.Exhausted?)
              && db.State() == if GoesThrough(InvitationsPerHour(limit), spent) then Step(Run(old(db.State()), others), Invite(g, id, askedAt))
                               else Run(old(db.State()), others)
    ensures !reused ==>
              var spent := SpentOn(old(store.entries), limit, InvitationKey(g.company, HourBucket(bucketAt)), countedAt, reach);
              (GoesThrough(InvitationsPerHour(limit), spent) <==> !spent.Exhausted?)
              && var now := Run(old(db.State()), others).db;
              r == if spent.Exhausted? then Err(RateLimited)
                   else if id in now.issued || g.company !in now.companies || g.actor !in now.users then Err(DbError)
                   else Ok(id)
  {
    others := [];
    var existing := db.FindActivePendingInvitation(g.company, g.email, askedAt);
    reused := existing.Some?;
    if reused {
      return Ok(existing.value), true, others;
    }
    var spent := Spend(store, InvitationsPerHour(limit), InvitationKey(g.company, HourBucket(bucketAt)), countedAt, reach);
    var done := db.ExecuteAll(meanwhile);
    others := done;
    if spent.Exhausted? {
      return Err(RateLimited), false, others;
    }
    var sent := db.InsertInvitationTx(g, id, askedAt);
    r := if sent.Ok? then Ok(id) else Err(sent.failure);
  }
}
