/** Attempt budgets (src/attempt-budget.ts): a counter whose window slides with every attempt. */
module AttemptBudget {
  import opened Prelude
  import opened SessionIndex
  import opened KvSpec
  import opened KvStores

  /** Whether an attempt that could not be counted goes through. */
  datatype WhenUncountable = Allow | Deny

  datatype Budget = Budget(windowSeconds: int, maxAttempts: int, whenUncountable: WhenUncountable)

  const MFA_DISABLE_PER_USER := Budget(15 * 60, 5, Deny)
  const MFA_LOGIN_CHALLENGE := Budget(600, 5, Deny)
  const INVITATION_WINDOW_SECONDS := 60 * 60

  datatype Spent = Admitted(attemptsLeft: int) | Exhausted | Unavailable

  /** How a call to the store can go: it works, it works but the reply is lost, or it never arrives. */
  datatype Reach = Works | ReplyLost | NeverArrives

  /** Of a fractional count only whether anything is left is ever asked: what is left is rounded up. */
  function Judge(b: Budget, reach: Reach, reply: Reply): Spent {
    if !reach.Works? then Unavailable
    else
      match reply
      case Counted(count) => if count > b.maxAttempts then Exhausted else Admitted(b.maxAttempts - count)
      case CountedFraction(x) => if x > b.maxAttempts as real then Exhausted else Admitted(b.maxAttempts - x.Floor)
      case _ => Unavailable
  }

  /** Fail-closed lets only admitted attempts through; fail-open lets the uncountable ones through as well. */
  predicate GoesThrough(b: Budget, spent: Spent) {
    spent.Admitted? || (spent.Unavailable? && b.whenUncountable.Allow?)
  }

  method Spend(store: MemoryKvStore, b: Budget, k: Key, now: Millis, reach: Reach) returns (spent: Spent)
    modifies store
    ensures spent == Judge(b, reach, OnCell(Live(At(old(store.entries), k), now), now, IncrementRateWindow(k, b.windowSeconds)).1)
    ensures Live(At(store.entries, k), now) == Live(AfterAttempt(b, At(old(store.entries), k), now, reach), now)
    ensures forall l :: l != k ==> At(store.entries, l) == At(old(store.entries), l)
  {
    if reach.NeverArrives? {
      return Unavailable;
    }
    var counted := store.IncrementWindow(k, b.windowSeconds, now);
    if reach.ReplyLost? || counted.None? {
      return Unavailable;
    }
    match ToRateWindowResult(counted.value) {
      case Counted(count) =>
        return if count > b.maxAttempts then Exhausted else Admitted(b.maxAttempts - count);
      case CountedFraction(x) =>
        return if x > b.maxAttempts as real then Exhausted else Admitted(b.maxAttempts - x.Floor);
      case _ =>
        return Unavailable;
    }
  }

  /**
   * An attempt below the limit is admitted, with what is left, and one at the limit is not. Counted or not,
   * an attempt that arrives is one more in a window of its own.
   */
  lemma SpendDecides(b: Budget, k: Key, c: Option<Cell>, now: Millis, reach: Reach, n: nat)
    requires (Live(c, now) == None && n == 0) || (Live(c, now).Some? && Live(c, now).value.value == Number(n))
    ensures Judge(b, reach, OnCell(Live(c, now), now, IncrementRateWindow(k, b.windowSeconds)).1) ==
            if reach != Works then Unavailable else if n < b.maxAttempts then Admitted(b.maxAttempts - n - 1) else Exhausted
    ensures AfterAttempt(b, c, now, reach) ==
            if reach == NeverArrives then c else Some(Cell(Number(n + 1), Some(now + b.windowSeconds * 1000)))
  {
  }

  /** The counter's cell after one attempt. */
  function AfterAttempt(b: Budget, c: Option<Cell>, now: Millis, reach: Reach): Option<Cell> {
    if reach.NeverArrives? then c else OnCell(Live(c, now), now, IncrementRateWindow("", b.windowSeconds)).0
  }

  // ----- traces of one counter -----

  datatype Act = Attempt(now: Millis, reach: Reach) | Reset(now: Millis, applied: bool)

  predicate Orderly(trace: seq<Act>) {
    forall i, j :: 0 <= i < j < |trace| ==> trace[i].now <= trace[j].now
  }

  function Next(b: Budget, c: Option<Cell>, a: Act): Option<Cell> {
    match a
    case Attempt(now, reach) => AfterAttempt(b, c, now, reach)
    case Reset(_, applied) => if applied then None else c
  }

  function CellAfter(b: Budget, c: Option<Cell>, trace: seq<Act>): Option<Cell>
    decreases |trace|
  {
    if trace == [] then c else CellAfter(b, Next(b, c, trace[0]), trace[1..])
  }

  predicate IsAdmitted(b: Budget, c: Option<Cell>, a: Act) {
    a.Attempt? && Judge(b, a.reach, OnCell(Live(c, a.now), a.now, IncrementRateWindow("", b.windowSeconds)).1).Admitted?
  }

  function AdmittedIn(b: Budget, c: Option<Cell>, trace: seq<Act>): nat
    decreases |trace|
  {
    if trace == [] then 0
    else (if IsAdmitted(b, c, trace[0]) then 1 else 0) + AdmittedIn(b, Next(b, c, trace[0]), trace[1..])
  }

  function ResetsIn(trace: seq<Act>): nat {
    if trace == [] then 0 else (if trace[0].Reset? && trace[0].applied then 1 else 0) + ResetsIn(trace[1..])
  }

  /** The number of windows of length `w` it takes to cover a length of time. */
  function Windows(w: int, length: int): nat
    requires w > 0
    decreases Max(0, length)
  {
    if length <= 0 then 0 else 1 + Windows(w, length - w)
  }

  lemma {:induction false} WindowsGrow(w: int, x: int, y: int)
    requires w > 0 && x <= y
    ensures Windows(w, x) <= Windows(w, y)
    decreases Max(0, y)
  {
    if x > 0 {
      WindowsGrow(w, x - w, y - w);
    }
  }

  /** The least number of windows that covers the length: the ceiling of length over window. */
  lemma {:induction false} WindowsCover(w: int, length: nat)
    requires w > 0
    ensures w * (Windows(w, length) - 1) < length || length == 0
    ensures length <= w * Windows(w, length)
    decreases length
  {
    if length > w {
      WindowsCover(w, length - w);
      assert w * Windows(w, length) == w * Windows(w, length - w) + w;
      assert w * (Windows(w, length) - 1) == w * (Windows(w, length - w) - 1) + w;
    } else if length > 0 {
      assert Windows(w, length - w) == 0;
    }
  }

  function Window(b: Budget): int {
    b.windowSeconds * 1000
  }

  /** A counter as its own writes leave it: a positive count that expires at most a window from now. */
  ghost predicate IsCounter(b: Budget, c: Option<Cell>, now: Millis) {
    c.Some? ==>
      && c.value.value.Number? && c.value.value.n >= 1
      && c.value.expiresAt.Some? && c.value.expiresAt.value <= now + Window(b)
  }

  /** When the count starts over if no attempt is counted any more. */
  function StartsOver(c: Option<Cell>, now: Millis): Millis {
    if c.Some? && c.value.expiresAt.Some? then Max(now, c.value.expiresAt.value) else now
  }

  /** What the current window can still admit. */
  function Room(b: Budget, c: Option<Cell>, now: Millis): nat {
    if Live(c, now).None? || !c.value.value.Number? then 0 else Max(0, b.maxAttempts - c.value.value.n)
  }

  /** What a counter can still admit before `end`, whatever happens but for so many resets. */
  function Potential(b: Budget, c: Option<Cell>, now: Millis, end: Millis, resets: nat): nat
    requires b.windowSeconds > 0 && b.maxAttempts >= 0
  {
    Room(b, c, now) + b.maxAttempts * (Windows(Window(b), end - StartsOver(c, now)) + resets)
  }

  lemma NextIsCounter(b: Budget, c: Option<Cell>, a: Act, start: Millis)
    requires b.windowSeconds > 0 && IsCounter(b, c, start) && start <= a.now
    ensures IsCounter(b, Next(b, c, a), a.now)
  {
  }

  lemma {:induction false} CounterKept(b: Budget, c: Option<Cell>, trace: seq<Act>, start: Millis, end: Millis)
    requires b.windowSeconds > 0 && IsCounter(b, c, start) && Orderly(trace)
    requires start <= end && forall i :: 0 <= i < |trace| ==> start <= trace[i].now <= end
    ensures IsCounter(b, CellAfter(b, c, trace), end)
    decreases |trace|
  {
    if trace != [] {
      NextIsCounter(b, c, trace[0], start);
      CounterKept(b, Next(b, c, trace[0]), trace[1..], trace[0].now, end);
    }
  }

  lemma Scale(n: nat, x: nat, y: nat)
    requires x <= y
    ensures n * x <= n * y
  {
  }

  lemma Pay(n: nat, gain: nat, x: nat, y: nat)
    requires gain <= n && x + 1 <= y
    ensures gain + n * x <= n * y
  {
    Scale(n, x + 1, y);
    assert n * (x + 1) == n * x + n;
  }

  /** An admitted attempt and what its window still has room for afterwards are within the limit. */
  lemma AdmittedAndRoom(b: Budget, c: Option<Cell>, a: Act, start: Millis)
    requires b.windowSeconds > 0 && b.maxAttempts >= 0 && IsCounter(b, c, start) && start <= a.now
    requires a.Attempt? && !a.reach.NeverArrives?
    ensures StartsOver(Next(b, c, a), a.now) == a.now + Window(b)
    ensures (if IsAdmitted(b, c, a) then 1 else 0) + Room(b, Next(b, c, a), a.now) <=
            if Live(c, a.now).Some? then Room(b, c, start) else b.maxAttempts
    ensures (if IsAdmitted(b, c, a) then 1 else 0) + Room(b, Next(b, c, a), a.now) <= b.maxAttempts
  {
  }

  /** One act costs what it admits out of the potential, and a reset brings in one limit. */
  lemma ActCosts(b: Budget, c: Option<Cell>, a: Act, start: Millis, end: Millis, resets: nat)
    requires b.windowSeconds > 0 && b.maxAttempts >= 0 && IsCounter(b, c, start) && start <= a.now < end
    ensures (if IsAdmitted(b, c, a) then 1 else 0) + Potential(b, Next(b, c, a), a.now, end, resets) <=
            Potential(b, c, start, end, resets + (if a.Reset? && a.applied then 1 else 0))
  {
    if a.Reset? && a.applied {
      ResetCosts(b, c, start, a.now, end, resets);
    } else if a.Attempt? && !a.reach.NeverArrives? {
      AttemptCosts(b, c, a, start, end, resets);
    } else {
      WaitCosts(b, c, start, a.now, end, resets);
    }
  }

  lemma WaitCosts(b: Budget, c: Option<Cell>, start: Millis, now: Millis, end: Millis, resets: nat)
    requires b.windowSeconds > 0 && b.maxAttempts >= 0 && IsCounter(b, c, start) && start <= now < end
    ensures Potential(b, c, now, end, resets) <= Potential(b, c, start, end, resets)
  {
    var w := Window(b);
    WindowsGrow(w, end - StartsOver(c, now), end - StartsOver(c, start));
    Scale(b.maxAttempts, Windows(w, end - StartsOver(c, now)) + resets, Windows(w, end - StartsOver(c, start)) + resets);
  }

  lemma ResetCosts(b: Budget, c: Option<Cell>, start: Millis, now: Millis, end: Millis, resets: nat)
    requires b.windowSeconds > 0 && b.maxAttempts >= 0 && IsCounter(b, c, start) && start <= now < end
    ensures Potential(b, None, now, end, resets) <= Potential(b, c, start, end, resets + 1)
  {
    var w := Window(b);
    WindowsGrow(w, end - now - w, end - StartsOver(c, start));
    Scale(b.maxAttempts, Windows(w, end - now) + resets, Windows(w, end - StartsOver(c, start)) + (resets + 1));
  }

  lemma AttemptCosts(b: Budget, c: Option<Cell>, a: Act, start: Millis, end: Millis, resets: nat)
    requires b.windowSeconds > 0 && b.maxAttempts >= 0 && IsCounter(b, c, start) && start <= a.now < end
    requires a.Attempt? && !a.reach.NeverArrives?
    ensures (if IsAdmitted(b, c, a) then 1 else 0) + Potential(b, Next(b, c, a), a.now, end, resets) <=
            Potential(b, c, start, end, resets)
  {
    var n, w := b.maxAttempts, Window(b);
    var before, after := Windows(w, end - StartsOver(c, start)), Windows(w, end - a.now - w);
    AdmittedAndRoom(b, c, a, start);
    if Live(c, a.now).Some? {
      WindowsGrow(w, end - a.now - w, end - StartsOver(c, start));
      Scale(n, after + resets, before + resets);
    } else {
      WindowsGrow(w, end - a.now, end - StartsOver(c, start));
      Pay(n, (if IsAdmitted(b, c, a) then 1 else 0) + Room(b, Next(b, c, a), a.now), after + resets, before + resets);
    }
  }

  lemma {:induction false} AdmittedBound(b: Budget, c: Option<Cell>, trace: seq<Act>, start: Millis, end: Millis)
    requires b.windowSeconds > 0 && b.maxAttempts >= 0 && IsCounter(b, c, start) && Orderly(trace)
    requires forall i :: 0 <= i < |trace| ==> start <= trace[i].now < end
    ensures AdmittedIn(b, c, trace) <= Potential(b, c, start, end, ResetsIn(trace))
    decreases |trace|
  {
    if trace != [] {
      var a, rest := trace[0], trace[1..];
      NextIsCounter(b, c, a, start);
      AdmittedBound(b, Next(b, c, a), rest, a.now, end);
      ActCosts(b, c, a, start, end, ResetsIn(rest));
    }
  }

  /** The first attempt that reaches the counter places its window inside the stretch. */
  lemma FirstAttemptCosts(b: Budget, c: Option<Cell>, gain: nat, now: Millis, from: Millis, length: nat, resets: nat)
    requires b.windowSeconds > 0 && b.maxAttempts >= 0 && from <= now < from + length
    requires gain + Room(b, c, now) <= b.maxAttempts && StartsOver(c, now) == now + Window(b)
    ensures gain + Potential(b, c, now, from + length, resets) <= b.maxAttempts * (Windows(Window(b), length) + resets)
  {
    var w, left := Window(b), from + length - now;
    WindowsGrow(w, left, length);
    assert Windows(w, left) == 1 + Windows(w, left - w);
    Pay(b.maxAttempts, gain + Room(b, c, now), Windows(w, left - w) + resets, Windows(w, length) + resets);
  }

  /** A stretch that begins with an act that reaches the counter. */
  lemma StretchFromFirst(b: Budget, c: Option<Cell>, a: Act, rest: seq<Act>, from: Millis, length: nat)
    requires b.windowSeconds > 0 && b.maxAttempts >= 0 && IsCounter(b, c, from) && Orderly(rest)
    requires from <= a.now < from + length && forall i :: 0 <= i < |rest| ==> a.now <= rest[i].now < from + length
    requires a.Attempt? && !a.reach.NeverArrives?
    ensures (if IsAdmitted(b, c, a) then 1 else 0) + AdmittedIn(b, Next(b, c, a), rest) <=
            b.maxAttempts * (Windows(Window(b), length) + ResetsIn(rest))
  {
    NextIsCounter(b, c, a, from);
    AdmittedAndRoom(b, c, a, from);
    AdmittedBound(b, Next(b, c, a), rest, a.now, from + length);
    FirstAttemptCosts(b, Next(b, c, a), if IsAdmitted(b, c, a) then 1 else 0, a.now, from, length, ResetsIn(rest));
  }

  lemma StretchFromReset(b: Budget, now: Millis, rest: seq<Act>, from: Millis, length: nat)
    requires b.windowSeconds > 0 && b.maxAttempts >= 0 && Orderly(rest)
    requires from <= now < from + length && forall i :: 0 <= i < |rest| ==> now <= rest[i].now < from + length
    ensures AdmittedIn(b, None, rest) <= b.maxAttempts * (Windows(Window(b), length) + (ResetsIn(rest) + 1))
  {
    AdmittedBound(b, None, rest, now, from + length);
    ResetCosts(b, None, from, now, from + length, ResetsIn(rest));
  }

  lemma {:induction false} StretchBound(b: Budget, c: Option<Cell>, stretch: seq<Act>, from: Millis, length: nat)
    requires b.windowSeconds > 0 && b.maxAttempts >= 0 && IsCounter(b, c, from) && Orderly(stretch)
    requires forall i :: 0 <= i < |stretch| ==> from <= stretch[i].now < from + length
    ensures AdmittedIn(b, c, stretch) <= b.maxAttempts * (Windows(Window(b), length) + ResetsIn(stretch))
    decreases |stretch|
  {
    if stretch != [] {
      var a, rest := stretch[0], stretch[1..];
      if a.Reset? && a.applied {
        StretchFromReset(b, a.now, rest, from, length);
      } else if a.Attempt? && !a.reach.NeverArrives? {
        StretchFromFirst(b, c, a, rest, from, length);
      } else {
        StretchBound(b, c, rest, from, length);
      }
    }
  }

  /**
   * The rate bound. Over any half-open stretch of time of the given length, after whatever came before,
   * and with replies lost and calls that never arrive, a counter admits at most the limit for every
   * window it takes to cover the stretch (WindowsCover), plus the limit for every reset that took effect in it.
   */
  lemma RateBound(b: Budget, past: seq<Act>, stretch: seq<Act>, from: Millis, length: nat)
    requires b.windowSeconds > 0 && b.maxAttempts >= 0 && Orderly(past + stretch)
    requires forall i :: 0 <= i < |past| ==> past[i].now <= from
    requires forall i :: 0 <= i < |stretch| ==> from <= stretch[i].now < from + length
    ensures AdmittedIn(b, CellAfter(b, None, past), stretch) <=
            b.maxAttempts * (Windows(Window(b), length) + ResetsIn(stretch))
  {
    assert Orderly(past) && Orderly(stretch) by {
      assert forall i :: 0 <= i < |past| ==> (past + stretch)[i] == past[i];
      assert forall i :: 0 <= i < |stretch| ==> (past + stretch)[|past| + i] == stretch[i];
    }
    CounterKept(b, None, past, if past == [] then from else past[0].now, from);
    StretchBound(b, CellAfter(b, None, past), stretch, from, length);
  }

  // ----- src/invitation/attempt-budget.ts -----

  const HOUR: int := 60 * 60 * 1000

  /** The budget of one company in one UTC hour; the limit is configurable. */
  function InvitationsPerHour(limit: nat): Budget {
    Budget(INVITATION_WINDOW_SECONDS, limit, Allow)
  }

  /** The bucket an invitation is counted in, from the clock at the time it is asked for. */
  function HourBucket(now: Millis): int {
    now / HOUR
  }

  /** A counter written in its own hour is still there when the hour ends. */
  lemma OutlivesItsHour(limit: nat, c: Option<Cell>, a: Act, later: Millis)
    requires a.Attempt? && !a.reach.NeverArrives? && IsCounter(InvitationsPerHour(limit), c, a.now)
    requires a.now <= later && HourBucket(later) == HourBucket(a.now)
    ensures Live(Next(InvitationsPerHour(limit), c, a), later).Some?
  {
    var counted := Next(InvitationsPerHour(limit), c, a);
    assert counted.value.expiresAt == Some(a.now + HOUR);
  }

  /** Every attempt that arrives does so less than an hour after the one that arrived before it. */
  predicate Unbroken(last: Option<Millis>, trace: seq<Act>)
    decreases |trace|
  {
    trace == [] ||
    var a, rest := trace[0], trace[1..];
    if !Arrives(a) then Unbroken(last, rest)
    else (last.Some? ==> a.now < last.value + HOUR) && Unbroken(Some(a.now), rest)
  }

  predicate Arrives(a: Act) {
    a.Attempt? && !a.reach.NeverArrives?
  }

  /** Counted within the limit, whether or not the answer came back. */
  predicate IsCountedWithin(b: Budget, c: Option<Cell>, a: Act) {
    Arrives(a) && IsAdmitted(b, c, Attempt(a.now, Works))
  }

  function CountedIn(b: Budget, c: Option<Cell>, trace: seq<Act>): nat
    decreases |trace|
  {
    if trace == [] then 0
    else (if IsCountedWithin(b, c, trace[0]) then 1 else 0) + CountedIn(b, Next(b, c, trace[0]), trace[1..])
  }

  lemma {:induction false} AdmittedAreCounted(b: Budget, c: Option<Cell>, trace: seq<Act>)
    ensures AdmittedIn(b, c, trace) <= CountedIn(b, c, trace)
    decreases |trace|
  {
    if trace != [] {
      AdmittedAreCounted(b, Next(b, c, trace[0]), trace[1..]);
    }
  }

  /** The counter as an attempt at `last` left it. */
  function CounterAt(n: int, last: Millis): Option<Cell> {
    Some(Cell(Number(n), Some(last + HOUR)))
  }

  lemma ArrivalCounts(limit: nat, n: int, last: Millis, a: Act)
    requires Arrives(a) && n >= 1
    ensures var b := InvitationsPerHour(limit);
            var m := if a.now < last + HOUR then n + 1 else 1;
            Next(b, CounterAt(n, last), a) == CounterAt(m, a.now) && (IsCountedWithin(b, CounterAt(n, last), a) <==> m <= limit)
  {
  }

  lemma FirstArrivalCounts(limit: nat, a: Act)
    requires Arrives(a)
    ensures var b := InvitationsPerHour(limit);
            Next(b, None, a) == CounterAt(1, a.now) && (IsCountedWithin(b, None, a) <==> 1 <= limit)
  {
  }

  /** While the counter never lapses, it lets no more through than it has room for. */
  lemma {:induction false} UnbrokenBound(limit: nat, n: int, last: Millis, trace: seq<Act>)
    requires n >= 1 && Unbroken(Some(last), trace) && forall i :: 0 <= i < |trace| ==> trace[i].Attempt?
    ensures CountedIn(InvitationsPerHour(limit), CounterAt(n, last), trace) <= Max(0, limit - n)
    decreases |trace|
  {
    if trace != [] {
      var a, rest := trace[0], trace[1..];
      if Arrives(a) {
        ArrivalCounts(limit, n, last, a);
        UnbrokenBound(limit, n + 1, a.now, rest);
      } else {
        UnbrokenBound(limit, n, last, rest);
      }
    }
  }

  /** Once it lapses, it counts from one again. */
  lemma {:induction false} BrokenAdmits(n: int, last: Millis, trace: seq<Act>)
    requires n >= 1 && !Unbroken(Some(last), trace) && forall i :: 0 <= i < |trace| ==> trace[i].Attempt?
    ensures CountedIn(InvitationsPerHour(1), CounterAt(n, last), trace) >= 1
    decreases |trace|
  {
    var a, rest := trace[0], trace[1..];
    if Arrives(a) {
      ArrivalCounts(1, n, last, a);
      if a.now < last + HOUR {
        BrokenAdmits(n + 1, a.now, rest);
      }
    } else {
      BrokenAdmits(n, last, rest);
    }
  }

  lemma {:induction false} UnbrokenFromStart(limit: nat, trace: seq<Act>)
    requires Unbroken(None, trace) && forall i :: 0 <= i < |trace| ==> trace[i].Attempt?
    ensures CountedIn(InvitationsPerHour(limit), None, trace) <= limit
    decreases |trace|
  {
    if trace != [] {
      var a, rest := trace[0], trace[1..];
      if Arrives(a) {
        FirstArrivalCounts(limit, a);
        UnbrokenBound(limit, 1, a.now, rest);
      } else {
        UnbrokenFromStart(limit, rest);
      }
    }
  }

  lemma {:induction false} BrokenFromStart(trace: seq<Act>)
    requires !Unbroken(None, trace) && forall i :: 0 <= i < |trace| ==> trace[i].Attempt?
    ensures CountedIn(InvitationsPerHour(1), None, trace) >= 2
    decreases |trace|
  {
    var a, rest := trace[0], trace[1..];
    if Arrives(a) {
      FirstArrivalCounts(1, a);
      BrokenAdmits(1, a.now, rest);
    } else {
      BrokenFromStart(rest);
    }
  }

  /**
   * The attempts on the counter of an hour, in that hour or later: no limit is ever exceeded by those
   * counted within it, if and only if each arrives less than an hour after the one before.
   */
  lemma HourBoundIff(trace: seq<Act>)
    requires forall i :: 0 <= i < |trace| ==> trace[i].Attempt?
    ensures (forall limit: nat :: CountedIn(InvitationsPerHour(limit), None, trace) <= limit) <==> Unbroken(None, trace)
  {
    if Unbroken(None, trace) {
      forall limit: nat ensures CountedIn(InvitationsPerHour(limit), None, trace) <= limit {
        UnbrokenFromStart(limit, trace);
      }
    } else {
      BrokenFromStart(trace);
      assert CountedIn(InvitationsPerHour(1), None, trace) > 1;
    }
  }

  lemma {:induction false} SameHourIsUnbroken(last: Option<Millis>, trace: seq<Act>, hour: int)
    requires last.Some? ==> HourBucket(last.value) == hour
    requires forall i :: 0 <= i < |trace| ==> HourBucket(trace[i].now) == hour
    ensures Unbroken(last, trace)
    decreases |trace|
  {
    if trace != [] {
      SameHourIsUnbroken(if Arrives(trace[0]) then Some(trace[0].now) else last, trace[1..], hour);
      SameHour(if last.Some? then last.value else trace[0].now, trace[0].now);
    }
  }

  lemma SameHour(x: Millis, y: Millis)
    requires HourBucket(x) == HourBucket(y)
    ensures y < x + HOUR
  {
  }

  /**
   * Invitations counted within their own hour never exceed the limit. (Asking comes before counting, so
   * every attempt on the counter of an hour is counted in that hour or later.)
   */
  lemma HourBound(limit: nat, trace: seq<Act>, hour: int)
    requires forall i :: 0 <= i < |trace| ==> trace[i].Attempt? && HourBucket(trace[i].now) == hour
    ensures AdmittedIn(InvitationsPerHour(limit), None, trace) <= CountedIn(InvitationsPerHour(limit), None, trace) <= limit
  {
    SameHourIsUnbroken(None, trace, hour);
    UnbrokenFromStart(limit, trace);
    AdmittedAreCounted(InvitationsPerHour(limit), None, trace);
  }

  /** One asked for within the hour but counted after its end can find the counter gone: two for a limit of one. */
  lemma CountedLate(hour: int)
    ensures var trace := [Attempt(hour * HOUR, Works), Attempt((hour + 1) * HOUR, Works)];
            AdmittedIn(InvitationsPerHour(1), None, trace) == 2
  {
    var b, first, second := InvitationsPerHour(1), Attempt(hour * HOUR, Works), Attempt((hour + 1) * HOUR, Works);
    var c := Next(b, None, first);
    assert Live(c, second.now) == None;
    assert [first, second][1..] == [second];
    assert AdmittedIn(b, c, [second]) == 1;
  }
}
