/**
 * How many guesses a login challenge allows: whatever the interleaving, at most five attempts spent while
 * the challenge is alive get as far as matching a code, and an attempt spent later never signs anyone in.
 */
module LoginAttempts {
  import opened Prelude
  import opened SessionIndex
  import opened KvSpec
  import opened AttemptBudget
  import opened MfaRows
  import opened OwnCodes
  import opened LoginChallenge

  const LIMIT := MFA_LOGIN_CHALLENGE.maxAttempts

  // ----- the two cells of a challenge -----

  function EndOfLife(w: World, id: ChallengeId): Millis
    requires id in w.challenges
  {
    w.challenges[id].at + CHALLENGE_LIFE
  }

  /** A challenge keeps its expiry; its counter, once there, cannot expire before it. */
  ghost predicate CellsKept(w: World, id: ChallengeId) {
    if id in w.challenges then
      && w.challenges[id].at <= w.now
      && ChallengeCell(w, id) in {None, Some(Cell(Login(w.challenges[id].challenge), Some(EndOfLife(w, id))))}
      && (CounterCell(w, id).Some? ==>
            && CounterCell(w, id).value.value.Number? && CounterCell(w, id).value.value.n >= 1
            && CounterCell(w, id).value.expiresAt.Some? && CounterCell(w, id).value.expiresAt.value >= EndOfLife(w, id))
    else
      ChallengeCell(w, id) == None && CounterCell(w, id) == None && id !in w.signed
  }

  ghost predicate Kept(w: World) {
    forall id :: CellsKept(w, id)
  }

  lemma OpenKeepsCells(w: World, s: Step, id: ChallengeId)
    requires Applies(w, s) && CellsKept(w, id) && s.Open?
    ensures CellsKept(Stepped(w, s), id)
  {
    CallOnChallenge(w, s.id, s.reach, Set(ChallengeKey(s.id), Login(s.challenge), Some(CHALLENGE_TTL_SECONDS)), id);
  }

  lemma IncrementKeepsCells(w: World, called: ChallengeId, reach: Reach, id: ChallengeId)
    requires CellsKept(w, id) && called in w.challenges
    ensures CellsKept(w.(store := Called(w, reach, Increment(called))), id)
  {
    CallOnCounter(w, called, reach, id);
  }

  lemma DeleteKeepsCells(w: World, called: ChallengeId, reach: Reach, op: Operation, id: ChallengeId)
    requires CellsKept(w, id) && op.key == ChallengeKey(called) && (op.Delete? || op.GetAndDelete?)
    ensures CellsKept(w.(store := Called(w, reach, op)), id)
  {
    CallOnChallenge(w, called, reach, op, id);
  }

  /** Worlds with the same cells, challenges and cookies, the later at a later time. */
  lemma SameCellsKept(w: World, w': World, id: ChallengeId)
    requires CellsKept(w, id) && w'.store == w.store && w'.challenges == w.challenges && w'.signed == w.signed && w.now <= w'.now
    ensures CellsKept(w', id)
  {
  }

  lemma CellsStep(w: World, s: Step, id: ChallengeId)
    requires Applies(w, s) && CellsKept(w, id)
    requires CallOf(w, s).Some? && !s.Open? ==> CallOf(w, s).value.0 in w.challenges
    ensures CellsKept(Stepped(w, s), id)
  {
    if s.Open? {
      OpenKeepsCells(w, s, id);
    } else if CallOf(w, s).Some? {
      var (called, reach, op) := CallOf(w, s).value;
      if op.IncrementRateWindow? {
        IncrementKeepsCells(w, called, reach, id);
      } else {
        DeleteKeepsCells(w, called, reach, op, id);
      }
      SameCellsKept(w.(store := Called(w, reach, op)), Stepped(w, s), id);
    } else {
      SameCellsKept(w, Stepped(w, s), id);
    }
  }

  // ----- requests -----

  predicate CarriesChallenge(pc: Pc) {
    pc.Peeked? || GotThrough(pc)
  }

  predicate GotThrough(pc: Pc) {
    pc.Spent? || pc.Found? || pc.Matching? || TookChallenge(pc)
  }

  predicate TookChallenge(pc: Pc) {
    pc.ChallengeTaken? || pc.FactorTaken? || pc.SignedIn?
  }

  ghost predicate RequestKept(w: World, r: RequestId) {
    r in w.requests ==>
      var q := w.requests[r];
      && (!q.pc.Ended? ==> q.id in w.challenges && w.challenges[q.id].at <= w.now)
      && (CarriesChallenge(q.pc) ==> q.pc.challenge == w.challenges[q.id].challenge)
      && (GotThrough(q.pc) ==> q.admission.Some?)
      && (q.admission.Some? ==>
            && q.id in w.challenges && w.challenges[q.id].at <= q.admission.value.at <= w.now
            && 1 <= q.admission.value.count <= LIMIT)
  }

  ghost predicate RequestsKept(w: World) {
    forall r :: RequestKept(w, r)
  }

  lemma RequestStep(w: World, s: Step, r: RequestId)
    requires Applies(w, s) && Kept(w) && RequestKept(w, r)
    ensures RequestKept(Stepped(w, s), r)
  {
    if ActorOf(s) == Some(r) {
      if s.Arrive? {
        assert CellsKept(w, s.id);
      } else {
        assert CellsKept(w, w.requests[r].id);
        MoveKeepsRequest(w, s, r);
      }
    }
  }

  lemma MoveKeepsRequest(w: World, s: Step, r: RequestId)
    requires RequestKept(w, r) && r in w.requests && CellsKept(w, w.requests[r].id)
    requires s.SpendAttempt? || !w.requests[r].pc.Ended?
    ensures var q, q' := w.requests[r], Moved(w, w.requests[r], s);
            && q'.id == q.id
            && (!q'.pc.Ended? ==> !q.pc.Ended?)
            && (CarriesChallenge(q'.pc) ==> !q.pc.Ended? && q'.pc.challenge == w.challenges[q.id].challenge)
            && (GotThrough(q'.pc) ==> q'.admission.Some?)
            && (q'.admission == q.admission || (!q.pc.Ended? && q'.admission.Some? && q'.admission.value.at == w.now && 1 <= q'.admission.value.count <= LIMIT))
  {
  }

  // ----- counting -----

  /** An attempt admitted while its challenge was alive. */
  predicate InTime(w: World, r: RequestId) {
    && r in w.requests && w.requests[r].admission.Some? && w.requests[r].id in w.challenges
    && w.requests[r].admission.value.at < EndOfLife(w, w.requests[r].id)
  }

  function CountOfAttempt(w: World, r: RequestId): int
    requires InTime(w, r)
  {
    w.requests[r].admission.value.count
  }

  /** While the challenge is alive its counter is there, and no admitted attempt has a greater count. */
  ghost predicate Counted(w: World, r: RequestId) {
    InTime(w, r) && w.now < EndOfLife(w, w.requests[r].id) ==>
      CounterCell(w, w.requests[r].id).Some? && CounterCell(w, w.requests[r].id).value.value.Number?
      && CountOfAttempt(w, r) <= CounterCell(w, w.requests[r].id).value.value.n
  }

  ghost predicate CountsApart(w: World, r: RequestId, q: RequestId) {
    InTime(w, r) && InTime(w, q) && r != q && w.requests[r].id == w.requests[q].id ==> CountOfAttempt(w, r) != CountOfAttempt(w, q)
  }

  ghost predicate CountsKept(w: World) {
    && (forall r :: Counted(w, r))
    && (forall r, q :: CountsApart(w, r, q))
  }

  /** Admissions are only ever given by spending. */
  lemma AdmissionStep(w: World, s: Step, r: RequestId)
    requires Applies(w, s) && r in Stepped(w, s).requests && !(s.SpendAttempt? && s.r == r)
    ensures if r in w.requests then
              && Stepped(w, s).requests[r].id == w.requests[r].id
              && Stepped(w, s).requests[r].admission == w.requests[r].admission
            else Stepped(w, s).requests[r].admission == None
  {
  }

  /** A spend is admitted with the count after its own increment, and only while that is within the limit. */
  lemma SpendAdmits(w: World, s: Step)
    requires Applies(w, s) && s.SpendAttempt? && w.requests[s.r].id in w.challenges && CellsKept(w, w.requests[s.r].id)
    ensures var q, q' := w.requests[s.r], Stepped(w, s).requests[s.r];
            && q'.id == q.id
            && (q'.admission == q.admission
                || (s.reach.Works? && WholeCountOf(Live(CounterCell(w, q.id), w.now)).Some?
                    && q'.admission == Some(Admission(w.now, WholeCountOf(Live(CounterCell(w, q.id), w.now)).value + 1))))
  {
  }

  /** An attempt that is in time after a step was in time before it, unless the step is its own spend. */
  lemma InTimeStep(w: World, s: Step, r: RequestId)
    requires Applies(w, s) && Kept(w) && RequestKept(w, r) && InTime(Stepped(w, s), r)
    ensures r in w.requests && Stepped(w, s).requests[r].id == w.requests[r].id && w.requests[r].id in w.challenges
    ensures EndOfLife(Stepped(w, s), w.requests[r].id) == EndOfLife(w, w.requests[r].id)
    ensures (InTime(w, r) && CountOfAttempt(Stepped(w, s), r) == CountOfAttempt(w, r)) || SpendsInTime(w, s, r)
    ensures SpendsInTime(w, s, r) && !(InTime(w, r) && CountOfAttempt(Stepped(w, s), r) == CountOfAttempt(w, r)) ==>
              CountOfAttempt(Stepped(w, s), r) == WholeCountOf(Live(CounterCell(w, w.requests[r].id), w.now)).value + 1
  {
    if s.SpendAttempt? && s.r == r {
      assert CellsKept(w, w.requests[r].id);
      SpendAdmits(w, s);
    } else {
      AdmissionStep(w, s, r);
    }
  }

  predicate SpendsInTime(w: World, s: Step, r: RequestId) {
    && s.SpendAttempt? && s.r == r && s.reach.Works? && r in w.requests && w.requests[r].id in w.challenges
    && w.now < EndOfLife(w, w.requests[r].id) && WholeCountOf(Live(CounterCell(w, w.requests[r].id), w.now)).Some?
  }

  /** The counter of a living challenge never goes down, and goes up with every spend that gets through. */
  lemma CounterStep(w: World, s: Step, id: ChallengeId)
    requires Applies(w, s) && id in w.challenges && CellsKept(w, id) && w.now < EndOfLife(w, id)
    ensures CounterCell(w, id).Some? ==>
              && CounterCell(Stepped(w, s), id).Some? && CounterCell(Stepped(w, s), id).value.value.Number?
              && CounterCell(w, id).value.value.n <= CounterCell(Stepped(w, s), id).value.value.n
    ensures s.SpendAttempt? && s.reach.Works? && w.requests[s.r].id == id ==>
              && CounterCell(Stepped(w, s), id).Some? && CounterCell(Stepped(w, s), id).value.value.Number?
              && CounterCell(Stepped(w, s), id).value.value.n == WholeCountOf(Live(CounterCell(w, id), w.now)).value + 1
  {
    match CallOf(w, s)
    case None =>
    case Some((called, reach, op)) =>
      if op.IncrementRateWindow? {
        CallOnCounter(w, called, reach, id);
      } else {
        CallOnChallenge(w, called, reach, op, id);
      }
  }

  lemma CountedStep(w: World, s: Step, r: RequestId)
    requires Applies(w, s) && Kept(w) && RequestKept(w, r) && Counted(w, r)
    ensures Counted(Stepped(w, s), r)
  {
    if InTime(Stepped(w, s), r) {
      InTimeStep(w, s, r);
      var id := w.requests[r].id;
      assert CellsKept(w, id);
      if w.now < EndOfLife(w, id) {
        CounterStep(w, s, id);
      }
    }
  }

  lemma CountsApartStep(w: World, s: Step, r: RequestId, q: RequestId)
    requires Applies(w, s) && Kept(w) && RequestsKept(w) && Counted(w, r) && Counted(w, q) && CountsApart(w, r, q)
    ensures CountsApart(Stepped(w, s), r, q)
  {
    if InTime(Stepped(w, s), r) && InTime(Stepped(w, s), q) && r != q {
      assert RequestKept(w, r) && RequestKept(w, q);
      InTimeStep(w, s, r);
      InTimeStep(w, s, q);
      assert CellsKept(w, w.requests[r].id);
    }
  }

  // ----- the theorem -----

  lemma {:induction false} AttemptsKept(hotp: Hotp, steps: seq<Step>)
    requires Possible(hotp, steps)
    ensures Kept(RunOf(steps)) && RequestsKept(RunOf(steps)) && CountsKept(RunOf(steps))
    decreases |steps|
  {
    if steps != [] {
      var w, s := RunOf(steps[..|steps| - 1]), steps[|steps| - 1];
      AttemptsKept(hotp, steps[..|steps| - 1]);
      StepKeeps(w, s);
    }
  }

  lemma StepKeeps(w: World, s: Step)
    requires Applies(w, s) && Kept(w) && RequestsKept(w) && CountsKept(w)
    ensures Kept(Stepped(w, s)) && RequestsKept(Stepped(w, s)) && CountsKept(Stepped(w, s))
  {
    forall id ensures CellsKept(Stepped(w, s), id) {
      CallIsOnChallenge(w, s);
      CellsStep(w, s, id);
    }
    forall r ensures RequestKept(Stepped(w, s), r) && Counted(Stepped(w, s), r) {
      RequestStep(w, s, r);
      CountedStep(w, s, r);
    }
    forall r, q ensures CountsApart(Stepped(w, s), r, q) {
      CountsApartStep(w, s, r, q);
    }
  }

  lemma CallIsOnChallenge(w: World, s: Step)
    requires Applies(w, s) && RequestsKept(w)
    ensures CallOf(w, s).Some? && !s.Open? ==> CallOf(w, s).value.0 in w.challenges
  {
    if s.SpendAttempt? || s.TakeChallenge? || s.Expire? {
      assert RequestKept(w, s.r);
    }
  }

  /** Things whose counts are apart and within the first `n` are at most `n`. */
  lemma {:induction false} AtMostAsManyAsCounts(xs: set<nat>, count: nat -> int, n: nat)
    requires forall x :: x in xs ==> 1 <= count(x) <= n
    requires forall x, y :: x in xs && y in xs && x != y ==> count(x) != count(y)
    ensures |xs| <= n
  {
    if n == 0 {
      assert xs == {};
    } else if x :| x in xs && count(x) == n {
      AtMostAsManyAsCounts(xs - {x}, count, n - 1);
    } else {
      AtMostAsManyAsCounts(xs, count, n - 1);
    }
  }

  /** Admitted only after the challenge's time was up. */
  predicate Late(w: World, r: RequestId) {
    && r in w.requests && w.requests[r].admission.Some? && w.requests[r].id in w.challenges
    && EndOfLife(w, w.requests[r].id) <= w.requests[r].admission.value.at
  }

  lemma {:induction false} GuessingTakesAdmission(hotp: Hotp, steps: seq<Step>, r: RequestId)
    requires Possible(hotp, steps) && exists s :: s in steps && s.Match? && s.r == r
    ensures r in RunOf(steps).requests && RunOf(steps).requests[r].admission.Some?
    decreases |steps|
  {
    var init, last := steps[..|steps| - 1], steps[|steps| - 1];
    var w := RunOf(init);
    AttemptsKept(hotp, init);
    assert forall s :: s in steps <==> s in init || s == last;
    if last.Match? && last.r == r {
      assert RequestKept(w, r);
    } else {
      GuessingTakesAdmission(hotp, init, r);
    }
    StaysAdmitted(w, last, r);
  }

  lemma StaysAdmitted(w: World, s: Step, r: RequestId)
    requires Applies(w, s) && r in w.requests && w.requests[r].admission.Some?
    ensures r in Stepped(w, s).requests && Stepped(w, s).requests[r].admission.Some?
  {
    RequestsStay(w, s, r);
    if !(s.SpendAttempt? && s.r == r) {
      AdmissionStep(w, s, r);
    }
  }

  lemma RequestsStay(w: World, s: Step, r: RequestId)
    requires Applies(w, s) && r in w.requests
    ensures r in Stepped(w, s).requests
  {
  }

  // ----- one guess a request -----

  /** How far a request has come; past the match it never matches again. */
  function Stage(pc: Pc): nat {
    match pc
    case Peeking => 0
    case Peeked(_) => 1
    case Spent(_, _) => 2
    case Found(_, _, _) => 3
    case _ => 4
  }

  lemma StageStep(w: World, s: Step, r: RequestId)
    requires Applies(w, s) && r in w.requests
    ensures r in Stepped(w, s).requests && Stage(w.requests[r].pc) <= Stage(Stepped(w, s).requests[r].pc)
    ensures s.Match? && s.r == r ==> Stage(Stepped(w, s).requests[r].pc) == 4
  {
  }

  lemma {:induction false} PastGuessing(hotp: Hotp, steps: seq<Step>, i: nat)
    requires Possible(hotp, steps) && i < |steps| && steps[i].Match?
    ensures steps[i].r in RunOf(steps).requests && Stage(RunOf(steps).requests[steps[i].r].pc) == 4
    decreases |steps|
  {
    var n := |steps| - 1;
    if i < n {
      PastGuessing(hotp, steps[..n], i);
    }
    StageStep(RunOf(steps[..n]), steps[n], steps[i].r);
  }

  lemma {:induction false} PossibleBefore(hotp: Hotp, steps: seq<Step>, j: nat)
    requires Possible(hotp, steps) && j < |steps|
    ensures Possible(hotp, steps[..j]) && Applies(RunOf(steps[..j]), steps[j])
    decreases |steps|
  {
    if j < |steps| - 1 {
      PossibleBefore(hotp, steps[..|steps| - 1], j);
      assert steps[..|steps| - 1][..j] == steps[..j];
    }
  }

  /** A request tries a code at most once. */
  lemma OneGuessEach(hotp: Hotp, steps: seq<Step>, i: nat, j: nat)
    requires Possible(hotp, steps) && i < j < |steps| && steps[i].Match? && steps[j].Match?
    ensures steps[i].r != steps[j].r
  {
    PossibleBefore(hotp, steps, j);
    PastGuessing(hotp, steps[..j], i);
  }

  /** The guesses on a challenge, leaving out those of requests admitted late. */
  function Guesses(steps: seq<Step>, id: ChallengeId): set<nat> {
    var w := RunOf(steps);
    set i: nat | i < |steps| && steps[i].Match? && steps[i].r in w.requests && w.requests[steps[i].r].id == id && !Late(w, steps[i].r)
  }

  function CountAt(w: World, steps: seq<Step>): nat -> int {
    (i: nat) => if i < |steps| && steps[i].Match? && InTime(w, steps[i].r) then CountOfAttempt(w, steps[i].r) else 0
  }

  /**
   * However often, by whatever requests, in whatever interleaving and with whatever faults codes are tried
   * on a challenge: at most five guesses were admitted while the challenge was alive.
   */
  lemma AtMostFiveGuesses(hotp: Hotp, steps: seq<Step>, id: ChallengeId)
    requires Possible(hotp, steps)
    ensures |Guesses(steps, id)| <= 5
  {
    AttemptsKept(hotp, steps);
    var w, guesses := RunOf(steps), Guesses(steps, id);
    forall i | i in guesses ensures InTime(w, steps[i].r) && 1 <= CountAt(w, steps)(i) <= 5 {
      GuessingTakesAdmission(hotp, steps, steps[i].r);
      assert RequestKept(w, steps[i].r);
    }
    forall i, j | i in guesses && j in guesses && i != j ensures CountAt(w, steps)(i) != CountAt(w, steps)(j) {
      OneGuessEach(hotp, steps, if i < j then i else j, if i < j then j else i);
      assert CountsApart(w, steps[i].r, steps[j].r);
    }
    AtMostAsManyAsCounts(guesses, CountAt(w, steps), 5);
  }
}
