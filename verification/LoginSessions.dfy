/**
 * What a session costs: every session issued by completing a login challenge has used up a challenge and
 * a second factor of its own, and its attempt was admitted while the challenge was alive.
 */
module LoginSessions {
  import opened Prelude
  import opened SessionIndex
  import opened KvSpec
  import opened AttemptBudget
  import opened MfaRows
  import opened OwnCodes
  import opened LoginChallenge
  import opened LoginAttempts

  // ----- challenges -----

  /** Taking a challenge takes an attempt admitted in time, and leaves nothing to take. */
  ghost predicate TakenKept(w: World, r: RequestId) {
    r in w.requests && TookChallenge(w.requests[r].pc) ==>
      InTime(w, r) && ChallengeCell(w, w.requests[r].id) == None
  }

  ghost predicate TakenApart(w: World, r: RequestId, q: RequestId) {
    r in w.requests && q in w.requests && r != q && TookChallenge(w.requests[r].pc) && TookChallenge(w.requests[q].pc) ==>
      w.requests[r].id != w.requests[q].id
  }

  /** A challenge that is gone stays gone. */
  lemma StaysGone(w: World, s: Step, id: ChallengeId)
    requires Applies(w, s) && id in w.challenges && ChallengeCell(w, id) == None
    ensures ChallengeCell(Stepped(w, s), id) == None
  {
    match CallOf(w, s)
    case None =>
    case Some((called, reach, op)) =>
      if op.IncrementRateWindow? {
        CallOnCounter(w, called, reach, id);
      } else {
        CallOnChallenge(w, called, reach, op, id);
      }
  }

  /** Whoever has the challenge after a step had it before, or takes it, alive, by the step. */
  lemma TakesStep(w: World, s: Step, r: RequestId)
    requires Applies(w, s) && r in Stepped(w, s).requests && TookChallenge(Stepped(w, s).requests[r].pc)
    ensures r in w.requests && Stepped(w, s).requests[r].id == w.requests[r].id
    ensures TookChallenge(w.requests[r].pc) || TakesNow(w, s, r)
  {
  }

  predicate TakesNow(w: World, s: Step, r: RequestId) {
    && s.TakeChallenge? && s.r == r && s.reach.Works? && r in w.requests && w.requests[r].pc.Matching?
    && Live(ChallengeCell(w, w.requests[r].id), w.now).Some?
  }

  lemma TakingLeavesNothing(w: World, s: Step, r: RequestId)
    requires TakesNow(w, s, r)
    ensures ChallengeCell(Stepped(w, s), w.requests[r].id) == None
  {
  }

  lemma TakenStep(w: World, s: Step, r: RequestId)
    requires Applies(w, s) && Kept(w) && RequestKept(w, r) && TakenKept(w, r)
    ensures TakenKept(Stepped(w, s), r)
  {
    var w' := Stepped(w, s);
    if r in w'.requests && TookChallenge(w'.requests[r].pc) {
      TakesStep(w, s, r);
      var id := w.requests[r].id;
      assert CellsKept(w, id);
      AdmissionStep(w, s, r);
      if TakesNow(w, s, r) {
        TakingLeavesNothing(w, s, r);
      } else {
        StaysGone(w, s, id);
      }
    }
  }

  lemma TakenApartStep(w: World, s: Step, r: RequestId, q: RequestId)
    requires Applies(w, s) && TakenKept(w, r) && TakenKept(w, q) && TakenApart(w, r, q)
    ensures TakenApart(Stepped(w, s), r, q)
  {
    var w' := Stepped(w, s);
    if r in w'.requests && q in w'.requests && r != q && TookChallenge(w'.requests[r].pc) && TookChallenge(w'.requests[q].pc) {
      TakesStep(w, s, r);
      TakesStep(w, s, q);
    }
  }

  // ----- factors -----

  /** Enrolments and recovery codes keep the user they were made for. */
  ghost predicate RowKept(w: World, user: UserId) {
    user in w.mfa.totp ==>
      w.mfa.totp[user].enrolmentId in w.enrolments && w.enrolments[w.mfa.totp[user].enrolmentId] == user
  }

  ghost predicate CodeKept(w: World, id: CodeId) {
    id in w.mfa.codes ==> id in w.codeIds && w.codeIds[id] == w.mfa.codes[id].userId
  }

  /** What has been consumed can not be consumed again. */
  ghost predicate ConsumedKept(w: World, f: Factor) {
    f in w.consumed ==>
      match f
      case TotpFactor(e, step) =>
        && e in w.enrolments
        && var user := w.enrolments[e];
           (user in w.mfa.totp && w.mfa.totp[user].enrolmentId == e ==>
              w.mfa.totp[user].verified && step <= w.mfa.totp[user].lastUsedTimestep)
      case CodeFactor(id) =>
        id in w.codeIds && (id in w.mfa.codes ==> w.mfa.codes[id].used)
  }

  ghost predicate TablesKept(w: World) {
    && (forall user :: RowKept(w, user))
    && (forall id :: CodeKept(w, id))
    && (forall f :: ConsumedKept(w, f))
  }

  /** The user a factor was made for. */
  function OwnerOf(w: World, f: Factor): Option<UserId> {
    match f
    case TotpFactor(e, _) => if e in w.enrolments then Some(w.enrolments[e]) else None
    case CodeFactor(id) => if id in w.codeIds then Some(w.codeIds[id]) else None
  }

  /** A consumption is of something not consumed before, and made for the user who consumes it. */
  lemma ConsumesAnew(w: World, user: UserId, m: Matched)
    requires TablesKept(w) && Consumes(w.mfa, user, m)
    ensures FactorOf(w.mfa, user, m) !in w.consumed && OwnerOf(w, FactorOf(w.mfa, user, m)) == Some(user)
  {
    assert ConsumedKept(w, FactorOf(w.mfa, user, m)) && RowKept(w, user);
    assert m.CodeRowId? ==> CodeKept(w, m.id);
  }

  lemma TakingKeepsTables(w: World, s: Step)
    requires Applies(w, s) && TablesKept(w) && TakingOf(w, s).Some?
    ensures TablesKept(Stepped(w, s))
  {
    var w', user, m := Stepped(w, s), TakingOf(w, s).value.0, TakingOf(w, s).value.1;
    if Consumes(w.mfa, user, m) {
      ConsumesAnew(w, user, m);
    }
    forall g ensures ConsumedKept(w', g) {
      assert ConsumedKept(w, g);
      assert RowKept(w, user);
    }
    forall other ensures RowKept(w', other) {
      assert RowKept(w, other);
    }
    forall id ensures CodeKept(w', id) {
      assert CodeKept(w, id);
    }
  }

  lemma EnrolKeepsTables(w: World, s: Step)
    requires Applies(w, s) && s.Enrol? && TablesKept(w)
    ensures TablesKept(Stepped(w, s))
  {
    var w' := Stepped(w, s);
    WithCodesKeys(w.mfa.codes, s.user, s.added);
    forall user ensures RowKept(w', user) {
      assert RowKept(w, user);
    }
    forall id ensures CodeKept(w', id) {
      assert CodeKept(w, id);
      if id in w'.mfa.codes && s.user !in w.mfa.totp {
        WithCodesAt(w.mfa.codes, s.user, s.added, id);
      }
    }
    forall f ensures ConsumedKept(w', f) {
      assert ConsumedKept(w, f);
      if f.CodeFactor? && f in w.consumed && f.id in w'.mfa.codes && s.user !in w.mfa.totp {
        WithCodesAt(w.mfa.codes, s.user, s.added, f.id);
      }
    }
  }

  lemma RowStepsKeepTables(w: World, s: Step)
    requires Applies(w, s) && TakingOf(w, s).None? && !s.Enrol? && TablesKept(w)
    ensures TablesKept(Stepped(w, s))
  {
    var w' := Stepped(w, s);
    forall user ensures RowKept(w', user) {
      assert RowKept(w, user);
    }
    forall id ensures CodeKept(w', id) {
      assert CodeKept(w, id);
    }
    forall f ensures ConsumedKept(w', f) {
      assert ConsumedKept(w, f);
    }
  }

  lemma TablesStep(w: World, s: Step)
    requires Applies(w, s) && TablesKept(w)
    ensures TablesKept(Stepped(w, s))
  {
    if TakingOf(w, s).Some? {
      TakingKeepsTables(w, s);
    } else if s.Enrol? {
      EnrolKeepsTables(w, s);
    } else {
      RowStepsKeepTables(w, s);
    }
  }

  /** A consumption is never overwritten. */
  lemma ConsumedStays(w: World, s: Step, f: Factor)
    requires TablesKept(w) && f in w.consumed
    ensures f in ConsumedAfter(w, s) && ConsumedAfter(w, s)[f] == w.consumed[f]
  {
    if TakingOf(w, s).Some? && Consumes(w.mfa, TakingOf(w, s).value.0, TakingOf(w, s).value.1) {
      ConsumesAnew(w, TakingOf(w, s).value.0, TakingOf(w, s).value.1);
    }
  }

  /** A factor never changes hands. */
  lemma OwnerStays(w: World, s: Step, f: Factor)
    requires Applies(w, s) && OwnerOf(w, f).Some?
    ensures OwnerOf(Stepped(w, s), f) == OwnerOf(w, f)
  {
  }

  predicate HasFactor(pc: Pc) {
    pc.FactorTaken? || pc.SignedIn?
  }

  /** A request past the consumption owns it, and the factor was made for the user it signs in. */
  ghost predicate FactorKept(w: World, r: RequestId) {
    r in w.requests && HasFactor(w.requests[r].pc) ==>
      var pc := w.requests[r].pc;
      && pc.factor in w.consumed && w.consumed[pc.factor] == Some(r)
      && OwnerOf(w, pc.factor) == Some(pc.challenge.userId)
  }

  /** Whoever has a factor after a step had it before, or consumes it by the step. */
  lemma FactorMoves(w: World, s: Step, r: RequestId)
    requires Applies(w, s) && r in Stepped(w, s).requests && HasFactor(Stepped(w, s).requests[r].pc)
    ensures r in w.requests
    ensures var pc, pc' := w.requests[r].pc, Stepped(w, s).requests[r].pc;
            || (HasFactor(pc) && pc.factor == pc'.factor && pc.challenge == pc'.challenge)
            || (s.TakeFactor? && s.r == r && pc.challenge == pc'.challenge
                && Consumes(w.mfa, pc.challenge.userId, pc.matched)
                && pc'.factor == FactorOf(w.mfa, pc.challenge.userId, pc.matched))
  {
  }

  lemma FactorStep(w: World, s: Step, r: RequestId)
    requires Applies(w, s) && TablesKept(w) && FactorKept(w, r)
    ensures FactorKept(Stepped(w, s), r)
  {
    var w' := Stepped(w, s);
    if r in w'.requests && HasFactor(w'.requests[r].pc) {
      FactorMoves(w, s, r);
      if HasFactor(w.requests[r].pc) {
        ConsumedStays(w, s, w.requests[r].pc.factor);
        OwnerStays(w, s, w.requests[r].pc.factor);
      } else {
        ConsumesAnew(w, w.requests[r].pc.challenge.userId, w.requests[r].pc.matched);
        OwnerStays(w, s, w'.requests[r].pc.factor);
      }
    }
  }

  // ----- the theorems -----

  ghost predicate SessionsKept(w: World) {
    && TablesKept(w)
    && (forall r :: TakenKept(w, r))
    && (forall r :: FactorKept(w, r))
    && (forall r, q :: TakenApart(w, r, q))
  }

  lemma StepKeepsSessions(w: World, s: Step)
    requires Applies(w, s) && Kept(w) && RequestsKept(w) && SessionsKept(w)
    ensures SessionsKept(Stepped(w, s))
  {
    TablesStep(w, s);
    forall r ensures TakenKept(Stepped(w, s), r) && FactorKept(Stepped(w, s), r) {
      assert RequestKept(w, r);
      TakenStep(w, s, r);
      FactorStep(w, s, r);
    }
    forall r, q ensures TakenApart(Stepped(w, s), r, q) {
      TakenApartStep(w, s, r, q);
    }
  }

  lemma {:induction false} SessionsKeptOverRuns(hotp: Hotp, steps: seq<Step>)
    requires Possible(hotp, steps)
    ensures SessionsKept(RunOf(steps))
    decreases |steps|
  {
    if steps != [] {
      SessionsKeptOverRuns(hotp, steps[..|steps| - 1]);
      AttemptsKept(hotp, steps[..|steps| - 1]);
      StepKeepsSessions(RunOf(steps[..|steps| - 1]), steps[|steps| - 1]);
    }
  }

  /**
   * A session was bought with a challenge opened for its user, which is gone, by an attempt admitted while
   * that challenge was alive, and with a factor made for the same user, which its own request consumed.
   */
  lemma SessionsArePaidFor(hotp: Hotp, steps: seq<Step>, r: RequestId)
    requires Possible(hotp, steps) && r in RunOf(steps).requests && RunOf(steps).requests[r].pc.SignedIn?
    ensures var w := RunOf(steps);
            var q := w.requests[r];
            && q.id in w.challenges && w.challenges[q.id].challenge == q.pc.challenge && ChallengeCell(w, q.id) == None
            && InTime(w, r) && 1 <= CountOfAttempt(w, r) <= LIMIT
            && q.pc.factor in w.consumed && w.consumed[q.pc.factor] == Some(r)
            && OwnerOf(w, q.pc.factor) == Some(q.pc.challenge.userId)
  {
    SessionsKeptOverRuns(hotp, steps);
    AttemptsKept(hotp, steps);
    var w := RunOf(steps);
    assert RequestKept(w, r) && TakenKept(w, r) && FactorKept(w, r);
  }

  /** No two sessions come from one challenge, or from one time step or recovery code. */
  lemma SessionsAreApart(hotp: Hotp, steps: seq<Step>, r: RequestId, q: RequestId)
    requires Possible(hotp, steps) && r != q
    requires r in RunOf(steps).requests && RunOf(steps).requests[r].pc.SignedIn?
    requires q in RunOf(steps).requests && RunOf(steps).requests[q].pc.SignedIn?
    ensures RunOf(steps).requests[r].id != RunOf(steps).requests[q].id
    ensures RunOf(steps).requests[r].pc.factor != RunOf(steps).requests[q].pc.factor
  {
    SessionsKeptOverRuns(hotp, steps);
    var w := RunOf(steps);
    assert TakenApart(w, r, q) && FactorKept(w, r) && FactorKept(w, q);
  }

  /** A request admitted after its challenge's time was up never signs anyone in. */
  lemma LateNeverSignsIn(hotp: Hotp, steps: seq<Step>, r: RequestId)
    requires Possible(hotp, steps) && Late(RunOf(steps), r)
    ensures !TookChallenge(RunOf(steps).requests[r].pc)
  {
    SessionsKeptOverRuns(hotp, steps);
    assert TakenKept(RunOf(steps), r);
  }
}
