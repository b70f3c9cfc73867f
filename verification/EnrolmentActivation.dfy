/**
 * Activation takes a right code: behind every activated enrolment stands, in the steps of the run, an
 * activation request with six digits that are the HOTP of that enrolment's own secret, in the window.
 */
module EnrolmentActivation {
  import opened Prelude
  import opened MfaRows
  import opened OwnCodes
  import opened Enrolment
  import opened EnrolmentRuns

  // ----- what stands in the steps -----

  /** The user's call that begins at `m` inserts, at `k`, the enrolment with its secret. */
  predicate Inserts(steps: seq<Step>, m: int, k: int, user: UserId, e: EnrolmentId, secret: Sealed) {
    && 0 <= m < k < |steps| && steps[k].Insert? && steps[m] == Enrol(steps[k].c, user)
    && steps[k].draft.setup.enrolmentId == e && secret == Encrypt(steps[k].ring, steps[k].draft.setup.secret, user)
  }

  predicate Asks(steps: seq<Step>, i: int, c: CallId, user: UserId, e: EnrolmentId, code: string) {
    0 <= i < |steps| && steps[i] == Activate(c, user, e, code)
  }

  /**
   * The enrolment goes in at `k`; at `i` the call comes with a code for it; at `j`, later than both, the
   * secret decrypts and the code is the HOTP of the step, which is in the window of the time.
   */
  predicate Rightly(hotp: Hotp, steps: seq<Step>, m: int, k: int, i: int, j: int, c: CallId, user: UserId, e: EnrolmentId, step: int) {
    && 0 <= m < k < j < |steps| && 0 <= i < j
    && steps[k].Insert? && Inserts(steps, m, k, user, e, Encrypt(steps[k].ring, steps[k].draft.setup.secret, user))
    && steps[i].Activate? && Asks(steps, i, c, user, e, steps[i].code)
    && steps[j].Match? && steps[j].c == c && steps[j].found == Some(step)
    && steps[k].ring.currentVersion in steps[j].ring.versions
    && SixDigits(steps[i].code) && OfStep(hotp, steps[k].draft.setup.secret, steps[i].code, steps[j].now, step - steps[j].now / 30_000)
  }

  ghost predicate WasInserted(steps: seq<Step>, user: UserId, e: EnrolmentId, secret: Sealed) {
    exists m, k :: Inserts(steps, m, k, user, e, secret)
  }

  ghost predicate WasAsked(steps: seq<Step>, c: CallId, user: UserId, e: EnrolmentId, code: string) {
    exists i :: Asks(steps, i, c, user, e, code)
  }

  ghost predicate WasRight(hotp: Hotp, steps: seq<Step>, c: CallId, user: UserId, e: EnrolmentId, step: int) {
    exists m, k, i, j :: Rightly(hotp, steps, m, k, i, j, c, user, e, step)
  }

  ghost predicate HasBegun(steps: seq<Step>, c: CallId, user: UserId) {
    exists m :: 0 <= m < |steps| && steps[m] == Enrol(c, user)
  }

  // ----- it stays there -----

  lemma InsertedStays(steps: seq<Step>, s: Step, user: UserId, e: EnrolmentId, secret: Sealed)
    requires WasInserted(steps, user, e, secret)
    ensures WasInserted(steps + [s], user, e, secret)
  {
    var m, k :| Inserts(steps, m, k, user, e, secret);
    assert Inserts(steps + [s], m, k, user, e, secret);
  }

  lemma AskedStays(steps: seq<Step>, s: Step, c: CallId, user: UserId, e: EnrolmentId, code: string)
    requires WasAsked(steps, c, user, e, code)
    ensures WasAsked(steps + [s], c, user, e, code)
  {
    var i :| Asks(steps, i, c, user, e, code);
    assert Asks(steps + [s], i, c, user, e, code);
  }

  lemma RightStays(hotp: Hotp, steps: seq<Step>, s: Step, c: CallId, user: UserId, e: EnrolmentId, step: int)
    requires WasRight(hotp, steps, c, user, e, step)
    ensures WasRight(hotp, steps + [s], c, user, e, step)
  {
    var m, k, i, j :| Rightly(hotp, steps, m, k, i, j, c, user, e, step);
    assert Rightly(hotp, steps + [s], m, k, i, j, c, user, e, step);
  }

  lemma BegunStays(steps: seq<Step>, s: Step, c: CallId, user: UserId)
    requires HasBegun(steps, c, user)
    ensures HasBegun(steps + [s], c, user)
  {
    var m :| 0 <= m < |steps| && steps[m] == Enrol(c, user);
    assert (steps + [s])[m] == Enrol(c, user);
  }

  // ----- where calls and rows come from -----

  ghost predicate PcFrom(hotp: Hotp, steps: seq<Step>, w: World, c: CallId, q: Call) {
    match q.pc
    case Finding => HasBegun(steps, c, q.user)
    case Inserting => HasBegun(steps, c, q.user)
    case Asked(e, code) => WasAsked(steps, c, q.user, e, code)
    case Deciding(row, code) => WasAsked(steps, c, q.user, row.enrolmentId, code) && WasInserted(steps, q.user, row.enrolmentId, row.secret)
    case Activating(e, step) => WasRight(hotp, steps, c, q.user, e, step)
    case Activated(e) =>
      && e in w.spent && w.spent[e] != [] && WasRight(hotp, steps, c, q.user, e, w.spent[e][0])
      && e in w.issued && w.issued[e] == q.user
    case _ => true
  }

  ghost predicate CallFrom(hotp: Hotp, steps: seq<Step>, w: World, c: CallId) {
    c in w.calls ==> PcFrom(hotp, steps, w, c, w.calls[c])
  }

  ghost predicate RowFrom(steps: seq<Step>, w: World, user: UserId) {
    user in w.mfa.totp ==> WasInserted(steps, user, w.mfa.totp[user].enrolmentId, w.mfa.totp[user].secret)
  }

  lemma RowComesFrom(hotp: Hotp, steps: seq<Step>, w: World, s: Step, user: UserId)
    requires Enabled(hotp, w, s) && RowFrom(steps, w, user) && (s.Insert? ==> CallFrom(hotp, steps, w, s.c))
    ensures RowFrom(steps + [s], Stepped(w, s), user)
  {
    if user in w.mfa.totp {
      InsertedStays(steps, s, user, w.mfa.totp[user].enrolmentId, w.mfa.totp[user].secret);
    } else if s.Insert? && w.calls[s.c].user == user {
      var m :| 0 <= m < |steps| && steps[m] == Enrol(s.c, user);
      assert Inserts(steps + [s], m, |steps|, user, s.draft.setup.enrolmentId, Encrypt(s.ring, s.draft.setup.secret, user));
    }
  }

  lemma StaysFrom(hotp: Hotp, steps: seq<Step>, w: World, w': World, s: Step, c: CallId, q: Call)
    requires PcFrom(hotp, steps, w, c, q)
    requires forall e :: e in w.spent && w.spent[e] != [] ==> e in w'.spent && w'.spent[e] != [] && w'.spent[e][0] == w.spent[e][0]
    requires forall e :: e in w.issued ==> e in w'.issued && w'.issued[e] == w.issued[e]
    ensures PcFrom(hotp, steps + [s], w', c, q)
  {
    match q.pc
    case Finding => BegunStays(steps, s, c, q.user);
    case Inserting => BegunStays(steps, s, c, q.user);
    case Asked(e, code) => AskedStays(steps, s, c, q.user, e, code);
    case Deciding(row, code) =>
      AskedStays(steps, s, c, q.user, row.enrolmentId, code);
      InsertedStays(steps, s, q.user, row.enrolmentId, row.secret);
    case Activating(e, step) => RightStays(hotp, steps, s, c, q.user, e, step);
    case Activated(e) => RightStays(hotp, steps, s, c, q.user, e, w.spent[e][0]);
    case _ =>
  }

  /** The first step spent on an enrolment, and whose it is, never change. */
  lemma FirstSpentStays(w: World, s: Step, e: EnrolmentId)
    requires Applies(w, s) && EnrolmentKept(w, e) && (s.Win? ==> RowKept(w, w.calls[s.c].user))
    ensures e in w.spent && w.spent[e] != [] ==> e in Stepped(w, s).spent && Stepped(w, s).spent[e] != [] && Stepped(w, s).spent[e][0] == w.spent[e][0]
    ensures e in w.issued ==> e in Stepped(w, s).issued && Stepped(w, s).issued[e] == w.issued[e]
  {
  }

  /** A match that finds a step makes the activation a right one. */
  lemma MatchIsRight(hotp: Hotp, steps: seq<Step>, w: World, s: Step)
    requires Enabled(hotp, w, s) && s.Match? && s.found.Some? && CallFrom(hotp, steps, w, s.c)
    ensures WasRight(hotp, steps + [s], s.c, w.calls[s.c].user, w.calls[s.c].pc.row.enrolmentId, s.found.value)
  {
    var q := w.calls[s.c];
    var row, code := q.pc.row, q.pc.code;
    var m, k :| Inserts(steps, m, k, q.user, row.enrolmentId, row.secret);
    var i :| Asks(steps, i, s.c, q.user, row.enrolmentId, code);
    StepIsMatch(hotp, Decrypt(s.ring, row.secret, q.user).value, code, s.now, s.found);
    assert Rightly(hotp, steps + [s], m, k, i, |steps|, s.c, q.user, row.enrolmentId, s.found.value);
  }

  lemma FoundPendingComesFrom(hotp: Hotp, steps: seq<Step>, w: World, s: Step)
    requires Enabled(hotp, w, s) && s.FindPending? && CallFrom(hotp, steps, w, s.c) && RowFrom(steps, w, w.calls[s.c].user)
    ensures CallFrom(hotp, steps + [s], Stepped(w, s), s.c)
  {
    var q := w.calls[s.c];
    AskedStays(steps, s, s.c, q.user, q.pc.enrolmentId, q.pc.code);
    if q.user in w.mfa.totp {
      InsertedStays(steps, s, q.user, w.mfa.totp[q.user].enrolmentId, w.mfa.totp[q.user].secret);
    }
  }

  lemma WinnerComesFrom(hotp: Hotp, steps: seq<Step>, w: World, s: Step)
    requires Enabled(hotp, w, s) && s.Win? && CallFrom(hotp, steps, w, s.c) && RowKept(w, w.calls[s.c].user)
    ensures CallFrom(hotp, steps + [s], Stepped(w, s), s.c)
  {
    var q := w.calls[s.c];
    RightStays(hotp, steps, s, s.c, q.user, q.pc.enrolmentId, q.pc.timestep);
  }

  lemma MoverComesFrom(hotp: Hotp, steps: seq<Step>, w: World, s: Step, c: CallId)
    requires Enabled(hotp, w, s) && CallFrom(hotp, steps, w, c) && MoverOf(s) == Some(c)
    requires RowFrom(steps, w, w.calls[c].user) && RowKept(w, w.calls[c].user)
    ensures CallFrom(hotp, steps + [s], Stepped(w, s), c)
  {
    var q := w.calls[c];
    match s
    case Find(_) => BegunStays(steps, s, c, q.user);
    case FindPending(_) => FoundPendingComesFrom(hotp, steps, w, s);
    case Match(_, _, _, found) =>
      if found.Some? {
        MatchIsRight(hotp, steps, w, s);
      }
    case Win(_) => WinnerComesFrom(hotp, steps, w, s);
    case _ =>
  }

  lemma NewcomerComesFrom(hotp: Hotp, steps: seq<Step>, w: World, s: Step, c: CallId)
    requires Enabled(hotp, w, s) && c !in w.calls
    ensures CallFrom(hotp, steps + [s], Stepped(w, s), c)
  {
    var steps' := steps + [s];
    assert steps'[|steps|] == s;
    if s.Activate? && s.c == c {
      assert Asks(steps', |steps|, c, s.user, s.enrolmentId, s.code);
    }
  }

  ghost predicate AllFrom(hotp: Hotp, steps: seq<Step>, w: World) {
    (forall c :: CallFrom(hotp, steps, w, c)) && (forall user :: RowFrom(steps, w, user))
  }

  lemma StepComesFrom(hotp: Hotp, steps: seq<Step>, w: World, s: Step)
    requires Enabled(hotp, w, s) && AllFrom(hotp, steps, w) && ActivationKept(w)
    ensures AllFrom(hotp, steps + [s], Stepped(w, s))
  {
    forall user ensures RowFrom(steps + [s], Stepped(w, s), user) {
      assert RowFrom(steps, w, user) && (s.Insert? ==> CallFrom(hotp, steps, w, s.c));
      RowComesFrom(hotp, steps, w, s, user);
    }
    forall c: CallId ensures CallFrom(hotp, steps + [s], Stepped(w, s), c) {
      assert CallFrom(hotp, steps, w, c);
      if c !in w.calls {
        NewcomerComesFrom(hotp, steps, w, s, c);
      } else if MoverOf(s) == Some(c) {
        assert RowFrom(steps, w, w.calls[c].user) && RowKept(w, w.calls[c].user);
        MoverComesFrom(hotp, steps, w, s, c);
      } else {
        BystanderComesFrom(hotp, steps, w, s, c);
      }
    }
  }

  lemma BystanderComesFrom(hotp: Hotp, steps: seq<Step>, w: World, s: Step, c: CallId)
    requires Enabled(hotp, w, s) && CallFrom(hotp, steps, w, c) && c in w.calls && MoverOf(s) != Some(c) && ActivationKept(w)
    ensures CallFrom(hotp, steps + [s], Stepped(w, s), c)
  {
    forall e
      ensures e in w.spent && w.spent[e] != [] ==> e in Stepped(w, s).spent && Stepped(w, s).spent[e] != [] && Stepped(w, s).spent[e][0] == w.spent[e][0]
      ensures e in w.issued ==> e in Stepped(w, s).issued && Stepped(w, s).issued[e] == w.issued[e]
    {
      assert EnrolmentKept(w, e) && (s.Win? ==> RowKept(w, w.calls[s.c].user));
      FirstSpentStays(w, s, e);
    }
    assert Stepped(w, s).calls[c] == w.calls[c];
    StaysFrom(hotp, steps, w, Stepped(w, s), s, c, w.calls[c]);
  }

  lemma {:induction false} AllComeFrom(hotp: Hotp, steps: seq<Step>)
    requires Possible(hotp, steps)
    ensures AllFrom(hotp, steps, RunOf(steps))
    decreases |steps|
  {
    if steps != [] {
      var init, s := steps[..|steps| - 1], steps[|steps| - 1];
      AllComeFrom(hotp, init);
      KeptOverRuns(hotp, init);
      StepComesFrom(hotp, init, RunOf(init), s);
      assert init + [s] == steps;
    }
  }

  // ----- the theorems -----

  /** A call has activated an enrolment of its user's with a right code, and the step of that code is the first one spent. */
  lemma ActivatedByItsCode(hotp: Hotp, steps: seq<Step>, c: CallId)
    requires Possible(hotp, steps) && c in RunOf(steps).calls && RunOf(steps).calls[c].pc.Activated?
    ensures var w, q := RunOf(steps), RunOf(steps).calls[c];
            && q.pc.enrolmentId in w.spent && w.spent[q.pc.enrolmentId] != []
            && exists m, k, i, j :: Rightly(hotp, steps, m, k, i, j, c, q.user, q.pc.enrolmentId, w.spent[q.pc.enrolmentId][0])
  {
    AllComeFrom(hotp, steps);
    assert CallFrom(hotp, steps, RunOf(steps), c);
  }

  /** Every verified row has been activated so, by a call of its user. */
  lemma VerifiedByItsCode(hotp: Hotp, steps: seq<Step>, user: UserId)
    requires Possible(hotp, steps) && user in RunOf(steps).mfa.totp && RunOf(steps).mfa.totp[user].verified
    ensures var w, e := RunOf(steps), RunOf(steps).mfa.totp[user].enrolmentId;
            && e in w.spent && w.spent[e] != []
            && exists c, m, k, i, j :: Rightly(hotp, steps, m, k, i, j, c, user, e, w.spent[e][0])
  {
    AllComeFrom(hotp, steps);
    KeptOverRuns(hotp, steps);
    var w, e := RunOf(steps), RunOf(steps).mfa.totp[user].enrolmentId;
    assert RowKept(w, user) && EnrolmentKept(w, e);
    var c := w.winners[e];
    assert CallFrom(hotp, steps, w, c);
    var m, k, i, j :| Rightly(hotp, steps, m, k, i, j, c, user, e, w.spent[e][0]);
  }
}
