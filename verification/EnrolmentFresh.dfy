/** Enrolment is settled until activation when nobody has guessed a recovery code before it was drawn. */
module EnrolmentFresh {
  import opened Prelude
  import opened MfaRows
  import opened OwnCodes
  import opened Enrolment
  import opened EnrolmentRuns

  /** A call of the user's that has come with this recovery code and not matched it yet. */
  predicate Awaits(q: Call, user: UserId, code: string) {
    q.user == user && (q.pc.Checking? || q.pc.Checked?) && q.pc.input == Input(RecoveryCode, code)
  }

  /** No code drawn by the step is one that a call of the user's has already come with. */
  predicate DrawsUnguessed(w: World, s: Step) {
    s.Insert? && s.c in w.calls ==>
      forall d :: d in w.calls ==> forall i :: 0 <= i < |s.draft.setup.codes| ==> !Awaits(w.calls[d], w.calls[s.c].user, s.draft.setup.codes[i])
  }

  ghost predicate Unguessed(steps: seq<Step>) {
    steps == [] || (Unguessed(steps[..|steps| - 1]) && DrawsUnguessed(RunOf(steps[..|steps| - 1]), steps[|steps| - 1]))
  }

  /** A call there at the last deletion holds nothing that matches a code of the present enrolment. */
  ghost predicate StaleKept(w: World, c: CallId) {
    if c !in w.calls then c !in w.stale
    else
      var user, pc := w.calls[c].user, w.calls[c].pc;
      && (pc.Consuming? && pc.matched.CodeRowId? ==> pc.matched.id in w.issuedCodes && (c in w.stale ==> !IsCodeOf(w.mfa, user, pc.matched.id)))
      && (c in w.stale && (pc.Checking? || pc.Checked?) && pc.input.kind.RecoveryCode? ==>
            forall id :: IsCodeOf(w.mfa, user, id) ==> w.mfa.codes[id].code.plain != pc.input.code)
  }

  ghost predicate UnusedKept(w: World, user: UserId) {
    user in w.mfa.totp && !w.mfa.totp[user].verified ==> NoCodeUsed(w.mfa, user)
  }

  /** Codes of a user only come with an insertion of that user's, drawn there under ids never issued before. */
  lemma CodesComeFromInsertion(w: World, s: Step, user: UserId, id: CodeId)
    requires Applies(w, s) && CodesIssued(w) && SettledKept(w, user) && IsCodeOf(Stepped(w, s).mfa, user, id)
    ensures if IsCodeOf(w.mfa, user, id) then Stepped(w, s).mfa.codes[id].code == w.mfa.codes[id].code
            else WinsInsertion(w, s) && w.calls[s.c].user == user && id !in w.issuedCodes
                 && exists i :: 0 <= i < |s.draft.setup.codes| && Stepped(w, s).mfa.codes[id].code.plain == s.draft.setup.codes[i]
  {
    if WriterOf(w, s) != Some(user) {
      OthersKeepTheirRows(w, s, user);
    } else if WinsInsertion(w, s) {
      InsertionSettles(w, s);
      var ids := DraftIds(s.draft);
      assert id in Elements(ids);
      var i :| 0 <= i < |ids| && ids[i] == id;
      assert Stepped(w, s).mfa.codes[ids[i]].code.plain == s.draft.setup.codes[i];
    }
  }

  lemma StaleBystander(w: World, s: Step, c: CallId)
    requires Applies(w, s) && CodesIssued(w) && StaleKept(w, c) && (c in w.calls ==> SettledKept(w, w.calls[c].user))
    requires DrawsUnguessed(w, s) && MoverOf(s) != Some(c)
    ensures StaleKept(Stepped(w, s), c)
  {
    if c in w.calls {
      var user, w' := w.calls[c].user, Stepped(w, s);
      if s == Unenrol(user) {
        assert forall id :: !IsCodeOf(w'.mfa, user, id);
      } else {
        forall id | IsCodeOf(w'.mfa, user, id)
          ensures if IsCodeOf(w.mfa, user, id) then w'.mfa.codes[id].code == w.mfa.codes[id].code
                  else id !in w.issuedCodes && !Awaits(w.calls[c], user, w'.mfa.codes[id].code.plain)
        {
          CodesComeFromInsertion(w, s, user, id);
        }
        var pc := w.calls[c].pc;
        if (pc.Checking? || pc.Checked?) && pc.input.kind.RecoveryCode? {
          assert Awaits(w.calls[c], user, pc.input.code);
        }
      }
    }
  }

  lemma StaleMover(hotp: Hotp, w: World, s: Step, c: CallId)
    requires Enabled(hotp, w, s) && CodesIssued(w) && StaleKept(w, c) && MoverOf(s) == Some(c)
    ensures StaleKept(Stepped(w, s), c)
  {
    if s.MatchOwn? && s.matched.CodeRowId? {
      var q := w.calls[c];
      assert q.pc.input.kind.RecoveryCode?;
      assert IsRecoveryMatch(w.mfa, s.ring, q.user, q.pc.input.code, Some(s.matched.id));
      assert IsCodeOf(w.mfa, q.user, s.matched.id);
    }
  }

  lemma UnusedStep(w: World, s: Step, user: UserId)
    requires Applies(w, s) && CodesIssued(w) && SettledKept(w, user) && UnusedKept(w, user)
    requires s.Consume? ==> CallKept(w, s.c) && StaleKept(w, s.c)
    ensures UnusedKept(Stepped(w, s), user)
  {
    if WriterOf(w, s) != Some(user) {
      OthersKeepTheirRows(w, s, user);
      SameUse(w.mfa, Stepped(w, s).mfa, user);
    } else if WinsInsertion(w, s) {
      InsertionSettles(w, s);
    } else if s.Consume? && user in w.mfa.totp && !w.mfa.totp[user].verified {
      OnlyStaleCallsUse(w, s);
    }
  }

  ghost predicate FreshKept(w: World) {
    (forall user :: UnusedKept(w, user)) && (forall c :: StaleKept(w, c))
  }

  lemma FreshStep(hotp: Hotp, w: World, s: Step)
    requires Enabled(hotp, w, s) && DrawsUnguessed(w, s) && SettlementKept(w) && FreshKept(w)
    ensures FreshKept(Stepped(w, s))
  {
    assert s.Consume? ==> CallKept(w, s.c) && StaleKept(w, s.c);
    forall user ensures UnusedKept(Stepped(w, s), user) {
      assert SettledKept(w, user) && UnusedKept(w, user);
      UnusedStep(w, s, user);
    }
    forall c: CallId ensures StaleKept(Stepped(w, s), c) {
      assert StaleKept(w, c);
      if MoverOf(s) == Some(c) {
        StaleMover(hotp, w, s, c);
      } else {
        assert c in w.calls ==> SettledKept(w, w.calls[c].user);
        StaleBystander(w, s, c);
      }
    }
  }

  lemma {:induction false} FreshOverRuns(hotp: Hotp, steps: seq<Step>)
    requires Possible(hotp, steps) && Unguessed(steps)
    ensures FreshKept(RunOf(steps))
    decreases |steps|
  {
    if steps != [] {
      var init := steps[..|steps| - 1];
      FreshOverRuns(hotp, init);
      KeptOverRuns(hotp, init);
      FreshStep(hotp, RunOf(init), steps[|steps| - 1]);
    }
  }

  /**
   * If no code was ever guessed before it was drawn, all enrolment calls of a user that succeeded since the
   * last deletion have returned the same setup, until the enrolment is activated, whatever calls were under
   * way when the previous one was deleted.
   */
  lemma SettledWhenUnguessed(hotp: Hotp, steps: seq<Step>, c: CallId, d: CallId)
    requires Possible(hotp, steps) && Unguessed(steps) && BothReturned(RunOf(steps), c, d)
    requires var w, user := RunOf(steps), RunOf(steps).calls[c].user; user in w.mfa.totp ==> !w.mfa.totp[user].verified
    ensures RunOf(steps).calls[c].pc.setup == RunOf(steps).calls[d].pc.setup
  {
    KeptOverRuns(hotp, steps);
    FreshOverRuns(hotp, steps);
    assert CallKept(RunOf(steps), c) && UnusedKept(RunOf(steps), RunOf(steps).calls[c].user);
    EnrolmentIsSettledOnce(hotp, steps, c, d);
  }
}
