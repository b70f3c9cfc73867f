/**
 * Where enrolment is not settled once: a call that found the old second factor enabled, and was still under
 * way when it was deleted, uses up a recovery code of the new one.
 */
module EnrolmentRace {
  import opened Prelude
  import opened Sorting
  import opened StringOrder
  import opened MfaRows
  import opened OwnCodes
  import opened Enrolment
  import opened EnrolmentRuns

  /** What every possible step leads to from where it holds. */
  ghost predicate KeptBySteps(hotp: Hotp, reach: World -> bool) {
    forall w, s :: reach(w) && Enabled(hotp, w, s) ==> reach(Stepped(w, s))
  }

  ghost predicate Reached(hotp: Hotp, w: World) {
    exists steps :: Possible(hotp, steps) && RunOf(steps) == w
  }

  lemma ReachedIsKept(hotp: Hotp, w: World, s: Step)
    requires Reached(hotp, w) && Enabled(hotp, w, s)
    ensures Reached(hotp, Stepped(w, s))
  {
    var run :| Possible(hotp, run) && RunOf(run) == w;
    assert (run + [s])[..|run + [s]| - 1] == run;
    assert Possible(hotp, run + [s]) && RunOf(run + [s]) == Stepped(w, s);
  }

  /** Only the call `c` has moved, and no table. */
  predicate OnlyMoves(w: World, w': World, c: CallId, q: Call) {
    w' == w.(calls := w.calls[c := q])
  }

  predicate FreshDraft(w: World, d: Draft) {
    && |d.setup.codes| == RECOVERY_CODES && |d.randoms| == RECOVERY_CODES
    && d.setup.enrolmentId !in w.issued && Elements(DraftIds(d)) !! w.issuedCodes
  }

  lemma Asking(hotp: Hotp, reach: World -> bool, w: World, c: CallId, user: UserId) returns (w': World)
    requires KeptBySteps(hotp, reach) && reach(w) && c !in w.calls
    ensures reach(w') && OnlyMoves(w, w', c, Call(user, Finding))
  {
    assert Enabled(hotp, w, Enrol(c, user));
    w' := Stepped(w, Enrol(c, user));
  }

  lemma Seeking(hotp: Hotp, reach: World -> bool, w: World, c: CallId, user: UserId) returns (w': World)
    requires KeptBySteps(hotp, reach) && reach(w) && c in w.calls && w.calls[c] == Call(user, Finding)
    ensures reach(w') && OnlyMoves(w, w', c, Call(user, FoundRow(w.mfa, user, Inserting)))
  {
    assert Enabled(hotp, w, Find(c));
    w' := Stepped(w, Find(c));
  }

  /** What an enrolment that wins the insertion changes. */
  ghost predicate Enrols(w: World, w': World, c: CallId, user: UserId, ring: KeyRing, d: Draft)
    requires IsDraft(d)
  {
    && w'.calls == w.calls[c := Call(user, Returned(d.setup))] && w'.stale == w.stale
    && w'.issued == w.issued[d.setup.enrolmentId := user] && w'.issuedCodes == w.issuedCodes + Elements(DraftIds(d))
    && w'.mfa == Enrolled(w.mfa, user, d.setup.enrolmentId, Encrypt(ring, d.setup.secret, user), SealedCodes(ring, user, d))
  }

  lemma Inserted(hotp: Hotp, reach: World -> bool, w: World, c: CallId, user: UserId, ring: KeyRing, d: Draft) returns (w': World)
    requires KeptBySteps(hotp, reach) && reach(w) && c in w.calls && w.calls[c] == Call(user, Inserting)
    requires user !in w.mfa.totp && FreshDraft(w, d) && CodesIssued(w) && NoCodes(w.mfa, user)
    ensures reach(w') && Enrols(w, w', c, user, ring, d) && CodesIssued(w')
    ensures CodesStored(w'.mfa, user, Settlement(d.setup, DraftIds(d))) && NoCodeUsed(w'.mfa, user)
  {
    assert Enabled(hotp, w, Insert(c, ring, d));
    InsertionSettles(w, Insert(c, ring, d));
    CodesIssuedStep(w, Insert(c, ring, d));
    w' := Stepped(w, Insert(c, ring, d));
  }

  /** A user with no second factor enrols. */
  lemma Enrolling(hotp: Hotp, reach: World -> bool, w: World, c: CallId, user: UserId, ring: KeyRing, d: Draft) returns (w': World)
    requires KeptBySteps(hotp, reach) && reach(w) && c !in w.calls
    requires user !in w.mfa.totp && FreshDraft(w, d) && CodesIssued(w) && NoCodes(w.mfa, user)
    ensures reach(w') && Enrols(w, w', c, user, ring, d) && CodesIssued(w')
    ensures CodesStored(w'.mfa, user, Settlement(d.setup, DraftIds(d))) && NoCodeUsed(w'.mfa, user)
  {
    var asked := Asking(hotp, reach, w, c, user);
    var found := Seeking(hotp, reach, asked, c, user);
    w' := Inserted(hotp, reach, found, c, user, ring, d);
  }

  lemma Presenting(hotp: Hotp, reach: World -> bool, w: World, c: CallId, user: UserId, e: EnrolmentId, code: string) returns (w': World)
    requires KeptBySteps(hotp, reach) && reach(w) && c !in w.calls
    ensures reach(w') && OnlyMoves(w, w', c, Call(user, Asked(e, code)))
  {
    assert Enabled(hotp, w, Activate(c, user, e, code));
    w' := Stepped(w, Activate(c, user, e, code));
  }

  lemma Deciding(hotp: Hotp, reach: World -> bool, w: World, c: CallId, user: UserId, row: TotpRow, code: string) returns (w': World)
    requires KeptBySteps(hotp, reach) && reach(w) && c in w.calls && w.calls[c] == Call(user, Asked(row.enrolmentId, code))
    requires user in w.mfa.totp && w.mfa.totp[user] == row && !row.verified
    ensures reach(w') && OnlyMoves(w, w', c, Call(user, Pc.Deciding(row, code)))
  {
    assert Enabled(hotp, w, FindPending(c));
    w' := Stepped(w, FindPending(c));
  }

  lemma Matching(hotp: Hotp, reach: World -> bool, w: World, c: CallId, user: UserId, row: TotpRow, code: string, ring: KeyRing) returns (w': World)
    requires KeptBySteps(hotp, reach) && reach(w) && c in w.calls && w.calls[c] == Call(user, Pc.Deciding(row, code))
    requires Decrypt(ring, row.secret, user).Some? && IsDigits(code) && code == hotp(Decrypt(ring, row.secret, user).value, 0)
    ensures reach(w') && OnlyMoves(w, w', c, Call(user, Pc.Activating(row.enrolmentId, 0)))
  {
    assert Enabled(hotp, w, Match(c, ring, 0, Some(0)));
    w' := Stepped(w, Match(c, ring, 0, Some(0)));
  }

  /** What an activation changes. */
  ghost predicate Activates(w: World, w': World, c: CallId, user: UserId, e: EnrolmentId) {
    && w'.calls == w.calls[c := Call(user, Pc.Activated(e))]
    && w'.stale == w.stale && w'.issued == w.issued && w'.issuedCodes == w.issuedCodes
    && w'.mfa == MfaRows.Activated(w.mfa, user, e, 0)
  }

  lemma Winning(hotp: Hotp, reach: World -> bool, w: World, c: CallId, user: UserId, e: EnrolmentId) returns (w': World)
    requires KeptBySteps(hotp, reach) && reach(w) && c in w.calls && w.calls[c] == Call(user, Pc.Activating(e, 0))
    requires MfaRows.Activates(w.mfa, user, e)
    ensures reach(w') && Activates(w, w', c, user, e)
  {
    assert Enabled(hotp, w, Win(c));
    w' := Stepped(w, Win(c));
  }

  /** And activates it with a code of its secret. */
  lemma Activating(hotp: Hotp, reach: World -> bool, w: World, c: CallId, user: UserId, row: TotpRow, ring: KeyRing) returns (w': World)
    requires KeptBySteps(hotp, reach) && reach(w) && c !in w.calls
    requires user in w.mfa.totp && w.mfa.totp[user] == row && !row.verified
    requires Decrypt(ring, row.secret, user).Some? && IsDigits(hotp(Decrypt(ring, row.secret, user).value, 0))
    ensures reach(w') && Activates(w, w', c, user, row.enrolmentId)
  {
    var code := hotp(Decrypt(ring, row.secret, user).value, 0);
    var asked := Presenting(hotp, reach, w, c, user, row.enrolmentId, code);
    var found := Deciding(hotp, reach, asked, c, user, row, code);
    var matched := Matching(hotp, reach, found, c, user, row, code, ring);
    w' := Winning(hotp, reach, matched, c, user, row.enrolmentId);
  }

  lemma Calling(hotp: Hotp, reach: World -> bool, w: World, c: CallId, user: UserId, input: Input) returns (w': World)
    requires KeptBySteps(hotp, reach) && reach(w) && c !in w.calls
    ensures reach(w') && OnlyMoves(w, w', c, Call(user, Checking(input)))
  {
    assert Enabled(hotp, w, Use(c, user, input));
    w' := Stepped(w, Use(c, user, input));
  }

  /** A call that wants one of the user's own codes finds the factor enabled. */
  lemma Looking(hotp: Hotp, reach: World -> bool, w: World, c: CallId, user: UserId, input: Input, row: TotpRow) returns (w': World)
    requires KeptBySteps(hotp, reach) && reach(w) && c !in w.calls
    requires user in w.mfa.totp && w.mfa.totp[user] == row && row.verified
    ensures reach(w') && OnlyMoves(w, w', c, Call(user, Checked(input, row)))
  {
    var asked := Calling(hotp, reach, w, c, user, input);
    assert Enabled(hotp, asked, CheckEnabled(c));
    w' := Stepped(asked, CheckEnabled(c));
  }

  lemma Deleting(hotp: Hotp, reach: World -> bool, w: World, user: UserId) returns (w': World)
    requires KeptBySteps(hotp, reach) && reach(w) && CodesIssued(w)
    ensures reach(w') && CodesIssued(w') && w'.calls == w.calls && w'.stale == w.stale + CallsOf(w, user)
    ensures w'.issued == w.issued && w'.issuedCodes == w.issuedCodes && user !in w'.mfa.totp && NoCodes(w'.mfa, user)
  {
    assert Enabled(hotp, w, Unenrol(user));
    w' := Stepped(w, Unenrol(user));
  }

  lemma Choosing(hotp: Hotp, reach: World -> bool, w: World, c: CallId, user: UserId, ring: KeyRing, input: Input, row: TotpRow, id: CodeId)
    returns (w': World)
    requires KeptBySteps(hotp, reach) && reach(w) && c in w.calls && w.calls[c] == Call(user, Checked(input, row))
    requires input.kind.RecoveryCode? && IsRecoveryMatch(w.mfa, ring, user, input.code, Some(id))
    ensures reach(w') && OnlyMoves(w, w', c, Call(user, Consuming(CodeRowId(id))))
  {
    assert Enabled(hotp, w, MatchOwn(c, ring, 0, CodeRowId(id)));
    w' := Stepped(w, MatchOwn(c, ring, 0, CodeRowId(id)));
  }

  /** It matches the code under `id`, whichever enrolment that belongs to, and consumes it. */
  lemma Taking(hotp: Hotp, reach: World -> bool, w: World, c: CallId, user: UserId, ring: KeyRing, input: Input, row: TotpRow, id: CodeId)
    returns (w': World)
    requires KeptBySteps(hotp, reach) && reach(w) && c in w.calls && w.calls[c] == Call(user, Checked(input, row))
    requires input.kind.RecoveryCode? && IsRecoveryMatch(w.mfa, ring, user, input.code, Some(id))
    ensures reach(w') && w'.calls == w.calls[c := Call(user, Done)] && w'.stale == w.stale && w'.mfa == CodeConsumed(w.mfa, user, id)
  {
    var matched := Choosing(hotp, reach, w, c, user, ring, input, row, id);
    assert Enabled(hotp, matched, Consume(c));
    w' := Stepped(matched, Consume(c));
  }

  lemma Repeated(hotp: Hotp, reach: World -> bool, w: World, c: CallId, user: UserId, ring: KeyRing, row: TotpRow, listing: seq<CodeId>)
    returns (w': World)
    requires KeptBySteps(hotp, reach) && reach(w) && c in w.calls && w.calls[c] == Call(user, Replaying(row)) && !row.verified
    requires IsListing(w.mfa, user, listing) && Replayed(w.mfa, ring, user, row, listing).Some?
    ensures reach(w') && OnlyMoves(w, w', c, Call(user, Returned(Replayed(w.mfa, ring, user, row, listing).value)))
  {
    assert Enabled(hotp, w, Replay(c, ring, listing));
    w' := Stepped(w, Replay(c, ring, listing));
  }

  /** Another enrolment call returns what is left. */
  lemma Repeating(hotp: Hotp, reach: World -> bool, w: World, c: CallId, user: UserId, ring: KeyRing, row: TotpRow, listing: seq<CodeId>)
    returns (w': World)
    requires KeptBySteps(hotp, reach) && reach(w) && c !in w.calls && user in w.mfa.totp && w.mfa.totp[user] == row && !row.verified
    requires IsListing(w.mfa, user, listing) && Replayed(w.mfa, ring, user, row, listing).Some?
    ensures reach(w') && OnlyMoves(w, w', c, Call(user, Returned(Replayed(w.mfa, ring, user, row, listing).value)))
  {
    var asked := Asking(hotp, reach, w, c, user);
    var found := Seeking(hotp, reach, asked, c, user);
    w' := Repeated(hotp, reach, found, c, user, ring, row, listing);
  }

  /** The first of the drafted codes is the first match for itself. */
  lemma FirstCodeMatches(t: MfaTables, user: UserId, ring: KeyRing, d: Draft)
    requires IsDraft(d) && CodesStored(t, user, Settlement(d.setup, DraftIds(d))) && NoCodeUsed(t, user)
    requires t.codes[DraftIds(d)[0]].code == Encrypt(ring, d.setup.codes[0], user) && ring.currentVersion in ring.versions
    ensures IsRecoveryMatch(t, ring, user, d.setup.codes[0], Some(DraftIds(d)[0]))
  {
    var ids := DraftIds(d);
    assert ids[0] in Elements(ids) && IsCodeOf(t, user, ids[0]);
    forall other | IsUnusedCodeOf(t, user, other) && AtMost(other, ids[0]) ensures other == ids[0] {
      assert IsCodeOf(t, user, other);
      var j :| 0 <= j < |ids| && ids[j] == other;
      if j > 0 {
        IdsSortByIndex(0, d.randoms[0], j, d.randoms[j]);
        AtMostTotal(other, ids[0]);
      }
    }
  }

  /** With the first code used, the others are listed, and all of them decrypt. */
  lemma TheRestIsListed(t: MfaTables, user: UserId, ring: KeyRing, d: Draft)
    requires IsDraft(d) && CodesStored(t, user, Settlement(d.setup, DraftIds(d))) && NoCodeUsed(t, user)
    ensures IsListing(CodeConsumed(t, user, DraftIds(d)[0]), user, DraftIds(d)[1..])
  {
    var ids, t' := DraftIds(d), CodeConsumed(t, user, DraftIds(d)[0]);
    assert ids[0] in Elements(ids) && IsCodeOf(t, user, ids[0]);
    RestElements(ids);
    forall id ensures id in UnusedCodesOf(t', user) <==> id in Elements(ids) - {ids[0]} {
      assert IsCodeOf(t, user, id) <==> id in Elements(ids);
    }
    forall i, j | 0 <= i < j < |ids[1..]| ensures ByUnits()(ids[1..][i], ids[1..][j]) {
      assert ids[1..][i] == ids[i + 1] && ids[1..][j] == ids[j + 1];
    }
  }

  /** From any state in which a call is still waiting with a code that the next enrolment will draw first. */
  lemma Overtaken(hotp: Hotp, reach: World -> bool, w: World, user: UserId, ring: KeyRing, b: Draft, row: TotpRow,
                  waiting: CallId, first: CallId, second: CallId)
    returns (w': World)
    requires KeptBySteps(hotp, reach) && reach(w) && CodesIssued(w) && NoCodes(w.mfa, user)
    requires user !in w.mfa.totp && FreshDraft(w, b) && ring.currentVersion in ring.versions
    requires waiting in w.calls && w.calls[waiting] == Call(user, Checked(Input(RecoveryCode, b.setup.codes[0]), row))
    requires first !in w.calls && second !in w.calls && first != second && first !in w.stale && second !in w.stale
    ensures reach(w') && BothReturned(w', first, second)
    ensures w'.calls[first].pc.setup.codes == b.setup.codes && |w'.calls[second].pc.setup.codes| == RECOVERY_CODES - 1
  {
    var enrolled := Enrolling(hotp, reach, w, first, user, ring, b);
    var t, ids := enrolled.mfa, DraftIds(b);
    forall i | 0 <= i < RECOVERY_CODES ensures ids[i] in t.codes && t.codes[ids[i]] == CodeRow(user, Encrypt(ring, b.setup.codes[i], user), false) {
      AddedCode(w.mfa.codes, user, SealedCodes(ring, user, b), b, ring, i);
    }
    FirstCodeMatches(t, user, ring, b);
    var taken := Taking(hotp, reach, enrolled, waiting, user, ring, Input(RecoveryCode, b.setup.codes[0]), row, ids[0]);
    TheRestIsListed(t, user, ring, b);
    RestDecrypts(t, user, ring, b);
    w' := Repeating(hotp, reach, taken, second, user, ring, t.totp[user], ids[1..]);
  }

  lemma RestDecrypts(t: MfaTables, user: UserId, ring: KeyRing, d: Draft)
    requires IsDraft(d) && ring.currentVersion in ring.versions
    requires user in t.totp && t.totp[user].secret == Encrypt(ring, d.setup.secret, user)
    requires forall i :: 0 <= i < RECOVERY_CODES ==> DraftIds(d)[i] in t.codes && t.codes[DraftIds(d)[i]].code == Encrypt(ring, d.setup.codes[i], user)
    ensures var t' := CodeConsumed(t, user, DraftIds(d)[0]);
            var replayed := Replayed(t', ring, user, t.totp[user], DraftIds(d)[1..]);
            replayed.Some? && |replayed.value.codes| == RECOVERY_CODES - 1
  {
    var t', rest := CodeConsumed(t, user, DraftIds(d)[0]), DraftIds(d)[1..];
    forall id | id in rest ensures id in t'.codes && Decrypt(ring, t'.codes[id].code, user).Some? {
      var i :| 0 <= i < |rest| && rest[i] == id;
      assert DraftIds(d)[i + 1] == id;
    }
  }

  /** A second factor enabled, a call that has seen it, and then its deletion. */
  lemma LeftWaiting(hotp: Hotp, reach: World -> bool, user: UserId, ring: KeyRing, a: Draft, input: Input) returns (w: World, row: TotpRow)
    requires KeptBySteps(hotp, reach) && reach(START)
    requires IsDraft(a) && ring.currentVersion in ring.versions && IsDigits(hotp(a.setup.secret, 0))
    ensures reach(w) && CodesIssued(w) && NoCodes(w.mfa, user) && user !in w.mfa.totp
    ensures w.calls.Keys == {0, 1, 2} && w.stale <= {0, 1, 2} && w.calls[2] == Call(user, Checked(input, row))
    ensures w.issued.Keys == {a.setup.enrolmentId} && w.issuedCodes == Elements(DraftIds(a))
  {
    var enrolled := Enrolling(hotp, reach, START, 0, user, ring, a);
    var activated := Activating(hotp, reach, enrolled, 1, user, enrolled.mfa.totp[user], ring);
    row := activated.mfa.totp[user];
    var looked := Looking(hotp, reach, activated, 2, user, input, row);
    w := Deleting(hotp, reach, looked, user);
  }

  /**
   * Enrolment is not settled once without a condition: there is a run in which two calls of one user,
   * begun after the last deletion and before any activation, return ten recovery codes and nine.
   */
  lemma SettledTwice(hotp: Hotp, user: UserId, ring: KeyRing, a: Draft, b: Draft) returns (run: seq<Step>)
    requires IsDraft(a) && IsDraft(b) && ring.currentVersion in ring.versions && IsDigits(hotp(a.setup.secret, 0))
    requires a.setup.enrolmentId != b.setup.enrolmentId && Elements(DraftIds(a)) !! Elements(DraftIds(b))
    ensures Possible(hotp, run) && BothReturned(RunOf(run), 3, 4)
    ensures RunOf(run).calls[3].pc.setup.codes == b.setup.codes
    ensures |RunOf(run).calls[4].pc.setup.codes| == RECOVERY_CODES - 1
  {
    var reach := (w: World) => Reached(hotp, w);
    forall w, s | reach(w) && Enabled(hotp, w, s) ensures reach(Stepped(w, s)) {
      ReachedIsKept(hotp, w, s);
    }
    assert Possible(hotp, []) && RunOf([]) == START;
    var past, row := LeftWaiting(hotp, reach, user, ring, a, Input(RecoveryCode, b.setup.codes[0]));
    var w := Overtaken(hotp, reach, past, user, ring, b, row, 2, 3, 4);
    run :| Possible(hotp, run) && RunOf(run) == w;
  }
}
