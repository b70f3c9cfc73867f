/** What enrolment promises over every interleaving: it is settled once, activated once, and used forward only. */
module EnrolmentRuns {
  import opened Prelude
  import opened Sorting
  import opened StringOrder
  import opened MfaRows
  import opened OwnCodes
  import opened Enrolment

  // ----- activation and use -----

  ghost predicate StrictlyUp(steps: seq<int>) {
    forall i, j :: 0 <= i < j < |steps| ==> steps[i] < steps[j]
  }

  /** A row belongs to one user, is verified exactly when somebody won, and holds the last step spent. */
  ghost predicate RowKept(w: World, user: UserId) {
    user in w.mfa.totp ==>
      var row := w.mfa.totp[user];
      && row.enrolmentId in w.issued && w.issued[row.enrolmentId] == user
      && (row.verified <==> row.enrolmentId in w.winners)
      && (row.verified ==>
            && row.enrolmentId in w.spent && w.spent[row.enrolmentId] != []
            && w.spent[row.enrolmentId][|w.spent[row.enrolmentId]| - 1] == row.lastUsedTimestep)
  }

  ghost predicate EnrolmentKept(w: World, e: EnrolmentId) {
    && (e in w.winners <==> e in w.spent)
    && (e in w.spent ==> e in w.issued && w.spent[e] != [] && StrictlyUp(w.spent[e]))
    && (e in w.winners ==> w.winners[e] in w.calls && w.calls[w.winners[e]].pc == Enrolment.Activated(e))
  }

  ghost predicate WinnerKept(w: World, c: CallId) {
    c in w.calls && w.calls[c].pc.Activated? ==>
      w.calls[c].pc.enrolmentId in w.winners && w.winners[w.calls[c].pc.enrolmentId] == c
  }

  lemma RowStep(w: World, s: Step, user: UserId)
    requires Applies(w, s) && RowKept(w, user)
    requires forall e :: e in w.winners ==> e in w.issued
    requires s.Consume? || s.Win? ==> RowKept(w, w.calls[s.c].user)
    ensures RowKept(Stepped(w, s), user)
  {
    if s.Win? {
      WinKeepsRow(w, s, user);
    } else if s.Consume? {
      ConsumeKeepsRow(w, s, user);
    } else if s.Insert? {
      InsertKeepsRow(w, s, user);
    }
  }

  lemma WinKeepsRow(w: World, s: Step, user: UserId)
    requires Applies(w, s) && RowKept(w, user) && s.Win? && RowKept(w, w.calls[s.c].user)
    ensures RowKept(Stepped(w, s), user)
  {
  }

  lemma ConsumeKeepsRow(w: World, s: Step, user: UserId)
    requires Applies(w, s) && RowKept(w, user) && s.Consume? && RowKept(w, w.calls[s.c].user)
    ensures RowKept(Stepped(w, s), user)
  {
  }

  lemma InsertKeepsRow(w: World, s: Step, user: UserId)
    requires Applies(w, s) && RowKept(w, user) && s.Insert?
    requires forall e :: e in w.winners ==> e in w.issued
    ensures RowKept(Stepped(w, s), user)
  {
  }

  lemma EnrolmentStep(w: World, s: Step, e: EnrolmentId)
    requires Applies(w, s) && EnrolmentKept(w, e)
    requires s.Consume? || s.Win? ==> RowKept(w, w.calls[s.c].user)
    ensures EnrolmentKept(Stepped(w, s), e)
  {
    if s.Win? {
      WinKeepsEnrolment(w, s, e);
    } else if s.Consume? {
      ConsumeKeepsEnrolment(w, s, e);
    }
  }

  lemma WinKeepsEnrolment(w: World, s: Step, e: EnrolmentId)
    requires Applies(w, s) && EnrolmentKept(w, e) && s.Win? && RowKept(w, w.calls[s.c].user)
    ensures EnrolmentKept(Stepped(w, s), e)
  {
  }

  lemma ConsumeKeepsEnrolment(w: World, s: Step, e: EnrolmentId)
    requires Applies(w, s) && EnrolmentKept(w, e) && s.Consume? && RowKept(w, w.calls[s.c].user)
    ensures EnrolmentKept(Stepped(w, s), e)
  {
  }

  lemma WinnerStep(w: World, s: Step, c: CallId)
    requires Applies(w, s) && WinnerKept(w, c)
    requires s.Win? ==> RowKept(w, w.calls[s.c].user)
    ensures WinnerKept(Stepped(w, s), c)
  {
  }

  ghost predicate ActivationKept(w: World) {
    && (forall user :: RowKept(w, user))
    && (forall e :: EnrolmentKept(w, e))
    && (forall c :: WinnerKept(w, c))
  }

  lemma ActivationStep(w: World, s: Step)
    requires Applies(w, s) && ActivationKept(w)
    ensures ActivationKept(Stepped(w, s))
  {
    assert s.Win? || s.Consume? ==> RowKept(w, w.calls[s.c].user);
    forall e ensures EnrolmentKept(Stepped(w, s), e) {
      assert EnrolmentKept(w, e);
      EnrolmentStep(w, s, e);
    }
    forall user ensures RowKept(Stepped(w, s), user) {
      assert RowKept(w, user);
      assert forall e :: e in w.winners ==> EnrolmentKept(w, e);
      RowStep(w, s, user);
    }
    forall c ensures WinnerKept(Stepped(w, s), c) {
      assert WinnerKept(w, c);
      WinnerStep(w, s, c);
    }
  }

  // ----- settlement -----

  predicate IsCodeOf(t: MfaTables, user: UserId, id: CodeId) {
    id in t.codes && t.codes[id].userId == user
  }

  /** The user's codes are the settled ones, under the settled ids, in order; some may have been used. */
  ghost predicate CodesStored(t: MfaTables, user: UserId, agreed: Settlement) {
    && |agreed.ids| == |agreed.setup.codes| && NoDuplicates(agreed.ids) && Sorted(agreed.ids, ByUnits())
    && (forall id :: IsCodeOf(t, user, id) <==> id in Elements(agreed.ids))
    && forall i :: 0 <= i < |agreed.ids| ==> agreed.ids[i] in t.codes && t.codes[agreed.ids[i]].code.plain == agreed.setup.codes[i]
  }

  predicate NoCodes(t: MfaTables, user: UserId) {
    forall id :: id in t.codes ==> t.codes[id].userId != user
  }

  /** Nobody has used a recovery code of the user's enrolment. */
  predicate NoCodeUsed(t: MfaTables, user: UserId) {
    forall id :: id in t.codes && t.codes[id].userId == user ==> !t.codes[id].used
  }

  /** Who is enrolled is settled, with the codes that were handed out. */
  ghost predicate SettledKept(w: World, user: UserId) {
    if user in w.settled then
      && user in w.mfa.totp
      && w.mfa.totp[user].enrolmentId == w.settled[user].setup.enrolmentId
      && w.mfa.totp[user].secret.plain == w.settled[user].setup.secret
      && CodesStored(w.mfa, user, w.settled[user])
    else
      user !in w.mfa.totp && NoCodes(w.mfa, user)
  }

  ghost predicate CodesIssued(w: World) {
    forall id :: id in w.mfa.codes ==> id in w.issuedCodes
  }

  /**
   * What a call begun since the last deletion has read still holds, and what it returned is what was
   * settled as long as no code has been used. Only such calls find the factor verified and it stays so.
   */
  ghost predicate CallKept(w: World, c: CallId) {
    c in w.calls && c !in w.stale ==>
      var user, pc := w.calls[c].user, w.calls[c].pc;
      && (pc.Replaying? ==>
            && user in w.mfa.totp && w.mfa.totp[user].enrolmentId == pc.row.enrolmentId && w.mfa.totp[user].secret == pc.row.secret)
      && (pc.Returned? ==> user in w.settled && user in w.mfa.totp && (NoCodeUsed(w.mfa, user) ==> pc.setup == w.settled[user].setup))
      && (pc.Checked? || pc.Consuming? ==> user in w.mfa.totp && w.mfa.totp[user].verified)
  }

  /** A code used before activation was used by a call under way when the last enrolment was deleted. */
  ghost predicate UseKept(w: World, user: UserId) {
    user in w.mfa.totp && !w.mfa.totp[user].verified && !NoCodeUsed(w.mfa, user) ==>
      exists c :: c in w.stale && c in w.calls && w.calls[c].user == user && w.calls[c].pc.Done?
  }

  /** Inserting settles the user's enrolment: the codes handed out are stored, in order, and unused. */
  lemma InsertionSettles(w: World, s: Step)
    requires Applies(w, s) && s.Insert? && WinsInsertion(w, s) && CodesIssued(w) && NoCodes(w.mfa, w.calls[s.c].user)
    ensures CodesStored(Stepped(w, s).mfa, w.calls[s.c].user, Settlement(s.draft.setup, DraftIds(s.draft)))
    ensures NoCodeUsed(Stepped(w, s).mfa, w.calls[s.c].user)
  {
    var user, d, t' := w.calls[s.c].user, s.draft, Stepped(w, s).mfa;
    var added := SealedCodes(s.ring, user, d);
    DraftIdsAreSorted(d);
    WithCodesKeys(w.mfa.codes, user, added);
    forall i | 0 <= i < RECOVERY_CODES ensures DraftIds(d)[i] in t'.codes && t'.codes[DraftIds(d)[i]] == CodeRow(user, Encrypt(s.ring, d.setup.codes[i], user), false) {
      AddedCode(w.mfa.codes, user, added, d, s.ring, i);
    }
    forall id | id in t'.codes ensures if id in Elements(DraftIds(d)) then t'.codes[id].userId == user && !t'.codes[id].used else t'.codes[id].userId != user {
      WithCodesAt(w.mfa.codes, user, added, id);
      DraftedIds(s.ring, user, d, id);
    }
  }

  lemma DraftedIds(ring: KeyRing, user: UserId, d: Draft, id: CodeId)
    requires IsDraft(d)
    ensures id in CodeIds(SealedCodes(ring, user, d)) <==> id in Elements(DraftIds(d))
  {
    var added := SealedCodes(ring, user, d);
    if id in CodeIds(added) {
      var c :| c in added && c.id == id;
      var i :| 0 <= i < |added| && added[i] == c;
      assert DraftIds(d)[i] == id;
    }
    if id in Elements(DraftIds(d)) {
      var i :| 0 <= i < |DraftIds(d)| && DraftIds(d)[i] == id;
      assert added[i].id == id && added[i] in added;
    }
  }

  lemma AddedCode(codes: map<CodeId, CodeRow>, user: UserId, added: seq<NewCode>, d: Draft, ring: KeyRing, i: nat)
    requires IsDraft(d) && i < RECOVERY_CODES && added == SealedCodes(ring, user, d)
    ensures DraftIds(d)[i] in WithCodes(codes, user, added)
    ensures WithCodes(codes, user, added)[DraftIds(d)[i]] == CodeRow(user, Encrypt(ring, d.setup.codes[i], user), false)
  {
    var id := DraftIds(d)[i];
    assert added[i] in added && added[i].id == id;
    WithCodesKeys(codes, user, added);
    WithCodesAt(codes, user, added, id);
    var c :| c in added && c.id == id && WithCodes(codes, user, added)[id] == CodeRow(user, c.sealed, false);
    var j :| 0 <= j < |added| && added[j] == c;
    DraftIdsAreSorted(d);
    assert DraftIds(d)[j] == id;
  }

  lemma InsertionLeavesOthers(w: World, s: Step, other: UserId)
    requires Applies(w, s) && s.Insert? && WinsInsertion(w, s) && CodesIssued(w) && other != w.calls[s.c].user
    ensures SameFor(w.mfa, Stepped(w, s).mfa, other)
  {
    var user, t' := w.calls[s.c].user, Stepped(w, s).mfa;
    var added := SealedCodes(s.ring, user, s.draft);
    WithCodesKeys(w.mfa.codes, user, added);
    forall id | id in t'.codes ensures if id in CodeIds(added) then t'.codes[id].userId == user else id in w.mfa.codes && t'.codes[id] == w.mfa.codes[id] {
      WithCodesAt(w.mfa.codes, user, added, id);
    }
    forall id | id in w.mfa.codes ensures id !in CodeIds(added) && id in t'.codes {
      DraftedIds(s.ring, user, s.draft, id);
    }
  }

  lemma CodesIssuedStep(w: World, s: Step)
    requires Applies(w, s) && CodesIssued(w)
    ensures CodesIssued(Stepped(w, s))
  {
    if WinsInsertion(w, s) {
      var user := w.calls[s.c].user;
      WithCodesKeys(w.mfa.codes, user, SealedCodes(s.ring, user, s.draft));
      forall id | id in Stepped(w, s).mfa.codes ensures id in Stepped(w, s).issuedCodes {
        DraftedIds(s.ring, user, s.draft, id);
      }
    }
  }

  /** The tables of a user that a step of somebody else leaves as they are. */
  ghost predicate SameFor(t: MfaTables, t': MfaTables, user: UserId) {
    && (user in t.totp <==> user in t'.totp) && (user in t.totp ==> t'.totp[user] == t.totp[user])
    && (forall id :: IsCodeOf(t', user, id) <==> IsCodeOf(t, user, id))
    && (forall id :: IsCodeOf(t, user, id) ==> t'.codes[id] == t.codes[id])
  }

  /** The user whose rows a step may write. */
  function WriterOf(w: World, s: Step): Option<UserId> {
    match s
    case Insert(c, _, _) => if c in w.calls then Some(w.calls[c].user) else None
    case Win(c) => if c in w.calls then Some(w.calls[c].user) else None
    case Consume(c) => if c in w.calls then Some(w.calls[c].user) else None
    case Unenrol(user) => Some(user)
    case _ => None
  }

  lemma OthersKeepTheirRows(w: World, s: Step, user: UserId)
    requires Applies(w, s) && CodesIssued(w) && WriterOf(w, s) != Some(user)
    ensures SameFor(w.mfa, Stepped(w, s).mfa, user)
  {
    if WinsInsertion(w, s) {
      InsertionLeavesOthers(w, s, user);
    }
  }

  lemma SameUse(t: MfaTables, t': MfaTables, user: UserId)
    requires SameFor(t, t', user)
    ensures NoCodeUsed(t, user) <==> NoCodeUsed(t', user)
    ensures NoCodes(t, user) <==> NoCodes(t', user)
  {
    assert forall id :: id in t.codes && t.codes[id].userId == user <==> IsCodeOf(t, user, id);
    assert forall id :: id in t'.codes && t'.codes[id].userId == user <==> IsCodeOf(t', user, id);
  }

  lemma SameKeepsSettled(w: World, w': World, user: UserId)
    requires SettledKept(w, user) && SameFor(w.mfa, w'.mfa, user)
    requires (user in w'.settled <==> user in w.settled) && (user in w.settled ==> w'.settled[user] == w.settled[user])
    ensures SettledKept(w', user)
  {
    SameUse(w.mfa, w'.mfa, user);
    if user in w.settled {
      var agreed := w.settled[user];
      forall i | 0 <= i < |agreed.ids| ensures agreed.ids[i] in w'.mfa.codes && w'.mfa.codes[agreed.ids[i]] == w.mfa.codes[agreed.ids[i]] {
        assert agreed.ids[i] in Elements(agreed.ids);
        assert IsCodeOf(w.mfa, user, agreed.ids[i]);
      }
    }
  }

  /** Using a code, or a time step, leaves the codes stored as they were handed out. */
  lemma ConsumptionKeepsCodes(t: MfaTables, user: UserId, m: Matched, agreed: Settlement)
    requires CodesStored(t, user, agreed)
    ensures CodesStored(Consumed(t, user, m), user, agreed)
    ensures NoCodeUsed(Consumed(t, user, m), user) ==> NoCodeUsed(t, user)
  {
    var t' := Consumed(t, user, m);
    assert forall id :: IsCodeOf(t', user, id) <==> IsCodeOf(t, user, id);
    forall id | IsCodeOf(t, user, id) && t.codes[id].used ensures id in t'.codes && t'.codes[id].userId == user && t'.codes[id].used {
    }
  }

  lemma SettledStep(w: World, s: Step, user: UserId)
    requires Applies(w, s) && CodesIssued(w) && SettledKept(w, user)
    ensures SettledKept(Stepped(w, s), user)
  {
    if WriterOf(w, s) != Some(user) {
      OthersKeepTheirRows(w, s, user);
      SameKeepsSettled(w, Stepped(w, s), user);
    } else if WinsInsertion(w, s) {
      InsertionSettles(w, s);
    } else if s.Consume? && user in w.settled {
      ConsumptionKeepsCodes(w.mfa, user, w.calls[s.c].pc.matched, w.settled[user]);
    }
  }

  // ----- calls -----

  /** The listing of an enrolment with no code used is the settled one; with one used it is shorter. */
  lemma ListingIff(t: MfaTables, user: UserId, agreed: Settlement, listing: seq<CodeId>)
    requires CodesStored(t, user, agreed) && IsListing(t, user, listing)
    ensures listing == agreed.ids <==> NoCodeUsed(t, user)
  {
    if NoCodeUsed(t, user) {
      forall id ensures id in Elements(listing) <==> id in Elements(agreed.ids) {
        assert id in Elements(listing) <==> id in UnusedCodesOf(t, user);
        assert IsCodeOf(t, user, id) <==> id in Elements(agreed.ids);
      }
      OneListing(listing, agreed.ids);
    } else {
      var id :| id in t.codes && t.codes[id].userId == user && t.codes[id].used;
      assert IsCodeOf(t, user, id) && id in Elements(agreed.ids);
      assert id !in UnusedCodesOf(t, user) && id !in Elements(listing);
    }
  }

  /** And so are its codes: a different listing has fewer of them. */
  lemma ShorterListing(t: MfaTables, user: UserId, agreed: Settlement, listing: seq<CodeId>)
    requires CodesStored(t, user, agreed) && IsListing(t, user, listing) && !NoCodeUsed(t, user)
    ensures |listing| < |agreed.ids|
  {
    var id :| id in t.codes && t.codes[id].userId == user && t.codes[id].used;
    assert IsCodeOf(t, user, id);
    forall x | x in Elements(listing) ensures x in Elements(agreed.ids) - {id} {
      assert x in UnusedCodesOf(t, user);
      assert IsCodeOf(t, user, x);
    }
    SizeOfDistinct(listing);
    SizeOfDistinct(agreed.ids);
    SizeOfSubset(Elements(listing), Elements(agreed.ids) - {id});
  }

  lemma {:induction false} SizeOfDistinct(ids: seq<CodeId>)
    requires NoDuplicates(ids)
    ensures |Elements(ids)| == |ids|
  {
    if ids != [] {
      var init, last := ids[..|ids| - 1], ids[|ids| - 1];
      SizeOfDistinct(init);
      assert forall x :: x in ids <==> x in init || x == last;
      assert Elements(ids) == Elements(init) + {last} && last !in init;
    }
  }

  lemma {:induction false} SizeOfSubset(a: set<CodeId>, b: set<CodeId>)
    requires a <= b
    ensures |a| <= |b|
  {
    if x :| x in a {
      SizeOfSubset(a - {x}, b - {x});
    }
  }

  /** Replaying an enrolment gives back what was settled, exactly as long as no recovery code has been used. */
  lemma ReplayIsSettledIff(w: World, c: CallId, ring: KeyRing, listing: seq<CodeId>)
    requires Applies(w, Replay(c, ring, listing)) && SettledKept(w, w.calls[c].user) && CallKept(w, c) && c !in w.stale
    ensures var pc := AfterReplay(w.mfa, ring, w.calls[c].user, w.calls[c].pc.row, listing);
            pc.Returned? ==> (pc.setup == w.settled[w.calls[c].user].setup <==> NoCodeUsed(w.mfa, w.calls[c].user))
  {
    var user := w.calls[c].user;
    var agreed := w.settled[user];
    var replayed := Replayed(w.mfa, ring, user, w.calls[c].pc.row, listing);
    if replayed.Some? {
      assert forall i :: 0 <= i < |listing| ==> listing[i] in listing;
      if NoCodeUsed(w.mfa, user) {
        ListingIff(w.mfa, user, agreed, listing);
        assert replayed.value.codes == agreed.setup.codes;
      } else {
        ShorterListing(w.mfa, user, agreed, listing);
        assert |replayed.value.codes| < |agreed.setup.codes|;
      }
    }
  }

  /** Who is verified by then is turned away; otherwise, while no code is used and all is readable, what was settled comes back. */
  lemma ReplayDecides(w: World, c: CallId, ring: KeyRing, listing: seq<CodeId>)
    requires Applies(w, Replay(c, ring, listing)) && SettledKept(w, w.calls[c].user) && CallKept(w, c) && c !in w.stale
    requires NoCodeUsed(w.mfa, w.calls[c].user) && Decrypt(ring, w.calls[c].pc.row.secret, w.calls[c].user).Some?
    requires forall id :: IsCodeOf(w.mfa, w.calls[c].user, id) ==> Decrypt(ring, w.mfa.codes[id].code, w.calls[c].user).Some?
    ensures Stepped(w, Replay(c, ring, listing)).calls[c].pc ==
            if w.calls[c].pc.row.verified then Ended(AlreadyEnabled) else Returned(w.settled[w.calls[c].user].setup)
  {
    var user := w.calls[c].user;
    ReplayIsSettledIff(w, c, ring, listing);
    forall id | id in listing ensures IsCodeOf(w.mfa, user, id) {
      assert id in Elements(listing) && id in UnusedCodesOf(w.mfa, user);
    }
    assert Replayed(w.mfa, ring, user, w.calls[c].pc.row, listing).Some?;
  }

  /** A row keeps its enrolment and secret until it is deleted, and once verified stays so. */
  lemma RowsStay(w: World, s: Step, user: UserId)
    requires Applies(w, s) && user in w.mfa.totp && s != Unenrol(user)
    ensures user in Stepped(w, s).mfa.totp
    ensures var row, row' := w.mfa.totp[user], Stepped(w, s).mfa.totp[user];
            row'.enrolmentId == row.enrolmentId && row'.secret == row.secret && (row.verified ==> row'.verified)
  {
  }

  /** And what was settled stays settled; codes once used stay used. */
  lemma SettlementsStay(w: World, s: Step, user: UserId)
    requires Applies(w, s) && CodesIssued(w) && SettledKept(w, user) && user in w.settled && s != Unenrol(user)
    ensures user in Stepped(w, s).settled && Stepped(w, s).settled[user] == w.settled[user]
    ensures NoCodeUsed(Stepped(w, s).mfa, user) ==> NoCodeUsed(w.mfa, user)
  {
    if WriterOf(w, s) != Some(user) {
      OthersKeepTheirRows(w, s, user);
      SameUse(w.mfa, Stepped(w, s).mfa, user);
    } else if s.Consume? {
      ConsumptionKeepsCodes(w.mfa, user, w.calls[s.c].pc.matched, w.settled[user]);
    }
  }

  lemma BystanderKept(w: World, s: Step, c: CallId)
    requires Applies(w, s) && CodesIssued(w) && CallKept(w, c) && (c in w.calls ==> SettledKept(w, w.calls[c].user))
    requires MoverOf(s) != Some(c)
    ensures CallKept(Stepped(w, s), c)
  {
    if c in w.calls && c !in Stepped(w, s).stale {
      var user := w.calls[c].user;
      assert s != Unenrol(user);
      if user in w.mfa.totp {
        RowsStay(w, s, user);
      }
      if user in w.settled {
        SettlementsStay(w, s, user);
      }
    }
  }

  lemma MoverKept(w: World, s: Step, c: CallId)
    requires Applies(w, s) && CodesIssued(w) && CallKept(w, c) && c in w.calls && SettledKept(w, w.calls[c].user)
    requires MoverOf(s) == Some(c)
    ensures CallKept(Stepped(w, s), c)
  {
    if s.Replay? && c !in w.stale {
      ReplayIsSettledIff(w, c, s.ring, s.listing);
    }
  }

  lemma CallStep(w: World, s: Step, c: CallId)
    requires Applies(w, s) && CodesIssued(w) && CallKept(w, c) && (c in w.calls ==> SettledKept(w, w.calls[c].user))
    ensures CallKept(Stepped(w, s), c)
  {
    if MoverOf(s) == Some(c) {
      MoverKept(w, s, c);
    } else {
      BystanderKept(w, s, c);
    }
  }

  // ----- codes used before activation -----

  /** Only a call under way when the last enrolment was deleted can use a code of one not activated yet. */
  lemma OnlyStaleCallsUse(w: World, s: Step)
    requires Applies(w, s) && s.Consume? && CallKept(w, s.c)
    requires var user := w.calls[s.c].user; user in w.mfa.totp && !w.mfa.totp[user].verified
    ensures s.c in w.stale
  {
  }

  lemma DoneStays(w: World, s: Step, c: CallId)
    requires Applies(w, s) && c in w.calls && w.calls[c].pc.Done?
    ensures c in Stepped(w, s).calls && Stepped(w, s).calls[c] == w.calls[c] && w.stale <= Stepped(w, s).stale
  {
  }

  lemma UseStep(w: World, s: Step, user: UserId)
    requires Applies(w, s) && CodesIssued(w) && SettledKept(w, user) && UseKept(w, user)
    requires s.Consume? ==> CallKept(w, s.c)
    ensures UseKept(Stepped(w, s), user)
  {
    var w' := Stepped(w, s);
    if user in w'.mfa.totp && !w'.mfa.totp[user].verified && !NoCodeUsed(w'.mfa, user) {
      if user in w.mfa.totp && !NoCodeUsed(w.mfa, user) {
        RowsStay(w, s, user);
        var c :| c in w.stale && c in w.calls && w.calls[c].user == user && w.calls[c].pc.Done?;
        DoneStays(w, s, c);
      } else {
        FirstUse(w, s, user);
      }
    }
  }

  /** The step that uses the first code of an enrolment not activated yet is taken by a stale call. */
  lemma FirstUse(w: World, s: Step, user: UserId)
    requires Applies(w, s) && CodesIssued(w) && SettledKept(w, user) && (s.Consume? ==> CallKept(w, s.c))
    requires user in w.mfa.totp ==> NoCodeUsed(w.mfa, user)
    requires user in Stepped(w, s).mfa.totp && !Stepped(w, s).mfa.totp[user].verified && !NoCodeUsed(Stepped(w, s).mfa, user)
    ensures s.Consume? && s.c in w.stale && w.calls[s.c].user == user && Stepped(w, s).calls[s.c].pc.Done?
  {
    if WriterOf(w, s) != Some(user) {
      OthersKeepTheirRows(w, s, user);
      SameUse(w.mfa, Stepped(w, s).mfa, user);
    } else if WinsInsertion(w, s) {
      InsertionSettles(w, s);
    } else if s.Consume? {
      OnlyStaleCallsUse(w, s);
    }
  }

  ghost predicate SettlementKept(w: World) {
    && CodesIssued(w)
    && (forall user :: SettledKept(w, user))
    && (forall user :: UseKept(w, user))
    && (forall c :: CallKept(w, c))
  }

  lemma SettlementStep(w: World, s: Step)
    requires Applies(w, s) && SettlementKept(w)
    ensures SettlementKept(Stepped(w, s))
  {
    CodesIssuedStep(w, s);
    assert s.Consume? ==> CallKept(w, s.c);
    forall user ensures SettledKept(Stepped(w, s), user) && UseKept(Stepped(w, s), user) {
      assert SettledKept(w, user) && UseKept(w, user);
      SettledStep(w, s, user);
      UseStep(w, s, user);
    }
    forall c ensures CallKept(Stepped(w, s), c) {
      assert CallKept(w, c);
      assert c in w.calls ==> SettledKept(w, w.calls[c].user);
      CallStep(w, s, c);
    }
  }

  // ----- the theorems -----

  lemma {:induction false} KeptOverRuns(hotp: Hotp, steps: seq<Step>)
    requires Possible(hotp, steps)
    ensures ActivationKept(RunOf(steps)) && SettlementKept(RunOf(steps))
    decreases |steps|
  {
    if steps != [] {
      KeptOverRuns(hotp, steps[..|steps| - 1]);
      ActivationStep(RunOf(steps[..|steps| - 1]), steps[|steps| - 1]);
      SettlementStep(RunOf(steps[..|steps| - 1]), steps[|steps| - 1]);
    }
  }

  /** Two calls of one user that have returned an enrolment, both begun since the last deletion of one. */
  ghost predicate BothReturned(w: World, c: CallId, d: CallId) {
    && c in w.calls && w.calls[c].pc.Returned? && d in w.calls && w.calls[d].pc.Returned?
    && w.calls[c].user == w.calls[d].user && c !in w.stale && d !in w.stale
  }

  /**
   * As long as none of the recovery codes has been used, all enrolment calls of a user that succeeded with
   * no deletion in between have returned the same enrolment id, the same secret, and the same recovery
   * codes in the same order.
   */
  lemma EnrolmentIsSettledOnce(hotp: Hotp, steps: seq<Step>, c: CallId, d: CallId)
    requires Possible(hotp, steps) && BothReturned(RunOf(steps), c, d)
    requires NoCodeUsed(RunOf(steps).mfa, RunOf(steps).calls[c].user)
    ensures RunOf(steps).calls[c].pc.setup == RunOf(steps).calls[d].pc.setup
  {
    KeptOverRuns(hotp, steps);
    assert CallKept(RunOf(steps), c) && CallKept(RunOf(steps), d);
  }

  /**
   * So they have until activation, unless a call that was consuming a code when the last enrolment was
   * deleted has consumed one since.
   */
  lemma SettledUntilActivation(hotp: Hotp, steps: seq<Step>, c: CallId, d: CallId)
    requires Possible(hotp, steps) && BothReturned(RunOf(steps), c, d)
    requires var w := RunOf(steps);
             var user := w.calls[c].user;
             && (user in w.mfa.totp ==> !w.mfa.totp[user].verified)
             && forall e :: e in w.stale && e in w.calls && w.calls[e].user == user ==> !w.calls[e].pc.Done?
    ensures RunOf(steps).calls[c].pc.setup == RunOf(steps).calls[d].pc.setup
  {
    KeptOverRuns(hotp, steps);
    var w := RunOf(steps);
    assert CallKept(w, c) && UseKept(w, w.calls[c].user);
    EnrolmentIsSettledOnce(hotp, steps, c, d);
  }

  /** Stale is who was there when the user's second factor was deleted. */
  lemma {:induction false} StaleMeansDeletedSince(hotp: Hotp, steps: seq<Step>, c: CallId)
    requires Possible(hotp, steps) && c in RunOf(steps).calls
    ensures c in RunOf(steps).stale <==> exists j :: DeletedAt(steps, j, c, RunOf(steps).calls[c].user)
    decreases |steps|
  {
    var n := |steps| - 1;
    var w, user := RunOf(steps[..n]), RunOf(steps).calls[c].user;
    StaleAreCalls(hotp, steps[..n]);
    StaleStep(w, steps[n], c);
    LastDeletion(steps, c, user);
    forall j ensures DeletedAt(steps, j, c, user) <==> DeletedAt(steps[..n], j, c, user) || (j == n && DeletedAt(steps, n, c, user)) {
      DeletionBefore(steps, j, c, user);
    }
    if c in w.calls {
      StaleMeansDeletedSince(hotp, steps[..n], c);
    } else {
      forall j ensures !DeletedAt(steps[..n], j, c, user) {
        if DeletedAt(steps[..n], j, c, user) {
          CallsStay(hotp, steps[..n], j, c);
        }
      }
    }
  }

  /** The step at `j` deletes the user's second factor while the call is there. */
  ghost predicate DeletedAt(steps: seq<Step>, j: int, c: CallId, user: UserId) {
    0 <= j < |steps| && steps[j] == Unenrol(user) && c in RunOf(steps[..j]).calls
  }

  lemma DeletionBefore(steps: seq<Step>, j: int, c: CallId, user: UserId)
    requires steps != []
    ensures var n := |steps| - 1;
            DeletedAt(steps, j, c, user) <==> DeletedAt(steps[..n], j, c, user) || (j == n && DeletedAt(steps, n, c, user))
  {
    if 0 <= j < |steps| - 1 {
      assert steps[..|steps| - 1][..j] == steps[..j];
    }
  }

  lemma LastDeletion(steps: seq<Step>, c: CallId, user: UserId)
    requires steps != []
    ensures var n := |steps| - 1;
            DeletedAt(steps, n, c, user) <==> steps[n] == Unenrol(user) && c in RunOf(steps[..n]).calls
  {
  }

  lemma {:induction false} StaleAreCalls(hotp: Hotp, steps: seq<Step>)
    requires Possible(hotp, steps)
    ensures RunOf(steps).stale <= RunOf(steps).calls.Keys
    decreases |steps|
  {
    if steps != [] {
      StaleAreCalls(hotp, steps[..|steps| - 1]);
    }
  }

  lemma StaleStep(w: World, s: Step, c: CallId)
    requires Applies(w, s) && c in Stepped(w, s).calls
    ensures c in w.calls ==> w.calls[c].user == Stepped(w, s).calls[c].user
    ensures c in Stepped(w, s).stale <==> c in w.stale || (c in w.calls && s == Unenrol(w.calls[c].user))
  {
  }

  lemma {:induction false} CallsStay(hotp: Hotp, steps: seq<Step>, j: nat, c: CallId)
    requires Possible(hotp, steps) && j <= |steps| && c in RunOf(steps[..j]).calls
    ensures c in RunOf(steps).calls
    decreases |steps|
  {
    if j < |steps| {
      assert steps[..|steps| - 1][..j] == steps[..j];
      CallsStay(hotp, steps[..|steps| - 1], j, c);
    } else {
      assert steps[..j] == steps;
    }
  }

  /** No enrolment is activated by two calls, and an enrolment is verified exactly when one call has activated it. */
  lemma ActivationIsWonOnce(hotp: Hotp, steps: seq<Step>, c: CallId, d: CallId)
    requires Possible(hotp, steps)
    requires var w := RunOf(steps);
             c in w.calls && w.calls[c].pc.Activated? && d in w.calls && w.calls[d].pc == w.calls[c].pc
    ensures c == d
  {
    KeptOverRuns(hotp, steps);
    assert WinnerKept(RunOf(steps), c) && WinnerKept(RunOf(steps), d);
  }

  lemma VerifiedMeansWon(hotp: Hotp, steps: seq<Step>, user: UserId)
    requires Possible(hotp, steps) && user in RunOf(steps).mfa.totp
    ensures var w := RunOf(steps);
            w.mfa.totp[user].verified <==>
            exists c :: c in w.calls && w.calls[c].pc == Enrolment.Activated(w.mfa.totp[user].enrolmentId)
  {
    KeptOverRuns(hotp, steps);
    var w := RunOf(steps);
    var e := w.mfa.totp[user].enrolmentId;
    assert RowKept(w, user) && EnrolmentKept(w, e);
    if w.mfa.totp[user].verified {
      assert w.calls[w.winners[e]].pc == Enrolment.Activated(e);
    }
    if c :| c in w.calls && w.calls[c].pc == Enrolment.Activated(e) {
      assert WinnerKept(w, c);
    }
  }

  /**
   * From the activating one on, the time steps an enrolment has spent only go up, and nothing that could
   * still be consumed is among them: the activating code can never be used again.
   */
  lemma SpentOnlyGoesUp(hotp: Hotp, steps: seq<Step>, user: UserId, timestep: int)
    requires Possible(hotp, steps) && user in RunOf(steps).mfa.totp && RunOf(steps).mfa.totp[user].verified
    ensures var w := RunOf(steps);
            var e := w.mfa.totp[user].enrolmentId;
            && e in w.spent && w.spent[e] != [] && StrictlyUp(w.spent[e])
            && (ConsumesTimestep(w.mfa, user, timestep) ==> timestep !in w.spent[e])
  {
    KeptOverRuns(hotp, steps);
    SpentIsNotConsumable(RunOf(steps), user, timestep);
  }

  lemma SpentIsNotConsumable(w: World, user: UserId, timestep: int)
    requires user in w.mfa.totp && w.mfa.totp[user].verified && ActivationKept(w)
    ensures var e := w.mfa.totp[user].enrolmentId;
            && e in w.spent && w.spent[e] != [] && StrictlyUp(w.spent[e])
            && (ConsumesTimestep(w.mfa, user, timestep) ==> timestep !in w.spent[e])
  {
    var e := w.mfa.totp[user].enrolmentId;
    assert RowKept(w, user) && EnrolmentKept(w, e);
    LastIsGreatest(w.spent[e], timestep);
  }

  lemma LastIsGreatest(steps: seq<int>, step: int)
    requires StrictlyUp(steps) && steps != []
    ensures step in steps ==> step <= steps[|steps| - 1]
  {
  }
}
