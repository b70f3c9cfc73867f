/**
 * What every transaction comes to, said of the rows: exactly when it succeeds, which failure it reports
 * otherwise, and every table afterwards. OrgDatabase states the same of the methods.
 */
module OrgEffects {
  import opened Prelude
  import opened OrgModel
  import opened OrgGuards
  import opened OrgTransactions
  import opened OrgInvariants

  /** Somebody other than `u` is an OWNER of the company. */
  ghost predicate OwnedBesides(m: Members, u: UserId, c: CompanyId) {
    exists v :: v != u && (v, c) in m && m[(v, c)].role == OWNER
  }

  ghost predicate IsMemberOfActive(db: Db, u: UserId, c: CompanyId) {
    (u, c) in db.members && c in db.companies && db.companies[c].status == ACTIVE
  }

  ghost predicate Belongs(db: Db, u: UserId) {
    exists c :: IsMemberOfActive(db, u, c)
  }

  ghost predicate BelongsBesides(db: Db, u: UserId, c: CompanyId) {
    exists d :: d != c && IsMemberOfActive(db, u, d)
  }

  /** The company current after leaving: of the ACTIVE ones the user is in, the one joined first. */
  ghost predicate IsNext(db: Db, u: UserId, next: Option<CompanyId>) {
    match next
    case None => !Belongs(db, u)
    case Some(c) =>
      IsMemberOfActive(db, u, c) &&
      forall d :: IsMemberOfActive(db, u, d) ==>
        var x, y := db.members[(u, c)], db.members[(u, d)];
        x.joinedAt < y.joinedAt || (x.joinedAt == y.joinedAt && x.id <= y.id)
  }

  lemma BelongsMeaning(db: Db, u: UserId)
    ensures ActiveCompaniesOf(db, u) == {} <==> !Belongs(db, u)
  {
    forall c ensures c in ActiveCompaniesOf(db, u) <==> IsMemberOfActive(db, u, c) {
      ActiveMeaning(db, u, c);
    }
  }

  lemma OldestIsNext(db: Db, u: UserId)
    ensures IsNext(db, u, OldestActive(db, u))
  {
    BelongsMeaning(db, u);
    assert forall d :: IsMemberOfActive(db, u, d) ==> IsActive(db, d);
  }

  lemma NoOwnerLeft(m: Members, c: CompanyId)
    ensures OwnersOf(m, c) == {} <==> forall v :: (v, c) in m ==> m[(v, c)].role != OWNER
  {
    SomeOwner(m, c);
    assert forall v: UserId :: HasRole(m, v, c, OWNER) <==> (v, c) in m && m[(v, c)].role == OWNER;
  }

  // ----- roles -----

  /** The new role is the one asked for, in the table and in the log; the company must keep an OWNER. */
  lemma ChangeRoleRows(db: Db, g: RoleChangeGrant)
    ensures ChangeRole(db, g) ==
            if g.targetRole == g.nextRole then Done(db, ())
            else if (g.target, g.company) !in db.members then Abort(NotFound)
            else if g.nextRole != OWNER && !OwnedBesides(db.members, g.target, g.company) then Abort(LastOwner)
            else Done(db.(members := db.members[(g.target, g.company) := db.members[(g.target, g.company)].(role := g.nextRole)],
                          audit := db.audit + [RoleChanged(g.actor, g.company, g.target, g.targetRole, g.nextRole)]), ())
  {
    if g.targetRole != g.nextRole && (g.target, g.company) in db.members {
      var m' := db.members[(g.target, g.company) := db.members[(g.target, g.company)].(role := g.nextRole)];
      NoOwnerLeft(m', g.company);
      assert m'[(g.target, g.company)].role == g.nextRole;
      assert forall v :: v != g.target ==> ((v, g.company) in m' <==> (v, g.company) in db.members);
      assert forall v :: v != g.target && (v, g.company) in m' ==> m'[(v, g.company)] == db.members[(v, g.company)];
    }
  }

  /** The new OWNER is OWNER and the old one ADMIN; whoever transfers to themselves needs another OWNER. */
  lemma TransferRows(db: Db, g: TransferGrant)
    ensures TransferOwnership(db, g) ==
            if (g.to, g.company) !in db.members || (g.actor, g.company) !in db.members then Abort(NotFound)
            else if g.to == g.actor && !OwnedBesides(db.members, g.actor, g.company) then Abort(LastOwner)
            else Done(db.(members := db.members[(g.to, g.company) := db.members[(g.to, g.company)].(role := OWNER)]
                                               [(g.actor, g.company) := db.members[(g.actor, g.company)].(role := ADMIN)],
                          audit := db.audit + [OwnershipTransferred(g.company, g.actor, g.to)]), ())
  {
    if (g.to, g.company) in db.members && (g.actor, g.company) in db.members {
      var m' := db.members[(g.to, g.company) := db.members[(g.to, g.company)].(role := OWNER)]
                          [(g.actor, g.company) := db.members[(g.actor, g.company)].(role := ADMIN)];
      NoOwnerLeft(m', g.company);
      assert g.to != g.actor ==> m'[(g.to, g.company)].role == OWNER;
      assert m'[(g.actor, g.company)].role == ADMIN;
      assert forall v :: v != g.to && v != g.actor && (v, g.company) in m' ==> m'[(v, g.company)] == db.members[(v, g.company)];
      assert forall v :: (v, g.company) in m' <==> (v, g.company) in db.members;
    }
  }

  // ----- accounts -----

  /** A user row goes with its memberships, the invitations it sent, a log row and a session deletion after the commit. */
  ghost predicate AccountsDeleted(before: Db, after: Db, gone: seq<UserId>) {
    after == before.(users := map u | u in before.users && u !in gone :: before.users[u],
                     members := map k | k in before.members && k.0 !in gone :: before.members[k],
                     invitations := map i | i in before.invitations && before.invitations[i].invitedBy !in gone :: before.invitations[i],
                     audit := before.audit + seq(|gone|, i requires 0 <= i < |gone| => AccountDeleted(gone[i])),
                     hooks := before.hooks + gone)
  }

  lemma DeleteAccountRows(db: Db, u: UserId)
    ensures DeleteAccount(db, u).Done? <==> u in db.users
    ensures DeleteAccount(db, u).Done? ==> AccountsDeleted(db, DeleteAccount(db, u).db, [u])
    ensures DeleteAccount(db, u).Abort? ==> DeleteAccount(db, u).failure == NotFound
  {
    if u in db.users {
      var after := DeleteAccount(db, u).db;
      assert after.audit == db.audit + seq(1, i requires 0 <= i < 1 => AccountDeleted([u][i]));
      assert after.users == map v | v in db.users && v !in [u] :: db.users[v];
      assert after.members == map k | k in db.members && k.0 !in [u] :: db.members[k];
      assert after.invitations == map i | i in db.invitations && db.invitations[i].invitedBy !in [u] :: db.invitations[i];
    }
  }

  /** An orphan is an account without a membership of an ACTIVE company. */
  lemma OrphanRows(db: Db, u: UserId)
    ensures DeleteAccountIfOrphaned(db, u).Done?
    ensures var tx := DeleteAccountIfOrphaned(db, u);
            if u in db.users && !Belongs(db, u) then tx.value == Deleted && AccountsDeleted(db, tx.db, [u])
            else tx.value == Kept && tx.db == db
  {
    BelongsMeaning(db, u);
    DeleteAccountRows(db, u);
  }

  /** One's own account can be deleted unless an ACTIVE company would lose its only OWNER. */
  lemma CloseAccountRows(db: Db, u: UserId)
    ensures var tx := DeleteAccountUnlessLastOwner(db, u);
            if exists c :: IsMemberOfActive(db, u, c) && db.members[(u, c)].role == OWNER && !OwnedBesides(db.members, u, c)
            then tx == Abort(LastOwner)
            else if u !in db.users then tx == Abort(NotFound)
            else tx.Done? && AccountsDeleted(db, tx.db, [u])
  {
    DeleteAccountRows(db, u);
    forall c ensures c in CompaniesBlockingDeletion(db, u) <==>
                     IsMemberOfActive(db, u, c) && db.members[(u, c)].role == OWNER && !OwnedBesides(db.members, u, c) {
      SoleOwner(db, u, c);
    }
  }

  lemma SoleOwner(db: Db, u: UserId, c: CompanyId)
    ensures c in CompaniesBlockingDeletion(db, u) <==>
            IsMemberOfActive(db, u, c) && db.members[(u, c)].role == OWNER && !OwnedBesides(db.members, u, c)
  {
    var owners := OwnersOf(db.members, c);
    forall v: UserId ensures v in owners <==> (v, c) in db.members && db.members[(v, c)].role == OWNER {
      OwnersMeaning(db.members, c, v);
    }
    if u in owners && IsActive(db, c) {
      assert (u, c) in db.members && (u, c).0 == u;
      assert owners == {u} + (owners - {u});
      if |owners| != 1 {
        AnotherElement(owners, u);
        var v :| v in owners - {u};
        assert v != u && (v, c) in db.members && db.members[(v, c)].role == OWNER;
      }
    }
  }

  /** Of a list of users, exactly the orphans are deleted, in the order of the list. */
  lemma {:induction false} OrphansRows(db: Db, us: seq<UserId>)
    requires NoDuplicates(us)
    ensures DeleteOrphans(db, us).Done? && AccountsDeleted(db, DeleteOrphans(db, us).db, DeleteOrphans(db, us).value)
    ensures var gone := DeleteOrphans(db, us).value;
            (forall u :: u in gone <==> u in us && u in db.users && !Belongs(db, u)) && (StrictlyAscending(us) ==> StrictlyAscending(gone))
    decreases |us|
  {
    if us == [] {
      NobodyDeleted(db);
    } else {
      var init, u := us[..|us| - 1], us[|us| - 1];
      OrphansRows(db, init);
      var Done(before, gone) := DeleteOrphans(db, init);
      OrphanRows(before, u);
      assert forall v :: v in us <==> v in init || v == u;
      assert u !in init;
      OthersBelong(db, before, gone, u);
      if u in db.users && !Belongs(db, u) {
        OneMore(db, before, DeleteAccountIfOrphaned(before, u).db, gone, u);
        assert forall i :: 0 <= i < |gone| ==> gone[i] in init;
      }
    }
  }

  lemma NobodyDeleted(db: Db)
    ensures AccountsDeleted(db, db, [])
  {
    assert db.audit + [] == db.audit;
    assert db.hooks == db.hooks + [];
  }

  lemma OthersBelong(db: Db, before: Db, gone: seq<UserId>, u: UserId)
    requires AccountsDeleted(db, before, gone) && u !in gone
    ensures (u in before.users <==> u in db.users) && (Belongs(before, u) <==> Belongs(db, u))
  {
    forall c ensures IsMemberOfActive(before, u, c) <==> IsMemberOfActive(db, u, c) {
    }
  }

  lemma OneMore(db: Db, before: Db, after: Db, gone: seq<UserId>, u: UserId)
    requires AccountsDeleted(db, before, gone) && AccountsDeleted(before, after, [u])
    ensures AccountsDeleted(db, after, gone + [u])
  {
    var more := gone + [u];
    OneMoreLogged(db.audit, gone, u);
    assert after.hooks == db.hooks + more;
    assert after.users == map v | v in db.users && v !in more :: db.users[v];
    assert after.members == map k | k in db.members && k.0 !in more :: db.members[k];
    assert after.invitations == map i | i in db.invitations && db.invitations[i].invitedBy !in more :: db.invitations[i];
  }

  lemma OneMoreLogged(log: seq<Event>, gone: seq<UserId>, u: UserId)
    ensures var more := gone + [u];
            log + seq(|gone|, i requires 0 <= i < |gone| => AccountDeleted(gone[i])) + seq(|[u]|, i requires 0 <= i < |[u]| => AccountDeleted([u][i])) ==
            log + seq(|more|, i requires 0 <= i < |more| => AccountDeleted(more[i]))
  {
    var more := gone + [u];
    assert seq(|gone|, i requires 0 <= i < |gone| => AccountDeleted(gone[i])) + seq(|[u]|, i requires 0 <= i < |[u]| => AccountDeleted([u][i])) ==
           seq(|more|, i requires 0 <= i < |more| => AccountDeleted(more[i]));
  }

  // ----- leaving a company -----

  /** What a removal leaves of the rows when the account stays: its pointer moves on if it pointed here. */
  ghost predicate MemberLeft(before: Db, after: Db, g: RemovalGrant) {
    && after.members == before.members - {(g.target, g.company)}
    && after.users.Keys == before.users.Keys
    && (forall v :: v in before.users && !(v == g.target && before.users[v].current == Some(g.company)) ==> after.users[v] == before.users[v])
    && (g.target in before.users && before.users[g.target].current == Some(g.company) ==>
          && after.users[g.target] == before.users[g.target].(current := after.users[g.target].current)
          && IsNext(after, g.target, after.users[g.target].current))
    && after.companies == before.companies && after.invitations == before.invitations && after.issued == before.issued
    && after.audit == before.audit + [MembershipRemoved(g.actor, g.company, g.target, g.targetRole, g.actor == g.target)]
    && after.hooks == before.hooks
  }

  /** A removal fails for a stranger and for the only OWNER; it takes an account with nowhere else to be along. */
  ghost predicate RemovalIs(db: Db, g: RemovalGrant, tx: Tx<Removal>) {
    if (g.target, g.company) !in db.members then tx == Abort(NotFound)
    else if !OwnedBesides(db.members, g.target, g.company) then tx == Abort(LastOwner)
    else tx.Done? && exists left ::
      && MemberLeft(db, left, g)
      && if g.target in db.users && !BelongsBesides(db, g.target, g.company)
         then tx.value == Deleted && AccountsDeleted(left, tx.db, [g.target])
         else tx.value == Kept && tx.db == left
  }

  lemma RemovalRows(db: Db, g: RemovalGrant)
    ensures RemovalIs(db, g, RemoveMember(db, g))
  {
    if (g.target, g.company) in db.members {
      var m := db.members - {(g.target, g.company)};
      NoOwnerLeft(m, g.company);
      assert forall v :: v != g.target && (v, g.company) in db.members ==> (v, g.company) in m && m[(v, g.company)] == db.members[(v, g.company)];
      if OwnedBesides(db.members, g.target, g.company) {
        var left := AfterRemoval(db, g);
        AfterRemovalRows(db, g);
        OrphanRows(left, g.target);
        assert Belongs(left, g.target) <==> BelongsBesides(db, g.target, g.company) by {
          assert forall c :: IsMemberOfActive(left, g.target, c) <==> c != g.company && IsMemberOfActive(db, g.target, c);
        }
        assert MemberLeft(db, left, g);
      }
    }
  }

  lemma AfterRemovalRows(db: Db, g: RemovalGrant)
    requires (g.target, g.company) in db.members
    ensures MemberLeft(db, AfterRemoval(db, g), g)
  {
    var bare, left := db.(members := db.members - {(g.target, g.company)}), AfterRemoval(db, g);
    SameOldest(bare, left, g.target);
    OldestIsNext(left, g.target);
  }

  // ----- joining -----

  /** A new company is ACTIVE, its founder the OWNER with the company current; ids must be fresh and the founder exist. */
  lemma CreateCompanyRows(db: Db, u: UserId, c: CompanyId, id: MembershipId, name: string, now: Time)
    ensures CreateCompanyWithOwner(db, u, c, id, name, now) ==
            if c in db.issued || id in db.issued || id == c || u !in db.users || (u, c) in db.members then Abort(DbError)
            else Done(db.(companies := db.companies[c := Company(name, ACTIVE)],
                          members := db.members[(u, c) := Membership(id, OWNER, now)],
                          users := db.users[u := db.users[u].(current := Some(c))],
                          audit := db.audit + [CompanyCreated(u, c, name)], issued := db.issued + {c, id}), ())
  {
    assert db.issued + {c} + {id} == db.issued + {c, id};
  }

  lemma SignupCompanyRows(db: Db, u: UserId, c: CompanyId, id: MembershipId, name: string, now: Time)
    ensures CreateSignupCompany(db, u, c, id, name, now) ==
            if Belongs(db, u) then Abort(AlreadyExists) else CreateCompanyWithOwner(db, u, c, id, name, now)
  {
    BelongsMeaning(db, u);
  }

  // ----- invitations -----

  /** Why an acceptance is refused: the row is not pending any more, or an OWNER invitation's inviter is no OWNER. */
  function RefusedAcceptance(db: Db, g: AcceptGrant): Option<RejectReason> {
    var inviter := (g.row.invitedBy, g.row.company);
    if g.id !in db.invitations || db.invitations[g.id].status != PENDING then Some(DoubleAcceptReason)
    else if g.row.role != OWNER then None
    else if inviter !in db.members then Some(InviterReason(Missing))
    else if db.members[inviter].role != OWNER then Some(InviterReason(Demoted(db.members[inviter].role)))
    else None
  }

  /** The membership row does not go in: its id is taken, a foreign key is missing, or the user is a member. */
  predicate JoinFails(db: Db, g: AcceptGrant, id: MembershipId) {
    id in db.issued || g.actor !in db.users || g.row.company !in db.companies || (g.actor, g.row.company) in db.members
  }

  /** What an acceptance comes to: only an OWNER invitation asks about its inviter. */
  lemma AcceptRows(db: Db, g: AcceptGrant, id: MembershipId, now: Time)
    ensures var tx, refused := AcceptInvitation(db, g, id, now), RefusedAcceptance(db, g);
            if refused.Some? then tx.Abort? && RejectionEvent(g, tx.failure) == Some(InvitationAcceptRejected(g.actor, g.id, g.row.company, refused.value))
            else if JoinFails(db, g, id) then tx == Abort(DbError)
            else tx == Done(db.(invitations := db.invitations[g.id := db.invitations[g.id].(status := ACCEPTED, acceptedAt := Some(now), revokedAt := None, usedAt := Some(now))],
                                members := db.members[(g.actor, g.row.company) := Membership(id, g.row.role, now)],
                                users := db.users[g.actor := db.users[g.actor].(current := Some(g.row.company))],
                                audit := db.audit + [InvitationAccepted(g.actor, g.id, g.row.company, g.row.role)], issued := db.issued + {id}), ())
  {
  }

  // ----- deleting a company -----

  /** The rows of a company that is being deleted, before the orphans go. */
  ghost predicate CompanyEmptied(before: Db, after: Db, actor: UserId, c: CompanyId, revoked: seq<InvitationId>, removed: seq<UserId>, now: Time) {
    && after.members == (map k | k in before.members && k.1 != c :: before.members[k])
    && after.invitations.Keys == before.invitations.Keys
    && (forall i :: i in before.invitations ==>
          var row := before.invitations[i];
          after.invitations[i] ==
          if row.company == c && row.status == PENDING
          then row.(status := REVOKED, acceptedAt := None, revokedAt := Some(now), usedAt := Some(now)) else row)
    && after.users.Keys == before.users.Keys
    && (forall u :: u in before.users ==>
          if (u, c) in before.members && before.users[u].current == Some(c)
          then after.users[u] == before.users[u].(current := after.users[u].current) && IsNext(after, u, after.users[u].current)
          else after.users[u] == before.users[u])
    && NoDuplicates(revoked) && (forall i :: i in revoked <==> i in before.invitations && before.invitations[i].company == c && before.invitations[i].status == PENDING)
    && NoDuplicates(removed) && (forall u :: u in removed <==> (u, c) in before.members)
    && after.audit == before.audit
         + seq(|revoked|, i requires 0 <= i < |revoked| => InvitationRevoked(actor, revoked[i], c))
         + seq(|removed|, i requires 0 <= i < |removed| =>
             MembershipRemoved(actor, c, removed[i], if (removed[i], c) in before.members then before.members[(removed[i], c)].role else MEMBER, actor == removed[i]))
    && after.companies == before.companies && after.issued == before.issued && after.hooks == before.hooks
  }

  /**
   * A company that was deleted before stays as it is, and only an OWNER deletes one. Deleting it takes away
   * its memberships and pending invitations, then exactly the accounts of members with no other ACTIVE
   * company, in ascending order, and closes it.
   */
  ghost predicate DissolutionIs(db: Db, actor: UserId, c: CompanyId, revoked: seq<InvitationId>, removed: seq<UserId>, now: Time, tx: Tx<seq<UserId>>) {
    if c !in db.companies then tx == Abort(Forbidden)
    else if db.companies[c].status != ACTIVE then tx == Done(db, [])
    else if (actor, c) !in db.members || db.members[(actor, c)].role != OWNER then tx == Abort(Forbidden)
    else
      && tx.Done? && StrictlyAscending(tx.value)
      && (forall u :: u in tx.value <==> (u, c) in db.members && u in db.users && !BelongsBesides(db, u, c))
      && exists emptied, swept ::
           && CompanyEmptied(db, emptied, actor, c, revoked, removed, now)
           && AccountsDeleted(emptied, swept, tx.value)
           && tx.db == swept.(companies := db.companies[c := db.companies[c].(status := DELETED)],
                              audit := swept.audit + [CompanyDeleted(actor, c, db.companies[c].name)])
  }

  lemma EmptiedRows(db: Db, actor: UserId, c: CompanyId, revoked: seq<InvitationId>, removed: seq<UserId>, now: Time)
    requires Enumerates(revoked, PendingOf(db, c)) && Enumerates(removed, MembersOf(db.members, c))
    ensures CompanyEmptied(db, Emptied(db, actor, c, revoked, removed, now), actor, c, revoked, removed, now)
  {
    var emptied := Emptied(db, actor, c, revoked, removed, now);
    assert forall i :: i in revoked <==> i in Elements(revoked);
    forall u ensures u in removed <==> (u, c) in db.members {
      assert u in removed <==> u in Elements(removed);
      assert (u, c) in db.members ==> (u, c).1 == c && u in MembersOf(db.members, c);
    }
    var bare := RevokeInvitationsOf(db, actor, c, revoked, now).(members := WithoutCompany(db.members, c));
    forall u | u in db.users ensures
      if (u, c) in db.members && db.users[u].current == Some(c)
      then emptied.users[u] == db.users[u].(current := emptied.users[u].current) && IsNext(emptied, u, emptied.users[u].current)
      else emptied.users[u] == db.users[u]
    {
      SameOldest(bare, emptied, u);
      OldestIsNext(emptied, u);
    }
    assert RemovedEvents(db.members, actor, c, removed) == seq(|removed|, i requires 0 <= i < |removed| =>
             MembershipRemoved(actor, c, removed[i], if (removed[i], c) in db.members then db.members[(removed[i], c)].role else MEMBER, actor == removed[i]));
  }

  lemma DissolutionRows(db: Db, actor: UserId, c: CompanyId, revoked: seq<InvitationId>, removed: seq<UserId>, now: Time)
    requires Enumerates(revoked, PendingOf(db, c)) && Enumerates(removed, MembersOf(db.members, c))
    ensures DissolutionIs(db, actor, c, revoked, removed, now, DeleteCompany(db, actor, c, revoked, removed, now))
  {
    if IsActive(db, c) && HasRole(db.members, actor, c, OWNER) {
      var emptied, orphans := Emptied(db, actor, c, revoked, removed, now), Ascending(Elements(removed));
      EmptiedRows(db, actor, c, revoked, removed, now);
      AscendingMeaning(Elements(removed));
      OrphansRows(emptied, orphans);
      var Done(swept, gone) := DeleteOrphans(emptied, orphans);
      forall u ensures u in gone <==> (u, c) in db.members && u in db.users && !BelongsBesides(db, u, c) {
        assert u in orphans <==> u in Elements(orphans);
        assert u in Elements(removed) <==> u in removed;
        assert forall d :: IsMemberOfActive(emptied, u, d) <==> d != c && IsMemberOfActive(db, u, d);
      }
      assert CompanyEmptied(db, emptied, actor, c, revoked, removed, now) && AccountsDeleted(emptied, swept, gone);
    }
  }
}
