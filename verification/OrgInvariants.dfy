/** The invariants of the organisation tables, and what each transaction keeps. */
module OrgInvariants {
  import opened Prelude
  import opened OrgModel
  import opened OrgGuards
  import opened OrgTransactions
  import opened OrgHistory

  // ----- invariants that hold whatever grants were presented -----

  /** Foreign keys, and every id in use was issued. */
  ghost predicate Refs(db: Db) {
    && (forall k :: k in db.members ==> k.0 in db.users && k.1 in db.companies && db.members[k].id in db.issued)
    && (forall i :: i in db.invitations ==>
          db.invitations[i].company in db.companies && db.invitations[i].invitedBy in db.users && i in db.issued)
    && (forall u :: u in db.users ==> u in db.issued)
    && (forall c :: c in db.companies ==> c in db.issued)
  }

  /** Every ACTIVE company outside `exempt` has an OWNER. */
  ghost predicate Owned(db: Db, exempt: set<CompanyId>) {
    forall c :: IsActive(db, c) && c !in exempt ==> OwnersOf(db.members, c) != {}
  }

  /** The timestamp columns say what the status column says. */
  predicate StampsMatch(i: Invitation) {
    && (i.acceptedAt.Some? <==> i.status.ACCEPTED?)
    && (i.revokedAt.Some? <==> i.status.REVOKED?)
    && (i.usedAt == if i.status.ACCEPTED? then i.acceptedAt else i.revokedAt)
  }

  ghost predicate Stamped(db: Db) {
    forall i :: i in db.invitations ==> StampsMatch(db.invitations[i])
  }

  ghost predicate Sound(db: Db) {
    Refs(db) && Owned(db, {}) && Stamped(db)
  }

  // ----- invariants that also need every invitation to be sent from an ACTIVE company -----

  /** A DELETED company has no members and nothing pending. */
  ghost predicate Closed(db: Db) {
    && (forall k :: k in db.members ==> IsActive(db, k.1))
    && (forall i :: i in db.invitations && db.invitations[i].status.PENDING? ==> IsActive(db, db.invitations[i].company))
  }

  ghost predicate PointerExact(db: Db, u: UserId)
    requires u in db.users
  {
    match db.users[u].current
    case Some(c) => (u, c) in db.members && IsActive(db, c)
    case None => ActiveCompaniesOf(db, u) == {}
  }

  /** The current company names an ACTIVE company of the user; it is empty only without one. */
  ghost predicate CurrentExact(db: Db) {
    forall u :: u in db.users ==> PointerExact(db, u)
  }

  /** Each of `joined` is an account with an ACTIVE membership. */
  ghost predicate Rooted(db: Db, joined: set<UserId>) {
    forall u :: u in joined ==> u in db.users && ActiveCompaniesOf(db, u) != {}
  }

  ghost predicate TidyFor(db: Db, joined: set<UserId>) {
    Closed(db) && CurrentExact(db) && Rooted(db, joined)
  }

  ghost predicate Tidy(db: Db) {
    TidyFor(db, Joined(db))
  }

  // ----- facts about the owner sets and active companies -----

  lemma OwnersAfterUpdate(m: Members, u: UserId, c: CompanyId, row: Membership, d: CompanyId)
    ensures OwnersOf(m[(u, c) := row], d) ==
            if d != c then OwnersOf(m, d) else if row.role.OWNER? then OwnersOf(m, c) + {u} else OwnersOf(m, c) - {u}
  {
    var m' := m[(u, c) := row];
    forall v ensures v in OwnersOf(m', d) <==> HasRole(m', v, d, OWNER) {
      OwnersMeaning(m', d, v);
    }
    forall v ensures v in OwnersOf(m, d) <==> HasRole(m, v, d, OWNER) {
      OwnersMeaning(m, d, v);
    }
  }

  lemma OwnersMeaning(m: Members, c: CompanyId, u: UserId)
    ensures u in OwnersOf(m, c) <==> HasRole(m, u, c, OWNER)
  {
    if HasRole(m, u, c, OWNER) {
      assert (u, c) in m && (u, c).1 == c && m[(u, c)].role.OWNER?;
    }
  }

  lemma SomeOwner(m: Members, c: CompanyId)
    ensures OwnersOf(m, c) != {} <==> exists u :: HasRole(m, u, c, OWNER)
  {
    forall u ensures HasRole(m, u, c, OWNER) <==> u in OwnersOf(m, c) {
      OwnersMeaning(m, c, u);
    }
  }

  lemma OwnersAfterRemoval(m: Members, u: UserId, c: CompanyId, d: CompanyId)
    ensures OwnersOf(m - {(u, c)}, d) == if d == c then OwnersOf(m, c) - {u} else OwnersOf(m, d)
  {
    forall v ensures v in OwnersOf(m - {(u, c)}, d) <==> HasRole(m, v, d, OWNER) && (v, d) != (u, c) {
      OwnersMeaning(m - {(u, c)}, d, v);
    }
    forall v ensures v in OwnersOf(m, d) <==> HasRole(m, v, d, OWNER) {
      OwnersMeaning(m, d, v);
    }
  }

  lemma OwnersAfterLeaving(m: Members, u: UserId, c: CompanyId)
    ensures OwnersOf(WithoutUser(m, u), c) == OwnersOf(m, c) - {u}
  {
    forall v ensures v in OwnersOf(WithoutUser(m, u), c) <==> HasRole(m, v, c, OWNER) && v != u {
      OwnersMeaning(WithoutUser(m, u), c, v);
    }
    forall v ensures v in OwnersOf(m, c) <==> HasRole(m, v, c, OWNER) {
      OwnersMeaning(m, c, v);
    }
  }

  lemma OwnersElsewhere(m: Members, c: CompanyId, d: CompanyId)
    requires c != d
    ensures OwnersOf(WithoutCompany(m, c), d) == OwnersOf(m, d)
  {
    forall v ensures v in OwnersOf(WithoutCompany(m, c), d) <==> HasRole(m, v, d, OWNER) {
      OwnersMeaning(WithoutCompany(m, c), d, v);
    }
    forall v ensures v in OwnersOf(m, d) <==> HasRole(m, v, d, OWNER) {
      OwnersMeaning(m, d, v);
    }
  }

  lemma ActiveMeaning(db: Db, u: UserId, c: CompanyId)
    ensures c in ActiveCompaniesOf(db, u) <==> (u, c) in db.members && IsActive(db, c)
  {
    if (u, c) in db.members && IsActive(db, c) {
      assert (u, c).0 == u && IsActive(db, (u, c).1);
    }
  }

  /** Two snapshots that agree on a user's memberships and on activation agree on the active ones. */
  lemma SameActive(a: Db, b: Db, u: UserId)
    requires forall c :: ((u, c) in a.members && IsActive(a, c)) <==> ((u, c) in b.members && IsActive(b, c))
    ensures ActiveCompaniesOf(a, u) == ActiveCompaniesOf(b, u)
  {
    forall c ensures c in ActiveCompaniesOf(a, u) <==> c in ActiveCompaniesOf(b, u) {
      ActiveMeaning(a, u, c);
      ActiveMeaning(b, u, c);
    }
  }

  // ----- account deletion -----

  lemma DeleteAccountSound(db: Db, u: UserId, exempt: set<CompanyId>)
    requires Refs(db) && Stamped(db) && Owned(db, exempt) && DeleteAccount(db, u).Done?
    requires forall c :: IsActive(db, c) && c !in exempt && u in OwnersOf(db.members, c) ==> |OwnersOf(db.members, c)| != 1
    ensures var after := DeleteAccount(db, u).db; Refs(after) && Stamped(after) && Owned(after, exempt)
  {
    var after := DeleteAccount(db, u).db;
    forall c | IsActive(after, c) && c !in exempt ensures OwnersOf(after.members, c) != {} {
      OwnersAfterLeaving(db.members, u, c);
      if u in OwnersOf(db.members, c) {
        AnotherElement(OwnersOf(db.members, c), u);
      }
    }
  }

  lemma BlockingMeaning(db: Db, u: UserId, c: CompanyId)
    requires IsActive(db, c) && u in OwnersOf(db.members, c) && |OwnersOf(db.members, c)| == 1
    ensures c in CompaniesBlockingDeletion(db, u)
  {
    OwnersMeaning(db.members, c, u);
    assert (u, c) in db.members && (u, c).0 == u && IsActive(db, (u, c).1);
  }

  lemma DeleteUnlessLastOwnerSound(db: Db, u: UserId)
    requires Sound(db) && DeleteAccountUnlessLastOwner(db, u).Done?
    ensures Sound(DeleteAccountUnlessLastOwner(db, u).db)
  {
    forall c | IsActive(db, c) && u in OwnersOf(db.members, c) ensures |OwnersOf(db.members, c)| != 1 {
      if |OwnersOf(db.members, c)| == 1 {
        BlockingMeaning(db, u, c);
      }
    }
    DeleteAccountSound(db, u, {});
  }

  lemma DeleteAccountTidy(db: Db, u: UserId, joined: set<UserId>)
    requires Refs(db) && TidyFor(db, joined) && DeleteAccount(db, u).Done?
    ensures TidyFor(DeleteAccount(db, u).db, joined - {u})
  {
    var after := DeleteAccount(db, u).db;
    forall v | v != u ensures ActiveCompaniesOf(after, v) == ActiveCompaniesOf(db, v) {
      SameActive(after, db, v);
    }
    forall v | v in after.users ensures PointerExact(after, v) {
      assert PointerExact(db, v);
    }
  }

  lemma DeleteAccountJoined(db: Db, u: UserId)
    requires DeleteAccount(db, u).Done?
    ensures Joined(DeleteAccount(db, u).db) == Joined(db) - {u}
  {
    JoinedOne(db, DeleteAccount(db, u).db, AccountDeleted(u));
  }

  lemma DeleteUnlessLastOwnerTidy(db: Db, u: UserId)
    requires Sound(db) && Tidy(db) && DeleteAccountUnlessLastOwner(db, u).Done?
    ensures Tidy(DeleteAccountUnlessLastOwner(db, u).db)
  {
    DeleteAccountTidy(db, u, Joined(db));
    DeleteAccountJoined(db, u);
  }

  lemma OrphanSound(db: Db, u: UserId, exempt: set<CompanyId>)
    requires Refs(db) && Stamped(db) && Owned(db, exempt) && DeleteAccountIfOrphaned(db, u).Done?
    ensures var after := DeleteAccountIfOrphaned(db, u).db; Refs(after) && Stamped(after) && Owned(after, exempt)
  {
    if ActiveCompaniesOf(db, u) == {} && DeleteAccount(db, u).Done? {
      forall c | IsActive(db, c) ensures u !in OwnersOf(db.members, c) {
        OwnersMeaning(db.members, c, u);
        ActiveMeaning(db, u, c);
      }
      DeleteAccountSound(db, u, exempt);
    }
  }

  /** Whoever is looked at for orphaning is afterwards deleted, or known to have an ACTIVE membership. */
  lemma OrphanTidy(db: Db, u: UserId, joined: set<UserId>)
    requires Refs(db) && TidyFor(db, joined) && u in db.users && DeleteAccountIfOrphaned(db, u).Done?
    ensures TidyFor(DeleteAccountIfOrphaned(db, u).db,
                    if DeleteAccountIfOrphaned(db, u).value.Deleted? then joined - {u} else joined + {u})
  {
    if ActiveCompaniesOf(db, u) == {} {
      DeleteAccountTidy(db, u, joined);
    }
  }

  lemma OrphanJoined(db: Db, u: UserId)
    requires DeleteAccountIfOrphaned(db, u).Done?
    ensures Joined(DeleteAccountIfOrphaned(db, u).db) ==
            if DeleteAccountIfOrphaned(db, u).value.Deleted? then Joined(db) - {u} else Joined(db)
  {
    if DeleteAccount(db, u).Done? {
      DeleteAccountJoined(db, u);
    }
  }

  lemma {:induction false} OrphansSound(db: Db, us: seq<UserId>, exempt: set<CompanyId>)
    requires Refs(db) && Stamped(db) && Owned(db, exempt) && DeleteOrphans(db, us).Done?
    ensures var after := DeleteOrphans(db, us).db; Refs(after) && Stamped(after) && Owned(after, exempt)
    decreases |us|
  {
    if us != [] {
      var n := |us| - 1;
      OrphansSound(db, us[..n], exempt);
      OrphanSound(DeleteOrphans(db, us[..n]).db, us[n], exempt);
    }
  }

  /** Orphan deletion drops only listed users; the hooks it registers are those it dropped, in that order. */
  lemma {:induction false} OrphansLeave(db: Db, us: seq<UserId>)
    requires NoDuplicates(us) && DeleteOrphans(db, us).Done?
    ensures var after, gone := DeleteOrphans(db, us).db, DeleteOrphans(db, us).value;
            && after.users.Keys == db.users.Keys - Elements(gone)
            && Elements(gone) <= Elements(us) && Elements(gone) <= db.users.Keys
            && NoDuplicates(gone) && after.hooks == db.hooks + gone
    decreases |us|
  {
    if us != [] {
      var n, u := |us| - 1, us[|us| - 1];
      var before, gone := DeleteOrphans(db, us[..n]).db, DeleteOrphans(db, us[..n]).value;
      OrphansLeave(db, us[..n]);
      TakeLast(us);
      TakeLast(gone + [u]);
      assert forall v :: v in gone ==> v in Elements(gone);
    }
  }

  lemma {:induction false} OrphansTidy(db: Db, us: seq<UserId>, joined: set<UserId>)
    requires Refs(db) && Stamped(db) && TidyFor(db, joined)
    requires NoDuplicates(us) && Elements(us) <= db.users.Keys && DeleteOrphans(db, us).Done?
    ensures TidyFor(DeleteOrphans(db, us).db, joined + Elements(us) - Elements(DeleteOrphans(db, us).value))
    decreases |us|
  {
    if us == [] {
      assert joined + Elements(us) - Elements(DeleteOrphans(db, us).value) == joined;
    } else {
      OrphansBeforeLast(db, us);
      assert Elements(us[..|us| - 1]) <= db.users.Keys by {
        TakeLast(us);
      }
      OrphansTidy(db, us[..|us| - 1], joined);
      LastOrphanTidy(DeleteOrphans(db, us[..|us| - 1]).db, us, DeleteOrphans(db, us[..|us| - 1]).value, joined);
    }
  }

  /** When the last of the list is looked at, it is still an account. */
  lemma OrphansBeforeLast(db: Db, us: seq<UserId>)
    requires us != [] && Refs(db) && Stamped(db) && DeleteOrphans(db, us[..|us| - 1]).Done?
    requires NoDuplicates(us) && Elements(us) <= db.users.Keys
    ensures var before, gone := DeleteOrphans(db, us[..|us| - 1]).db, DeleteOrphans(db, us[..|us| - 1]).value;
            Refs(before) && us[|us| - 1] in before.users && Elements(gone) <= Elements(us[..|us| - 1])
  {
    TakeLast(us);
    OrphansSound(db, us[..|us| - 1], db.companies.Keys);
    OrphansLeave(db, us[..|us| - 1]);
  }

  lemma LastOrphanTidy(before: Db, us: seq<UserId>, gone: seq<UserId>, joined: set<UserId>)
    requires us != [] && NoDuplicates(us) && Elements(gone) <= Elements(us[..|us| - 1])
    requires Refs(before) && us[|us| - 1] in before.users && DeleteAccountIfOrphaned(before, us[|us| - 1]).Done?
    requires TidyFor(before, joined + Elements(us[..|us| - 1]) - Elements(gone))
    ensures var u := us[|us| - 1];
            var removal := DeleteAccountIfOrphaned(before, u);
            TidyFor(removal.db, joined + Elements(us) - Elements(if removal.value.Deleted? then gone + [u] else gone))
  {
    OrphanTidy(before, us[|us| - 1], joined + Elements(us[..|us| - 1]) - Elements(gone));
    OrphanBookkeeping(us, us[|us| - 1], gone, joined);
  }

  lemma OrphanBookkeeping(us: seq<UserId>, u: UserId, gone: seq<UserId>, joined: set<UserId>)
    requires us != [] && u == us[|us| - 1] && NoDuplicates(us) && Elements(gone) <= Elements(us[..|us| - 1])
    ensures var rooted := joined + Elements(us[..|us| - 1]) - Elements(gone);
            && joined + Elements(us) - Elements(gone + [u]) == rooted - {u}
            && joined + Elements(us) - Elements(gone) == rooted + {u}
  {
    TakeLast(us);
    TakeLast(gone + [u]);
  }

  lemma TakeLast<T>(s: seq<T>)
    requires s != []
    ensures Elements(s) == Elements(s[..|s| - 1]) + {s[|s| - 1]}
    ensures NoDuplicates(s) ==> s[|s| - 1] !in Elements(s[..|s| - 1])
  {
    assert s == s[..|s| - 1] + [s[|s| - 1]];
  }

  lemma {:induction false} OrphansJoined(db: Db, us: seq<UserId>)
    requires DeleteOrphans(db, us).Done?
    ensures Joined(DeleteOrphans(db, us).db) == Joined(db) - Elements(DeleteOrphans(db, us).value)
    decreases |us|
  {
    if us != [] {
      var n, u := |us| - 1, us[|us| - 1];
      var before, gone := DeleteOrphans(db, us[..n]).db, DeleteOrphans(db, us[..n]).value;
      OrphansJoined(db, us[..n]);
      OrphanJoined(before, u);
      TakeLast(gone + [u]);
    }
  }

  // ----- joining -----

  /** What joining a company (possibly a new one) does to memberships, pointers and activation. */
  ghost predicate Joins(before: Db, after: Db, u: UserId, c: CompanyId, row: Membership) {
    && u in before.users && (u, c) !in before.members
    && after.users == before.users[u := before.users[u].(current := Some(c))]
    && after.members == before.members[(u, c) := row]
    && (forall d :: d != c ==> (IsActive(after, d) <==> IsActive(before, d)))
    && (forall i :: i in after.invitations && after.invitations[i].status.PENDING? ==>
          i in before.invitations && after.invitations[i] == before.invitations[i])
  }

  lemma CreateCompanyJoins(db: Db, u: UserId, c: CompanyId, id: MembershipId, name: string, now: Time)
    requires CreateCompanyWithOwner(db, u, c, id, name, now).Done?
    ensures Joins(db, CreateCompanyWithOwner(db, u, c, id, name, now).db, u, c, Membership(id, OWNER, now))
    ensures c !in db.issued && IsActive(CreateCompanyWithOwner(db, u, c, id, name, now).db, c)
  {
  }

  lemma JoinOwned(before: Db, after: Db, u: UserId, c: CompanyId, row: Membership)
    requires Owned(before, {}) && Joins(before, after, u, c, row)
    requires IsActive(after, c) ==> row.role.OWNER? || IsActive(before, c)
    ensures Owned(after, {})
  {
    forall d | IsActive(after, d) ensures OwnersOf(after.members, d) != {} {
      OwnersAfterUpdate(before.members, u, c, row, d);
      OwnersMeaning(before.members, c, u);
      assert d != c ==> IsActive(before, d);
    }
  }

  lemma CreateCompanySound(db: Db, u: UserId, c: CompanyId, id: MembershipId, name: string, now: Time)
    requires Sound(db) && CreateCompanyWithOwner(db, u, c, id, name, now).Done?
    ensures Sound(CreateCompanyWithOwner(db, u, c, id, name, now).db)
  {
    CreateCompanyJoins(db, u, c, id, name, now);
    JoinOwned(db, CreateCompanyWithOwner(db, u, c, id, name, now).db, u, c, Membership(id, OWNER, now));
  }

  /** Joining an ACTIVE company makes it current and leaves everyone else's view alone. */
  lemma JoinTidy(before: Db, after: Db, u: UserId, c: CompanyId, row: Membership, joined: set<UserId>)
    requires TidyFor(before, joined) && Joins(before, after, u, c, row)
    requires IsActive(after, c)
    ensures TidyFor(after, joined + {u})
  {
    forall k | k in after.members ensures IsActive(after, k.1) {
      assert k != (u, c) ==> IsActive(before, k.1);
    }
    forall v | v != u ensures ActiveCompaniesOf(after, v) == ActiveCompaniesOf(before, v) {
      forall d ensures ((v, d) in after.members && IsActive(after, d)) <==> ((v, d) in before.members && IsActive(before, d)) {
        assert (v, d) in before.members ==> IsActive(before, (v, d).1);
      }
      SameActive(after, before, v);
    }
    ActiveMeaning(after, u, c);
    forall v | v in after.users ensures PointerExact(after, v) {
      if v != u {
        JoinPointer(before, after, u, c, row, v);
      }
    }
    forall i | i in after.invitations && after.invitations[i].status.PENDING? ensures IsActive(after, after.invitations[i].company) {
      assert IsActive(before, after.invitations[i].company);
    }
  }

  lemma JoinPointer(before: Db, after: Db, u: UserId, c: CompanyId, row: Membership, v: UserId)
    requires Joins(before, after, u, c, row) && v != u && v in before.users && PointerExact(before, v)
    requires IsActive(after, c) && ActiveCompaniesOf(after, v) == ActiveCompaniesOf(before, v)
    ensures PointerExact(after, v)
  {
  }

  lemma CreateCompanyTidy(db: Db, u: UserId, c: CompanyId, id: MembershipId, name: string, now: Time)
    requires Sound(db) && Tidy(db) && CreateCompanyWithOwner(db, u, c, id, name, now).Done?
    ensures Tidy(CreateCompanyWithOwner(db, u, c, id, name, now).db)
  {
    var after := CreateCompanyWithOwner(db, u, c, id, name, now).db;
    CreateCompanyJoins(db, u, c, id, name, now);
    JoinTidy(db, after, u, c, Membership(id, OWNER, now), Joined(db));
    JoinedOne(db, after, CompanyCreated(u, c, name));
  }

  // ----- role changes -----

  /** Writes that change roles only. */
  ghost predicate RolesOnly(before: Db, after: Db) {
    && after.users == before.users && after.companies == before.companies && after.invitations == before.invitations
    && after.members.Keys == before.members.Keys && after.issued == before.issued
    && forall k :: k in before.members ==> after.members[k].id == before.members[k].id
  }

  /** The company whose roles changed was counted; every other company kept its owners. */
  lemma RolesOnlySound(before: Db, after: Db, c: CompanyId)
    requires Sound(before) && RolesOnly(before, after) && OwnersOf(after.members, c) != {}
    requires forall d :: d != c ==> OwnersOf(after.members, d) == OwnersOf(before.members, d)
    ensures Sound(after)
  {
    forall d | IsActive(after, d) ensures OwnersOf(after.members, d) != {} {
      assert IsActive(before, d);
    }
  }

  lemma RolesOnlyTidy(before: Db, after: Db, joined: set<UserId>)
    requires RolesOnly(before, after) && TidyFor(before, joined)
    ensures TidyFor(after, joined)
  {
    forall k | k in after.members ensures IsActive(after, k.1) {
      assert IsActive(before, k.1);
    }
    forall u ensures ActiveCompaniesOf(after, u) == ActiveCompaniesOf(before, u) {
      SameActive(after, before, u);
    }
    forall u | u in after.users ensures PointerExact(after, u) {
      assert PointerExact(before, u);
    }
    forall i | i in after.invitations && after.invitations[i].status.PENDING? ensures IsActive(after, after.invitations[i].company) {
      assert IsActive(before, after.invitations[i].company);
    }
  }

  lemma ChangeRoleSound(db: Db, g: RoleChangeGrant)
    requires Sound(db) && ChangeRole(db, g).Done?
    ensures Sound(ChangeRole(db, g).db)
  {
    if g.targetRole != g.nextRole {
      var after := ChangeRole(db, g).db;
      forall d ensures d != g.company ==> OwnersOf(after.members, d) == OwnersOf(db.members, d) {
        OwnersAfterUpdate(db.members, g.target, g.company, db.members[(g.target, g.company)].(role := g.nextRole), d);
      }
      RolesOnlySound(db, after, g.company);
    }
  }

  lemma ChangeRoleTidy(db: Db, g: RoleChangeGrant)
    requires Tidy(db) && ChangeRole(db, g).Done?
    ensures Tidy(ChangeRole(db, g).db)
  {
    if g.targetRole != g.nextRole {
      var after := ChangeRole(db, g).db;
      RolesOnlyTidy(db, after, Joined(db));
      JoinedOne(db, after, RoleChanged(g.actor, g.company, g.target, g.targetRole, g.nextRole));
    }
  }

  lemma TransferSound(db: Db, g: TransferGrant)
    requires Sound(db) && TransferOwnership(db, g).Done?
    ensures Sound(TransferOwnership(db, g).db)
  {
    var after := TransferOwnership(db, g).db;
    var raised := UpdateRole(db, g.to, g.company, OWNER).db;
    forall d ensures d != g.company ==> OwnersOf(after.members, d) == OwnersOf(db.members, d) {
      OwnersAfterUpdate(db.members, g.to, g.company, db.members[(g.to, g.company)].(role := OWNER), d);
      OwnersAfterUpdate(raised.members, g.actor, g.company, raised.members[(g.actor, g.company)].(role := ADMIN), d);
    }
    RolesOnlySound(db, after, g.company);
  }

  lemma TransferRolesOnly(db: Db, g: TransferGrant)
    requires TransferOwnership(db, g).Done?
    ensures var after := TransferOwnership(db, g).db;
            RolesOnly(db, after) && after.audit == db.audit + [OwnershipTransferred(g.company, g.actor, g.to)]
  {
  }

  lemma TransferTidy(db: Db, g: TransferGrant)
    requires Tidy(db) && TransferOwnership(db, g).Done?
    ensures Tidy(TransferOwnership(db, g).db)
  {
    TransferRolesOnly(db, g);
    RolesOnlyTidy(db, TransferOwnership(db, g).db, Joined(db));
    JoinedOne(db, TransferOwnership(db, g).db, OwnershipTransferred(g.company, g.actor, g.to));
  }

  // ----- leaving -----

  /** What leaving a company (some users, `us`) does to memberships and pointers, before orphans are looked at. */
  ghost predicate Left(before: Db, after: Db, c: CompanyId, us: set<UserId>) {
    && after.companies == before.companies
    && (forall k :: k in after.members <==> k in before.members && !(k.1 == c && k.0 in us))
    && (forall k :: k in after.members ==> after.members[k] == before.members[k])
    && after.users == ReassignAfterLeaving(before.(members := after.members), c, us).users
  }

  lemma LeavePointer(before: Db, after: Db, c: CompanyId, us: set<UserId>, u: UserId)
    requires Left(before, after, c, us) && u in before.users && PointerExact(before, u)
    ensures PointerExact(after, u)
    ensures u !in us ==> ActiveCompaniesOf(after, u) == ActiveCompaniesOf(before, u)
    ensures u in us && before.users[u].current == Some(c) ==> after.users[u].current == OldestActive(after, u)
  {
    var bare := before.(members := after.members);
    SameActive(bare, after, u);
    assert forall d :: (u, d) in after.members <==> (u, d) in before.members && !((u, d).1 == c && (u, d).0 in us);
    if u !in us {
      SameActive(after, before, u);
    } else if before.users[u].current == Some(c) {
      SameOldest(bare, after, u);
    } else if before.users[u].current.None? {
      forall d ensures d !in ActiveCompaniesOf(after, u) {
        ActiveMeaning(after, u, d);
        ActiveMeaning(before, u, d);
      }
    }
  }

  /** The oldest ACTIVE membership depends on nothing but memberships and activation. */
  lemma SameOldest(a: Db, b: Db, u: UserId)
    requires a.members == b.members && a.companies == b.companies
    ensures OldestActive(a, u) == OldestActive(b, u)
  {
    assert ActiveCompaniesOf(a, u) == ActiveCompaniesOf(b, u) by {
      SameActive(a, b, u);
    }
  }

  lemma LeaveTidy(before: Db, after: Db, c: CompanyId, us: set<UserId>, joined: set<UserId>)
    requires Refs(before) && TidyFor(before, joined) && Left(before, after, c, us)
    requires forall i :: i in after.invitations && after.invitations[i].status.PENDING? ==>
               i in before.invitations && before.invitations[i].status.PENDING?
               && before.invitations[i].company == after.invitations[i].company
    ensures TidyFor(after, joined - us)
  {
    forall u | u in after.users
      ensures PointerExact(after, u) && (u !in us ==> ActiveCompaniesOf(after, u) == ActiveCompaniesOf(before, u))
    {
      LeavePointer(before, after, c, us, u);
    }
  }

  /** The snapshot in which RemoveMember looks for an orphan. */
  ghost function AfterRemoval(db: Db, g: RemovalGrant): Db {
    var bare := db.(members := db.members - {(g.target, g.company)});
    Append(ReassignAfterLeaving(bare, g.company, {g.target}), [RemovedEvent(g.actor, g.company, g.target, g.targetRole)])
  }

  lemma RemoveMemberSteps(db: Db, g: RemovalGrant)
    requires RemoveMember(db, g).Done?
    ensures (g.target, g.company) in db.members
    ensures RemoveMember(db, g) == DeleteAccountIfOrphaned(AfterRemoval(db, g), g.target)
    ensures OwnersOf(AfterRemoval(db, g).members, g.company) != {}
  {
  }

  lemma AfterRemovalLeft(db: Db, g: RemovalGrant)
    requires (g.target, g.company) in db.members
    ensures Left(db, AfterRemoval(db, g), g.company, {g.target})
    ensures Refs(db) ==> Refs(AfterRemoval(db, g)) && g.target in AfterRemoval(db, g).users
  {
    assert db.(members := AfterRemoval(db, g).members) == db.(members := db.members - {(g.target, g.company)});
  }

  lemma RemoveMemberSound(db: Db, g: RemovalGrant)
    requires Sound(db) && RemoveMember(db, g).Done?
    ensures Sound(RemoveMember(db, g).db)
  {
    var logged := AfterRemoval(db, g);
    RemoveMemberSteps(db, g);
    AfterRemovalLeft(db, g);
    forall d | IsActive(logged, d) ensures OwnersOf(logged.members, d) != {} {
      OwnersAfterRemoval(db.members, g.target, g.company, d);
      assert IsActive(db, d);
    }
    OrphanSound(logged, g.target, {});
  }

  lemma LeaveThenOrphanTidy(db: Db, left: Db, u: UserId, c: CompanyId, joined: set<UserId>)
    requires Refs(db) && Refs(left) && TidyFor(db, joined) && Left(db, left, c, {u}) && u in left.users
    requires left.invitations == db.invitations && DeleteAccountIfOrphaned(left, u).Done?
    ensures TidyFor(DeleteAccountIfOrphaned(left, u).db,
                    if DeleteAccountIfOrphaned(left, u).value.Deleted? then joined - {u} else joined)
  {
    LeaveTidy(db, left, c, {u}, joined);
    OrphanTidy(left, u, joined - {u});
    RootedSubset(DeleteAccountIfOrphaned(left, u).db, joined - {u} + {u}, joined);
  }

  lemma RemoveMemberJoined(db: Db, g: RemovalGrant)
    requires RemoveMember(db, g).Done?
    ensures Joined(RemoveMember(db, g).db) ==
            if RemoveMember(db, g).value.Deleted? then Joined(db) - {g.target} else Joined(db)
  {
    var left := AfterRemoval(db, g);
    RemoveMemberSteps(db, g);
    JoinedOne(db, left, RemovedEvent(g.actor, g.company, g.target, g.targetRole));
    OrphanJoined(left, g.target);
  }

  lemma RemoveMemberTidyFor(db: Db, g: RemovalGrant, joined: set<UserId>)
    requires Refs(db) && TidyFor(db, joined) && RemoveMember(db, g).Done?
    ensures TidyFor(RemoveMember(db, g).db, if RemoveMember(db, g).value.Deleted? then joined - {g.target} else joined)
  {
    RemoveMemberSteps(db, g);
    AfterRemovalLeft(db, g);
    LeaveThenOrphanTidy(db, AfterRemoval(db, g), g.target, g.company, joined);
  }

  lemma RemoveMemberTidy(db: Db, g: RemovalGrant)
    requires Refs(db) && Tidy(db)
    ensures RemoveMember(db, g).Done? ==> Tidy(RemoveMember(db, g).db)
  {
    if RemoveMember(db, g).Done? {
      RemoveMemberJoined(db, g);
      RemoveMemberTidyFor(db, g, Joined(db));
    }
  }

  lemma RootedSubset(db: Db, joined: set<UserId>, fewer: set<UserId>)
    requires fewer <= joined
    ensures Rooted(db, joined) ==> Rooted(db, fewer)
  {
  }

  /** Pointing a user at one of their companies. */
  ghost predicate PointsAt(before: Db, after: Db, u: UserId, c: CompanyId) {
    && (u, c) in before.members && u in before.users
    && after == before.(users := before.users[u := before.users[u].(current := Some(c))], audit := after.audit)
  }

  lemma PointSound(before: Db, after: Db, u: UserId, c: CompanyId)
    requires Sound(before) && PointsAt(before, after, u, c)
    ensures Sound(after)
  {
    forall d | IsActive(after, d) ensures OwnersOf(after.members, d) != {} {
      assert IsActive(before, d);
    }
  }

  lemma PointTidy(before: Db, after: Db, u: UserId, c: CompanyId, joined: set<UserId>)
    requires TidyFor(before, joined) && PointsAt(before, after, u, c)
    ensures TidyFor(after, joined)
  {
    forall k | k in after.members ensures IsActive(after, k.1) {
      assert IsActive(before, k.1);
    }
    assert IsActive(after, (u, c).1);
    forall v ensures ActiveCompaniesOf(after, v) == ActiveCompaniesOf(before, v) {
      SameActive(after, before, v);
    }
    forall v | v in after.users ensures PointerExact(after, v) {
      assert PointerExact(before, v);
    }
    forall i | i in after.invitations && after.invitations[i].status.PENDING? ensures IsActive(after, after.invitations[i].company) {
      assert IsActive(before, after.invitations[i].company);
    }
  }

  lemma SwitchSound(db: Db, u: UserId, c: CompanyId)
    requires Sound(db) && SwitchCurrentCompany(db, u, c).Done?
    ensures Sound(SwitchCurrentCompany(db, u, c).db)
  {
    if SwitchCurrentCompany(db, u, c).db != db {
      PointSound(db, SwitchCurrentCompany(db, u, c).db, u, c);
    }
  }

  lemma SwitchTidy(db: Db, u: UserId, c: CompanyId)
    requires Refs(db) && Tidy(db) && SwitchCurrentCompany(db, u, c).Done?
    ensures Tidy(SwitchCurrentCompany(db, u, c).db)
  {
    var after := SwitchCurrentCompany(db, u, c).db;
    if after != db {
      assert u in db.users by {
        assert (u, c).0 == u;
      }
      PointTidy(db, after, u, c, Joined(db));
      JoinedOne(db, after, CompanySwitched(u, db.users[u].current, c));
    }
  }

  // ----- invitations -----

  /** Writes to the invitation table only. */
  ghost predicate InvitationsOnly(before: Db, after: Db) {
    after.users == before.users && after.companies == before.companies && after.members == before.members
  }

  lemma InvitationsOnlyOwned(before: Db, after: Db)
    requires Owned(before, {}) && InvitationsOnly(before, after)
    ensures Owned(after, {})
  {
    assert forall c :: IsActive(after, c) ==> IsActive(before, c);
  }

  /** The tidy invariants then depend only on what is pending. */
  lemma InvitationsOnlyTidy(before: Db, after: Db, joined: set<UserId>)
    requires TidyFor(before, joined) && InvitationsOnly(before, after)
    ensures TidyFor(after, joined) <==>
            forall i :: i in after.invitations && after.invitations[i].status.PENDING? ==> IsActive(after, after.invitations[i].company)
  {
    forall k | k in after.members ensures IsActive(after, k.1) {
      assert IsActive(before, k.1);
    }
    forall u ensures ActiveCompaniesOf(after, u) == ActiveCompaniesOf(before, u) {
      SameActive(after, before, u);
    }
    forall u | u in after.users ensures PointerExact(after, u) {
      assert PointerExact(before, u);
    }
  }

  lemma InviteSound(db: Db, g: InviteGrant, id: InvitationId, now: Time)
    requires Sound(db) && InviteToCompany(db, g, id, now).Done?
    ensures Sound(InviteToCompany(db, g, id, now).db)
  {
    InvitationsOnlyOwned(db, InviteToCompany(db, g, id, now).db);
  }

  /**
   * An invitation may be inserted after its grant went stale. The tidy invariants survive exactly when
   * the company is still ACTIVE at the insert.
   */
  lemma InviteTidyIffActive(db: Db, g: InviteGrant, id: InvitationId, now: Time)
    requires Tidy(db) && InviteToCompany(db, g, id, now).Done?
    ensures Tidy(InviteToCompany(db, g, id, now).db) <==> IsActive(db, g.company)
  {
    var after := InviteToCompany(db, g, id, now).db;
    JoinedOne(db, after, InvitationSent(g.actor, id, g.company, g.email, g.role));
    InvitationsOnlyTidy(db, after, Joined(db));
    InvitePending(db, g, id, now);
  }

  lemma InvitePending(db: Db, g: InviteGrant, id: InvitationId, now: Time)
    requires Closed(db) && InviteToCompany(db, g, id, now).Done?
    ensures var after := InviteToCompany(db, g, id, now).db;
            IsActive(db, g.company) <==>
            forall i :: i in after.invitations && after.invitations[i].status.PENDING? ==> IsActive(after, after.invitations[i].company)
  {
    var after := InviteToCompany(db, g, id, now).db;
    assert id in after.invitations && after.invitations[id].company == g.company && after.invitations[id].status.PENDING?;
    forall i | i in after.invitations && after.invitations[i].status.PENDING? && i != id
      ensures IsActive(after, after.invitations[i].company)
    {
      assert IsActive(db, db.invitations[i].company);
    }
  }

  /** Guard and insert as one step: the inviter's membership is itself the proof that the company is ACTIVE. */
  lemma InviteAsOneStepTidy(db: Db, actor: UserId, c: CompanyId, email: string, role: Role, id: InvitationId, now: Time)
    requires Tidy(db) && RequireInvite(db, actor, c, email, role).Granted?
    requires InviteToCompany(db, RequireInvite(db, actor, c, email, role).grant, id, now).Done?
    ensures Tidy(InviteToCompany(db, RequireInvite(db, actor, c, email, role).grant, id, now).db)
  {
    assert (actor, c).1 == c;
    InviteTidyIffActive(db, RequireInvite(db, actor, c, email, role).grant, id, now);
  }

  /** Rows settled, none added: the immutable columns stay, and no row becomes pending. */
  ghost predicate Settles(before: Db, after: Db) {
    && InvitationsOnly(before, after)
    && after.invitations.Keys == before.invitations.Keys && after.issued == before.issued
    && forall i :: i in before.invitations ==>
         && SameInvitation(before.invitations[i], after.invitations[i])
         && (after.invitations[i].status.PENDING? ==> after.invitations[i] == before.invitations[i])
         && (StampsMatch(before.invitations[i]) ==> StampsMatch(after.invitations[i]))
  }

  /** Equal in every column that is never updated. */
  predicate SameInvitation(a: Invitation, b: Invitation) {
    a.company == b.company && a.email == b.email && a.role == b.role && a.invitedBy == b.invitedBy
  }

  lemma SettlesSound(before: Db, after: Db)
    requires Sound(before) && Settles(before, after)
    ensures Sound(after)
  {
    InvitationsOnlyOwned(before, after);
    forall i | i in after.invitations ensures StampsMatch(after.invitations[i]) && SameInvitation(before.invitations[i], after.invitations[i]) {
      assert StampsMatch(before.invitations[i]);
    }
  }

  lemma SettlesTidy(before: Db, after: Db, joined: set<UserId>)
    requires TidyFor(before, joined) && Settles(before, after)
    ensures TidyFor(after, joined)
  {
    InvitationsOnlyTidy(before, after, joined);
    forall i | i in after.invitations && after.invitations[i].status.PENDING? ensures IsActive(after, after.invitations[i].company) {
      assert IsActive(before, before.invitations[i].company);
    }
  }

  lemma RevokeSound(db: Db, g: MemberGrant, id: InvitationId, now: Time)
    requires Sound(db) && RevokeInvitation(db, g, id, now).Done?
    ensures Sound(RevokeInvitation(db, g, id, now).db)
  {
    SettlesSound(db, RevokeInvitation(db, g, id, now).db);
  }

  lemma RevokeTidy(db: Db, g: MemberGrant, id: InvitationId, now: Time)
    requires Tidy(db) && RevokeInvitation(db, g, id, now).Done?
    ensures Tidy(RevokeInvitation(db, g, id, now).db)
  {
    SettlesTidy(db, RevokeInvitation(db, g, id, now).db, Joined(db));
    JoinedOne(db, RevokeInvitation(db, g, id, now).db, InvitationRevoked(g.actor, id, g.company));
  }

  /** The columns of the grant's invitation row that never change still describe the row, if there is one. */
  ghost predicate Linked(db: Db, g: AcceptGrant) {
    g.id in db.issued && (g.id in db.invitations ==> SameInvitation(db.invitations[g.id], g.row))
  }

  lemma AcceptJoins(db: Db, g: AcceptGrant, membership: MembershipId, now: Time)
    requires AcceptInvitation(db, g, membership, now).Done?
    ensures var after := AcceptInvitation(db, g, membership, now).db;
            && Joins(db, after, g.actor, g.row.company, Membership(membership, g.row.role, now))
            && after.companies == db.companies && after.issued == db.issued + {membership} && g.row.company in db.companies
            && after.invitations == SettleInvitation(db, g.id, ACCEPTED, now).invitations
            && after.audit == db.audit + [InvitationAccepted(g.actor, g.id, g.row.company, g.row.role)]
            && after.hooks == db.hooks
  {
  }

  lemma AcceptSound(db: Db, g: AcceptGrant, membership: MembershipId, now: Time)
    requires Sound(db) && AcceptInvitation(db, g, membership, now).Done?
    ensures Sound(AcceptInvitation(db, g, membership, now).db)
  {
    AcceptJoins(db, g, membership, now);
    JoinOwned(db, AcceptInvitation(db, g, membership, now).db, g.actor, g.row.company, Membership(membership, g.row.role, now));
  }

  lemma AcceptTidy(db: Db, g: AcceptGrant, membership: MembershipId, now: Time)
    requires Tidy(db) && Linked(db, g) && AcceptInvitation(db, g, membership, now).Done?
    ensures Tidy(AcceptInvitation(db, g, membership, now).db)
  {
    var after := AcceptInvitation(db, g, membership, now).db;
    AcceptJoins(db, g, membership, now);
    assert IsActive(db, db.invitations[g.id].company);
    JoinTidy(db, after, g.actor, g.row.company, Membership(membership, g.row.role, now), Joined(db));
    JoinedOne(db, after, InvitationAccepted(g.actor, g.id, g.row.company, g.row.role));
  }

  // ----- company deletion -----

  lemma EmptyCompanyLeft(db: Db, actor: UserId, c: CompanyId, removed: seq<UserId>)
    requires Elements(removed) == MembersOf(db.members, c)
    requires forall u :: u in removed ==> (u, c) in db.members
    ensures Left(db, EmptyCompany(db, actor, c, removed), c, Elements(removed))
  {
    forall k | k in db.members && k.1 == c ensures k.0 in Elements(removed) {
      assert k.0 in MembersOf(db.members, c);
    }
    assert db.(members := WithoutCompany(db.members, c)).members == EmptyCompany(db, actor, c, removed).members;
  }

  lemma RevokeInvitationsSettle(db: Db, actor: UserId, c: CompanyId, revoked: seq<InvitationId>, now: Time)
    ensures var quiet := RevokeInvitationsOf(db, actor, c, revoked, now);
            Settles(db, quiet) && PendingOf(quiet, c) == {}
  {
  }

  lemma RevokeInvitationsJoined(db: Db, actor: UserId, c: CompanyId, revoked: seq<InvitationId>, now: Time)
    ensures Joined(RevokeInvitationsOf(db, actor, c, revoked, now)) == Joined(db)
  {
    ReplayAppend(db.audit, RevokedEvents(actor, c, revoked));
    RevokedEventsRecord(Replay(db.audit), actor, c, revoked);
  }

  lemma EmptyCompanySound(db: Db, actor: UserId, c: CompanyId, removed: seq<UserId>)
    requires Sound(db) && Elements(removed) == MembersOf(db.members, c)
    requires forall u :: u in removed ==> (u, c) in db.members
    ensures var emptied := EmptyCompany(db, actor, c, removed);
            Refs(emptied) && Stamped(emptied) && Owned(emptied, {c})
  {
    var emptied := EmptyCompany(db, actor, c, removed);
    forall d | IsActive(emptied, d) && d !in {c} ensures OwnersOf(emptied.members, d) != {} {
      OwnersElsewhere(db.members, c, d);
      assert IsActive(db, d);
    }
  }

  lemma EmptyCompanyTidy(db: Db, actor: UserId, c: CompanyId, removed: seq<UserId>, joined: set<UserId>)
    requires Refs(db) && TidyFor(db, joined) && Elements(removed) == MembersOf(db.members, c)
    requires forall u :: u in removed ==> (u, c) in db.members
    ensures TidyFor(EmptyCompany(db, actor, c, removed), joined - Elements(removed))
  {
    EmptyCompanyLeft(db, actor, c, removed);
    LeaveTidy(db, EmptyCompany(db, actor, c, removed), c, Elements(removed), joined);
  }

  lemma EmptyCompanyJoined(db: Db, actor: UserId, c: CompanyId, removed: seq<UserId>)
    requires forall u :: u in removed ==> (u, c) in db.members
    ensures Joined(EmptyCompany(db, actor, c, removed)) == Joined(db)
  {
    ReplayAppend(db.audit, RemovedEvents(db.members, actor, c, removed));
    RemovedEventsRecord(Replay(db.audit), db.members, actor, c, removed);
  }

  /** Closing a company nobody is in and nothing is pending for. */
  lemma SoftDeleteKeeps(db: Db, actor: UserId, c: CompanyId, name: string, joined: set<UserId>)
    requires Refs(db) && Stamped(db) && Owned(db, {c}) && IsActive(db, c)
    ensures var closed := Append(SoftDeleteCompany(db, c), [CompanyDeleted(actor, c, name)]);
            && Sound(closed)
            && (TidyFor(db, joined) && MembersOf(db.members, c) == {} && PendingOf(db, c) == {} ==> TidyFor(closed, joined))
  {
    var closed := Append(SoftDeleteCompany(db, c), [CompanyDeleted(actor, c, name)]);
    forall d | IsActive(closed, d) ensures OwnersOf(closed.members, d) != {} {
      assert IsActive(db, d);
    }
    if TidyFor(db, joined) && MembersOf(db.members, c) == {} && PendingOf(db, c) == {} {
      forall k | k in db.members ensures IsActive(closed, k.1) {
        assert k.1 == c ==> k.0 in MembersOf(db.members, c);
        assert IsActive(db, k.1);
      }
      forall i | i in db.invitations && db.invitations[i].status.PENDING? ensures IsActive(closed, db.invitations[i].company) {
        assert db.invitations[i].company == c ==> i in PendingOf(db, c);
        assert IsActive(db, db.invitations[i].company);
      }
      forall u ensures ActiveCompaniesOf(closed, u) == ActiveCompaniesOf(db, u) {
        SameActiveUnlessMember(closed, db, u);
      }
      forall u | u in closed.users ensures PointerExact(closed, u) {
        assert PointerExact(db, u);
        if db.users[u].current.Some? {
          assert (u, db.users[u].current.value).1 == db.users[u].current.value;
        }
      }
    }
  }

  lemma SameActiveUnlessMember(a: Db, b: Db, u: UserId)
    requires a.members == b.members
    requires forall k :: k in a.members ==> (IsActive(a, k.1) <==> IsActive(b, k.1))
    ensures ActiveCompaniesOf(a, u) == ActiveCompaniesOf(b, u)
  {
    forall c ensures ((u, c) in a.members && IsActive(a, c)) <==> ((u, c) in b.members && IsActive(b, c)) {
      if (u, c) in a.members {
        assert IsActive(a, (u, c).1) <==> IsActive(b, (u, c).1);
      }
    }
    SameActive(a, b, u);
  }

  lemma {:induction false} OrphansOnlyShrink(db: Db, us: seq<UserId>)
    requires DeleteOrphans(db, us).Done?
    ensures var after := DeleteOrphans(db, us).db;
            && after.members.Keys <= db.members.Keys
            && forall i :: i in after.invitations ==> i in db.invitations && after.invitations[i] == db.invitations[i]
    decreases |us|
  {
    if us != [] {
      OrphansOnlyShrink(db, us[..|us| - 1]);
    }
  }

  lemma DeleteCompanySound(db: Db, actor: UserId, c: CompanyId, revoked: seq<InvitationId>, removed: seq<UserId>, now: Time)
    requires Sound(db) && Enumerates(removed, MembersOf(db.members, c))
    requires DeleteCompany(db, actor, c, revoked, removed, now).Done?
    ensures Sound(DeleteCompany(db, actor, c, revoked, removed, now).db)
  {
    if IsActive(db, c) {
      assert forall u :: u in removed ==> u in Elements(removed);
      var quiet := RevokeInvitationsOf(db, actor, c, revoked, now);
      RevokeInvitationsSettle(db, actor, c, revoked, now);
      SettlesSound(db, quiet);
      var emptied := EmptyCompany(quiet, actor, c, removed);
      EmptyCompanySound(quiet, actor, c, removed);
      var us := Ascending(Elements(removed));
      OrphansSound(emptied, us, {c});
      OrphansKeepCompanies(emptied, us);
      SoftDeleteKeeps(DeleteOrphans(emptied, us).db, actor, c, db.companies[c].name, {});
    }
  }

  /** The snapshot DeleteCompany reaches before it closes the company. */
  ghost function Emptied(db: Db, actor: UserId, c: CompanyId, revoked: seq<InvitationId>, removed: seq<UserId>, now: Time): Db
    requires Enumerates(removed, MembersOf(db.members, c))
  {
    assert forall u :: u in removed ==> u in Elements(removed);
    EmptyCompany(RevokeInvitationsOf(db, actor, c, revoked, now), actor, c, removed)
  }

  lemma DeleteCompanySteps(db: Db, actor: UserId, c: CompanyId, revoked: seq<InvitationId>, removed: seq<UserId>, now: Time)
    requires Enumerates(removed, MembersOf(db.members, c)) && IsActive(db, c)
    requires DeleteCompany(db, actor, c, revoked, removed, now).Done?
    ensures var swept := DeleteOrphans(Emptied(db, actor, c, revoked, removed, now), Ascending(Elements(removed)));
            && swept.Done?
            && DeleteCompany(db, actor, c, revoked, removed, now) ==
               Done(Append(SoftDeleteCompany(swept.db, c), [CompanyDeleted(actor, c, db.companies[c].name)]), swept.value)
    ensures HasRole(db.members, actor, c, OWNER)
  {
  }

  lemma EmptiedKeeps(db: Db, actor: UserId, c: CompanyId, revoked: seq<InvitationId>, removed: seq<UserId>, now: Time,
                     joined: set<UserId>)
    requires Sound(db) && TidyFor(db, joined) && Enumerates(removed, MembersOf(db.members, c))
    ensures var emptied := Emptied(db, actor, c, revoked, removed, now);
            && Refs(emptied) && Stamped(emptied) && Owned(emptied, {c}) && TidyFor(emptied, joined - Elements(removed))
            && MembersOf(emptied.members, c) == {} && PendingOf(emptied, c) == {}
            && emptied.companies == db.companies && emptied.users.Keys == db.users.Keys
  {
    assert forall u :: u in removed ==> u in Elements(removed);
    var quiet := RevokeInvitationsOf(db, actor, c, revoked, now);
    RevokeInvitationsSettle(db, actor, c, revoked, now);
    SettlesSound(db, quiet);
    SettlesTidy(db, quiet, joined);
    EmptyCompanySound(quiet, actor, c, removed);
    EmptyCompanyTidy(quiet, actor, c, removed, joined);
  }

  lemma SweptKeeps(emptied: Db, c: CompanyId, us: seq<UserId>, joined: set<UserId>)
    requires Refs(emptied) && Stamped(emptied) && Owned(emptied, {c}) && TidyFor(emptied, joined - Elements(us))
    requires NoDuplicates(us) && Elements(us) <= emptied.users.Keys && IsActive(emptied, c)
    requires MembersOf(emptied.members, c) == {} && PendingOf(emptied, c) == {} && DeleteOrphans(emptied, us).Done?
    ensures var swept, gone := DeleteOrphans(emptied, us).db, DeleteOrphans(emptied, us).value;
            && Refs(swept) && Stamped(swept) && Owned(swept, {c}) && TidyFor(swept, joined - Elements(gone)) && IsActive(swept, c)
            && MembersOf(swept.members, c) == {} && PendingOf(swept, c) == {}
  {
    var swept, gone := DeleteOrphans(emptied, us).db, DeleteOrphans(emptied, us).value;
    OrphansSound(emptied, us, {c});
    OrphansTidy(emptied, us, joined - Elements(us));
    OrphansKeepCompanies(emptied, us);
    OrphansOnlyShrink(emptied, us);
    RootedSubset(swept, joined - Elements(us) + Elements(us) - Elements(gone), joined - Elements(gone));
    assert PendingOf(swept, c) <= PendingOf(emptied, c);
  }

  lemma DeleteCompanyTidyFor(db: Db, actor: UserId, c: CompanyId, revoked: seq<InvitationId>, removed: seq<UserId>, now: Time,
                             joined: set<UserId>)
    requires Sound(db) && TidyFor(db, joined) && Enumerates(removed, MembersOf(db.members, c))
    requires DeleteCompany(db, actor, c, revoked, removed, now).Done?
    ensures var closed := DeleteCompany(db, actor, c, revoked, removed, now);
            TidyFor(closed.db, joined - Elements(closed.value))
  {
    if IsActive(db, c) {
      var emptied := Emptied(db, actor, c, revoked, removed, now);
      var us := Ascending(Elements(removed));
      DeleteCompanySteps(db, actor, c, revoked, removed, now);
      EmptiedKeeps(db, actor, c, revoked, removed, now, joined);
      MembersExist(db, c);
      AscendingMeaning(Elements(removed));
      SweptKeeps(emptied, c, us, joined);
      var swept := DeleteOrphans(emptied, us);
      SoftDeleteKeeps(swept.db, actor, c, db.companies[c].name, joined - Elements(swept.value));
    } else {
      assert joined - Elements(DeleteCompany(db, actor, c, revoked, removed, now).value) == joined;
    }
  }

  lemma EmptiedJoined(db: Db, actor: UserId, c: CompanyId, revoked: seq<InvitationId>, removed: seq<UserId>, now: Time)
    requires Enumerates(removed, MembersOf(db.members, c))
    ensures Joined(Emptied(db, actor, c, revoked, removed, now)) == Joined(db)
  {
    assert forall u :: u in removed ==> u in Elements(removed);
    var quiet := RevokeInvitationsOf(db, actor, c, revoked, now);
    RevokeInvitationsJoined(db, actor, c, revoked, now);
    EmptyCompanyJoined(quiet, actor, c, removed);
  }

  lemma DeleteCompanyJoined(db: Db, actor: UserId, c: CompanyId, revoked: seq<InvitationId>, removed: seq<UserId>, now: Time)
    requires Enumerates(removed, MembersOf(db.members, c))
    requires DeleteCompany(db, actor, c, revoked, removed, now).Done?
    ensures var closed := DeleteCompany(db, actor, c, revoked, removed, now);
            Joined(closed.db) == Joined(db) - Elements(closed.value)
  {
    if IsActive(db, c) {
      var emptied, us := Emptied(db, actor, c, revoked, removed, now), Ascending(Elements(removed));
      DeleteCompanySteps(db, actor, c, revoked, removed, now);
      EmptiedJoined(db, actor, c, revoked, removed, now);
      OrphansJoined(emptied, us);
      JoinedOne(DeleteOrphans(emptied, us).db, DeleteCompany(db, actor, c, revoked, removed, now).db,
                CompanyDeleted(actor, c, db.companies[c].name));
    }
  }

  lemma DeleteCompanyTidy(db: Db, actor: UserId, c: CompanyId, revoked: seq<InvitationId>, removed: seq<UserId>, now: Time)
    requires Sound(db) && Tidy(db) && Enumerates(removed, MembersOf(db.members, c))
    requires DeleteCompany(db, actor, c, revoked, removed, now).Done?
    ensures Tidy(DeleteCompany(db, actor, c, revoked, removed, now).db)
  {
    DeleteCompanyJoined(db, actor, c, revoked, removed, now);
    DeleteCompanyTidyFor(db, actor, c, revoked, removed, now, Joined(db));
  }

  lemma MembersExist(db: Db, c: CompanyId)
    requires Refs(db)
    ensures MembersOf(db.members, c) <= db.users.Keys
  {
  }

  // ----- sign-up -----

  lemma SignUpKeeps(db: Db, u: UserId, email: string, now: Time)
    requires Sound(db) && SignUp(db, u, email, now).Done?
    ensures Sound(SignUp(db, u, email, now).db)
    ensures Tidy(db) ==> Tidy(SignUp(db, u, email, now).db)
  {
    var after := SignUp(db, u, email, now).db;
    forall d | IsActive(after, d) ensures OwnersOf(after.members, d) != {} {
      assert IsActive(db, d);
    }
    forall v ensures ActiveCompaniesOf(after, v) == ActiveCompaniesOf(db, v) {
      SameActive(after, db, v);
    }
    if Tidy(db) {
      forall v | v in after.users ensures PointerExact(after, v) {
        if v != u {
          assert PointerExact(db, v);
        } else {
          forall c ensures c !in ActiveCompaniesOf(after, u) {
            ActiveMeaning(db, u, c);
            assert (u, c).0 == u;
          }
        }
      }
    }
  }
}
