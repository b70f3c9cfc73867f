/**
 * The audit log as an event history: folding it from the empty log rebuilds the membership roles,
 * the invitation statuses and the company activation. Every transaction is shown to append exactly
 * the events that account for its writes.
 */
module OrgHistory {
  import opened Prelude
  import opened OrgModel
  import opened OrgGuards
  import opened OrgTransactions

  datatype InvitationRecord = InvitationRecord(company: CompanyId, email: string, role: Role, invitedBy: UserId, status: InvitationStatus)

  /** What a reader of the log alone knows. `joined` are the live accounts that ever held a membership. */
  datatype Record = Record(
    roles: map<(UserId, CompanyId), Role>,
    invitations: map<InvitationId, InvitationRecord>,
    companies: map<CompanyId, Activation>,
    joined: set<UserId>,
    deleted: seq<UserId>)

  const BLANK := Record(map[], map[], map[], {}, [])

  function Apply(r: Record, e: Event): Record {
    match e
    case AccountDeleted(u) =>
      r.(roles := map k | k in r.roles && k.0 != u :: r.roles[k],
         invitations := map i | i in r.invitations && r.invitations[i].invitedBy != u :: r.invitations[i],
         joined := r.joined - {u},
         deleted := r.deleted + [u])
    case CompanyCreated(u, c, _) =>
      r.(companies := r.companies[c := ACTIVE], roles := r.roles[(u, c) := OWNER], joined := r.joined + {u})
    case CompanyDeleted(_, c, _) => r.(companies := r.companies[c := DELETED])
    case CompanySwitched(_, _, _) => r
    case InvitationSent(actor, i, c, email, role) =>
      r.(invitations := r.invitations[i := InvitationRecord(c, email, role, actor, PENDING)])
    case InvitationAccepted(u, i, c, role) =>
      Settle(r, i, ACCEPTED).(roles := r.roles[(u, c) := role], joined := r.joined + {u})
    case InvitationRevoked(_, i, _) => Settle(r, i, REVOKED)
    case InvitationAcceptRejected(_, _, _, _) => r
    case MembershipRemoved(_, c, u, _, _) => r.(roles := r.roles - {(u, c)})
    case RoleChanged(_, c, u, _, after) => r.(roles := r.roles[(u, c) := after])
    case OwnershipTransferred(c, fromUser, toUser) =>
      r.(roles := r.roles[(toUser, c) := OWNER][(fromUser, c) := ADMIN])
  }

  function Settle(r: Record, i: InvitationId, status: InvitationStatus): Record {
    if i !in r.invitations then r
    else r.(invitations := r.invitations[i := r.invitations[i].(status := status)])
  }

  function Replay(es: seq<Event>): Record {
    if es == [] then BLANK else Apply(Replay(es[..|es| - 1]), es[|es| - 1])
  }

  function ReplayFrom(r: Record, es: seq<Event>): Record {
    if es == [] then r else Apply(ReplayFrom(r, es[..|es| - 1]), es[|es| - 1])
  }

  lemma {:induction false} ReplayAppend(a: seq<Event>, b: seq<Event>)
    ensures Replay(a + b) == ReplayFrom(Replay(a), b)
  {
    if b == [] {
      assert a + b == a;
    } else {
      ReplayAppend(a, b[..|b| - 1]);
      assert (a + b)[..|a + b| - 1] == a + b[..|b| - 1];
    }
  }

  lemma ReplayOne(a: seq<Event>, e: Event)
    ensures Replay(a + [e]) == Apply(Replay(a), e)
  {
    assert (a + [e])[..|a|] == a;
  }

  // ----- what the tables say -----

  function Roles(m: Members): map<(UserId, CompanyId), Role> {
    map k | k in m :: m[k].role
  }

  function RecordOf(i: Invitation): InvitationRecord {
    InvitationRecord(i.company, i.email, i.role, i.invitedBy, i.status)
  }

  function InvitationRecords(rows: map<InvitationId, Invitation>): map<InvitationId, InvitationRecord> {
    map i | i in rows :: RecordOf(rows[i])
  }

  function Activations(cs: map<CompanyId, Company>): map<CompanyId, Activation> {
    map c | c in cs :: cs[c].status
  }

  /** The record rebuilt from events agrees with the tables, exactly. */
  ghost predicate Tells(r: Record, db: Db) {
    && r.roles == Roles(db.members)
    && r.invitations == InvitationRecords(db.invitations)
    && r.companies == Activations(db.companies)
  }

  /**
   * The log tells the whole story of the tables, and the accounts it reports deleted are, in order,
   * those whose sessions were already ended plus those the open transaction has registered.
   */
  ghost predicate Faithful(db: Db, ended: seq<UserId>) {
    Tells(Replay(db.audit), db) && Replay(db.audit).deleted == ended + db.hooks
  }

  // ----- table updates seen from the log -----

  lemma RolesUpdate(m: Members, k: (UserId, CompanyId), row: Membership)
    ensures Roles(m[k := row]) == Roles(m)[k := row.role]
  {
  }

  lemma RolesRemove(m: Members, k: (UserId, CompanyId))
    ensures Roles(m - {k}) == Roles(m) - {k}
  {
  }

  lemma RolesWithoutUser(m: Members, u: UserId)
    ensures Roles(WithoutUser(m, u)) == map k | k in Roles(m) && k.0 != u :: Roles(m)[k]
  {
  }

  lemma RecordsUpdate(rows: map<InvitationId, Invitation>, i: InvitationId, row: Invitation)
    ensures InvitationRecords(rows[i := row]) == InvitationRecords(rows)[i := RecordOf(row)]
  {
  }

  lemma RecordsWithoutInviter(rows: map<InvitationId, Invitation>, u: UserId)
    ensures var rs := InvitationRecords(rows);
            InvitationRecords(WithoutInviter(rows, u)) == map i | i in rs && rs[i].invitedBy != u :: rs[i]
  {
  }

  lemma ActivationsUpdate(cs: map<CompanyId, Company>, c: CompanyId, row: Company)
    ensures Activations(cs[c := row]) == Activations(cs)[c := row.status]
  {
  }

  // ----- each logged write keeps the log faithful -----

  /** Writes that the log's readers cannot see, described by an event that tells them nothing. */
  lemma Unseen(db: Db, ended: seq<UserId>, after: Db, e: Event)
    requires Faithful(db, ended) && (e.CompanySwitched? || e.InvitationAcceptRejected?)
    requires after.audit == db.audit + [e] && after.members == db.members && after.invitations == db.invitations
    requires after.companies == db.companies && after.hooks == db.hooks
    ensures Faithful(after, ended)
  {
    ReplayOne(db.audit, e);
  }

  lemma DeleteAccountFaithful(db: Db, ended: seq<UserId>, u: UserId)
    requires Faithful(db, ended) && DeleteAccount(db, u).Done?
    ensures Faithful(DeleteAccount(db, u).db, ended)
  {
    ReplayOne(db.audit, AccountDeleted(u));
    RolesWithoutUser(db.members, u);
    RecordsWithoutInviter(db.invitations, u);
  }

  lemma OrphanFaithful(db: Db, ended: seq<UserId>, u: UserId)
    requires Faithful(db, ended) && DeleteAccountIfOrphaned(db, u).Done?
    ensures Faithful(DeleteAccountIfOrphaned(db, u).db, ended)
  {
    if DeleteAccount(db, u).Done? {
      DeleteAccountFaithful(db, ended, u);
    }
  }

  lemma {:induction false} OrphansFaithful(db: Db, ended: seq<UserId>, us: seq<UserId>)
    requires Faithful(db, ended) && DeleteOrphans(db, us).Done?
    ensures Faithful(DeleteOrphans(db, us).db, ended)
    decreases |us|
  {
    if us != [] {
      OrphansFaithful(db, ended, us[..|us| - 1]);
      OrphanFaithful(DeleteOrphans(db, us[..|us| - 1]).db, ended, us[|us| - 1]);
    }
  }

  lemma CreateCompanyFaithful(db: Db, ended: seq<UserId>, u: UserId, c: CompanyId, id: MembershipId, name: string, now: Time)
    requires Faithful(db, ended) && CreateCompanyWithOwner(db, u, c, id, name, now).Done?
    ensures Faithful(CreateCompanyWithOwner(db, u, c, id, name, now).db, ended)
  {
    ReplayOne(db.audit, CompanyCreated(u, c, name));
    RolesUpdate(db.members, (u, c), Membership(id, OWNER, now));
    ActivationsUpdate(db.companies, c, Company(name, ACTIVE));
  }

  lemma ChangeRoleFaithful(db: Db, ended: seq<UserId>, g: RoleChangeGrant)
    requires Faithful(db, ended) && ChangeRole(db, g).Done?
    ensures Faithful(ChangeRole(db, g).db, ended)
  {
    if g.targetRole != g.nextRole {
      ReplayOne(db.audit, RoleChanged(g.actor, g.company, g.target, g.targetRole, g.nextRole));
      RolesUpdate(db.members, (g.target, g.company), db.members[(g.target, g.company)].(role := g.nextRole));
    }
  }

  lemma TransferFaithful(db: Db, ended: seq<UserId>, g: TransferGrant)
    requires Faithful(db, ended) && TransferOwnership(db, g).Done?
    ensures Faithful(TransferOwnership(db, g).db, ended)
  {
    var raised := UpdateRole(db, g.to, g.company, OWNER).db;
    ReplayOne(db.audit, OwnershipTransferred(g.company, g.actor, g.to));
    RolesUpdate(db.members, (g.to, g.company), db.members[(g.to, g.company)].(role := OWNER));
    RolesUpdate(raised.members, (g.actor, g.company), raised.members[(g.actor, g.company)].(role := ADMIN));
  }

  lemma RemoveMemberFaithful(db: Db, ended: seq<UserId>, g: RemovalGrant)
    requires Faithful(db, ended) && RemoveMember(db, g).Done?
    ensures Faithful(RemoveMember(db, g).db, ended)
  {
    var e := RemovedEvent(g.actor, g.company, g.target, g.targetRole);
    ReplayOne(db.audit, e);
    RolesRemove(db.members, (g.target, g.company));
    OrphanFaithful(Append(ApplyRemoval(db, g.target, g.company).db, [e]), ended, g.target);
  }

  lemma SwitchFaithful(db: Db, ended: seq<UserId>, u: UserId, c: CompanyId)
    requires Faithful(db, ended) && SwitchCurrentCompany(db, u, c).Done?
    ensures Faithful(SwitchCurrentCompany(db, u, c).db, ended)
  {
    var from := if u in db.users then db.users[u].current else None;
    if from != Some(c) {
      Unseen(db, ended, SwitchCurrentCompany(db, u, c).db, CompanySwitched(u, from, c));
    }
  }

  lemma InviteFaithful(db: Db, ended: seq<UserId>, g: InviteGrant, id: InvitationId, now: Time)
    requires Faithful(db, ended) && InviteToCompany(db, g, id, now).Done?
    ensures Faithful(InviteToCompany(db, g, id, now).db, ended)
  {
    ReplayOne(db.audit, InvitationSent(g.actor, id, g.company, g.email, g.role));
    RecordsUpdate(db.invitations, id, InviteToCompany(db, g, id, now).db.invitations[id]);
  }

  lemma RevokeFaithful(db: Db, ended: seq<UserId>, g: MemberGrant, id: InvitationId, now: Time)
    requires Faithful(db, ended) && RevokeInvitation(db, g, id, now).Done?
    ensures Faithful(RevokeInvitation(db, g, id, now).db, ended)
  {
    ReplayOne(db.audit, InvitationRevoked(g.actor, id, g.company));
    RecordsUpdate(db.invitations, id, WithStatus(db.invitations[id], REVOKED, now));
  }

  lemma AcceptFaithful(db: Db, ended: seq<UserId>, g: AcceptGrant, membership: MembershipId, now: Time)
    requires Faithful(db, ended) && AcceptInvitation(db, g, membership, now).Done?
    ensures Faithful(AcceptInvitation(db, g, membership, now).db, ended)
  {
    ReplayOne(db.audit, InvitationAccepted(g.actor, g.id, g.row.company, g.row.role));
    RecordsUpdate(db.invitations, g.id, WithStatus(db.invitations[g.id], ACCEPTED, now));
    RolesUpdate(db.members, (g.actor, g.row.company), Membership(membership, g.row.role, now));
  }

  // ----- what the log says about who has joined -----

  function JoinedBy(joined: set<UserId>, e: Event): set<UserId> {
    match e
    case AccountDeleted(u) => joined - {u}
    case CompanyCreated(u, _, _) => joined + {u}
    case InvitationAccepted(u, _, _, _) => joined + {u}
    case _ => joined
  }

  /** Accounts the log shows as having ever joined a company, and not deleted since. */
  function Joined(db: Db): set<UserId> {
    Replay(db.audit).joined
  }

  lemma JoinedOne(before: Db, after: Db, e: Event)
    requires after.audit == before.audit + [e]
    ensures Joined(after) == JoinedBy(Joined(before), e)
  {
    ReplayOne(before.audit, e);
  }

  // ----- company deletion: bulk writes against one event per row -----

  lemma {:induction false} RevokedEventsRecord(r: Record, actor: UserId, c: CompanyId, ids: seq<InvitationId>)
    ensures var after := ReplayFrom(r, RevokedEvents(actor, c, ids));
            && after.roles == r.roles && after.companies == r.companies
            && after.joined == r.joined && after.deleted == r.deleted
            && after.invitations == map i | i in r.invitations ::
                 if i in ids then r.invitations[i].(status := REVOKED) else r.invitations[i]
    decreases |ids|
  {
    if ids != [] {
      var n := |ids| - 1;
      RevokedEventsRecord(r, actor, c, ids[..n]);
      assert RevokedEvents(actor, c, ids)[..n] == RevokedEvents(actor, c, ids[..n]);
      assert forall i :: i in ids <==> i in ids[..n] || i == ids[n];
    }
  }

  lemma RevokeInvitationsFaithful(db: Db, ended: seq<UserId>, actor: UserId, c: CompanyId, revoked: seq<InvitationId>, now: Time)
    requires Faithful(db, ended) && Elements(revoked) == PendingOf(db, c)
    ensures Faithful(RevokeInvitationsOf(db, actor, c, revoked, now), ended)
  {
    var es, after := RevokedEvents(actor, c, revoked), RevokeInvitationsOf(db, actor, c, revoked, now);
    ReplayAppend(db.audit, es);
    RevokedEventsRecord(Replay(db.audit), actor, c, revoked);
    assert forall i :: i in revoked <==> i in PendingOf(db, c) by {
      assert forall i :: i in revoked <==> i in Elements(revoked);
    }
    assert Replay(after.audit).invitations == InvitationRecords(after.invitations);
  }

  lemma {:induction false} RemovedEventsRecord(r: Record, m: Members, actor: UserId, c: CompanyId, us: seq<UserId>)
    requires forall u :: u in us ==> (u, c) in m
    ensures var after := ReplayFrom(r, RemovedEvents(m, actor, c, us));
            && after.invitations == r.invitations && after.companies == r.companies
            && after.joined == r.joined && after.deleted == r.deleted
            && after.roles == map k | k in r.roles && !(k.1 == c && k.0 in us) :: r.roles[k]
    decreases |us|
  {
    if us != [] {
      var n := |us| - 1;
      assert forall u :: u in us <==> u in us[..n] || u == us[n];
      RemovedEventsRecord(r, m, actor, c, us[..n]);
      assert RemovedEvents(m, actor, c, us)[..n] == RemovedEvents(m, actor, c, us[..n]);
    }
  }

  lemma EmptyCompanyFaithful(db: Db, ended: seq<UserId>, actor: UserId, c: CompanyId, removed: seq<UserId>)
    requires Faithful(db, ended) && Elements(removed) == MembersOf(db.members, c)
    requires forall u :: u in removed ==> (u, c) in db.members
    ensures Faithful(EmptyCompany(db, actor, c, removed), ended)
  {
    var es, after := RemovedEvents(db.members, actor, c, removed), EmptyCompany(db, actor, c, removed);
    ReplayAppend(db.audit, es);
    RemovedEventsRecord(Replay(db.audit), db.members, actor, c, removed);
    forall k | k in db.members ensures k.1 == c ==> k.0 in removed {
      if k.1 == c {
        assert k.0 in MembersOf(db.members, c);
        assert k.0 in Elements(removed);
      }
    }
    assert Replay(after.audit).roles == Roles(after.members);
  }

  lemma SoftDeleteFaithful(db: Db, ended: seq<UserId>, actor: UserId, c: CompanyId, name: string)
    requires Faithful(db, ended) && IsActive(db, c)
    ensures Faithful(Append(SoftDeleteCompany(db, c), [CompanyDeleted(actor, c, name)]), ended)
  {
    ReplayOne(db.audit, CompanyDeleted(actor, c, name));
    ActivationsUpdate(db.companies, c, db.companies[c].(status := DELETED));
  }

  lemma {:induction false} OrphansKeepCompanies(db: Db, us: seq<UserId>)
    requires DeleteOrphans(db, us).Done?
    ensures DeleteOrphans(db, us).db.companies == db.companies
    decreases |us|
  {
    if us != [] {
      OrphansKeepCompanies(db, us[..|us| - 1]);
    }
  }

  lemma DeleteCompanyFaithful(db: Db, ended: seq<UserId>, actor: UserId, c: CompanyId, revoked: seq<InvitationId>, removed: seq<UserId>, now: Time)
    requires Faithful(db, ended)
    requires Elements(revoked) == PendingOf(db, c) && Enumerates(removed, MembersOf(db.members, c))
    requires DeleteCompany(db, actor, c, revoked, removed, now).Done?
    ensures Faithful(DeleteCompany(db, actor, c, revoked, removed, now).db, ended)
  {
    if IsActive(db, c) {
      assert forall u :: u in removed ==> u in Elements(removed);
      var quiet := RevokeInvitationsOf(db, actor, c, revoked, now);
      RevokeInvitationsFaithful(db, ended, actor, c, revoked, now);
      var emptied := EmptyCompany(quiet, actor, c, removed);
      EmptyCompanyFaithful(quiet, ended, actor, c, removed);
      var us := Ascending(Elements(removed));
      OrphansFaithful(emptied, ended, us);
      OrphansKeepCompanies(emptied, us);
      SoftDeleteFaithful(DeleteOrphans(emptied, us).db, ended, actor, c, db.companies[c].name);
    }
  }
}
