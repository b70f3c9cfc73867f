/** What never goes back: closed companies, settled invitations, deleted accounts and their sessions. */
module OrgProgress {
  import opened Prelude
  import opened OrgModel
  import opened OrgGuards
  import opened OrgTransactions
  import opened OrgHistory
  import opened OrgInvariants
  import opened OrgRuns

  // ----- companies and invitations only move forward -----

  /** A row is as it was, or it left PENDING once, taking its stamps with it. */
  predicate SettledAtMostOnce(x: Invitation, y: Invitation) {
    y == x || (x.status.PENDING? && !y.status.PENDING? && SameInvitation(x, y) && StampsMatch(y))
  }

  ghost predicate Forward(a: Db, b: Db) {
    && a.issued <= b.issued
    && (forall i :: i in b.invitations && i in a.issued ==>
          i in a.invitations && SettledAtMostOnce(a.invitations[i], b.invitations[i]))
    && (forall c :: c in a.companies ==> c in b.companies && (a.companies[c].status.DELETED? ==> b.companies[c].status.DELETED?))
    && (forall u :: u in b.users && u in a.issued ==> u in a.users)
  }

  lemma ForwardTransitive(a: Db, b: Db, c: Db)
    requires Forward(a, b) && Forward(b, c)
    ensures Forward(a, c)
  {
  }

  lemma DeleteAccountForward(db: Db, u: UserId)
    requires DeleteAccount(db, u).Done?
    ensures Forward(db, DeleteAccount(db, u).db)
  {
  }

  lemma OrphanForward(db: Db, u: UserId)
    requires DeleteAccountIfOrphaned(db, u).Done?
    ensures Forward(db, DeleteAccountIfOrphaned(db, u).db)
  {
    if DeleteAccount(db, u).Done? {
      DeleteAccountForward(db, u);
    }
  }

  lemma {:induction false} OrphansForward(db: Db, us: seq<UserId>)
    requires DeleteOrphans(db, us).Done?
    ensures Forward(db, DeleteOrphans(db, us).db)
    decreases |us|
  {
    if us != [] {
      var n := |us| - 1;
      OrphansForward(db, us[..n]);
      OrphanForward(DeleteOrphans(db, us[..n]).db, us[n]);
      ForwardTransitive(db, DeleteOrphans(db, us[..n]).db, DeleteOrphans(db, us).db);
    }
  }

  lemma RemoveMemberForward(db: Db, g: RemovalGrant)
    requires RemoveMember(db, g).Done?
    ensures Forward(db, RemoveMember(db, g).db)
  {
    var left := AfterRemoval(db, g);
    RemoveMemberSteps(db, g);
    assert Forward(db, left);
    OrphanForward(left, g.target);
    ForwardTransitive(db, left, RemoveMember(db, g).db);
  }

  lemma EmptiedForward(db: Db, actor: UserId, c: CompanyId, revoked: seq<InvitationId>, removed: seq<UserId>, now: Time)
    requires Enumerates(removed, MembersOf(db.members, c))
    ensures var emptied := Emptied(db, actor, c, revoked, removed, now);
            Forward(db, emptied) && emptied.companies == db.companies
  {
  }

  lemma DeleteCompanyForward(db: Db, actor: UserId, c: CompanyId, revoked: seq<InvitationId>, removed: seq<UserId>, now: Time)
    requires Enumerates(removed, MembersOf(db.members, c))
    requires DeleteCompany(db, actor, c, revoked, removed, now).Done?
    ensures Forward(db, DeleteCompany(db, actor, c, revoked, removed, now).db)
  {
    if IsActive(db, c) {
      var emptied, us := Emptied(db, actor, c, revoked, removed, now), Ascending(Elements(removed));
      var swept := DeleteOrphans(emptied, us).db;
      DeleteCompanySteps(db, actor, c, revoked, removed, now);
      EmptiedForward(db, actor, c, revoked, removed, now);
      OrphansForward(emptied, us);
      ForwardTransitive(db, emptied, swept);
      SoftDeleteForward(swept, actor, c, db.companies[c].name);
      ForwardTransitive(db, swept, DeleteCompany(db, actor, c, revoked, removed, now).db);
    }
  }

  lemma SoftDeleteForward(db: Db, actor: UserId, c: CompanyId, name: string)
    ensures Forward(db, Append(SoftDeleteCompany(db, c), [CompanyDeleted(actor, c, name)]))
  {
  }

  /** The transactions that delete nobody: forward, with accounts and hooks as they were. */
  ghost predicate ForwardKeepingAccounts(a: Db, b: Db) {
    Forward(a, b) && a.users.Keys <= b.users.Keys && b.hooks == a.hooks
  }

  lemma SignUpForward(db: Db, u: UserId, email: string, now: Time)
    requires SignUp(db, u, email, now).Done?
    ensures ForwardKeepingAccounts(db, SignUp(db, u, email, now).db)
  {
  }

  lemma CreateCompanyForward(db: Db, u: UserId, c: CompanyId, id: MembershipId, name: string, now: Time)
    requires Refs(db) && CreateCompanyWithOwner(db, u, c, id, name, now).Done?
    ensures ForwardKeepingAccounts(db, CreateCompanyWithOwner(db, u, c, id, name, now).db)
  {
  }

  lemma InviteForward(db: Db, g: InviteGrant, id: InvitationId, now: Time)
    requires InviteToCompany(db, g, id, now).Done?
    ensures ForwardKeepingAccounts(db, InviteToCompany(db, g, id, now).db)
  {
  }

  lemma RevokeForward(db: Db, g: MemberGrant, id: InvitationId, now: Time)
    requires RevokeInvitation(db, g, id, now).Done?
    ensures ForwardKeepingAccounts(db, RevokeInvitation(db, g, id, now).db)
  {
  }

  lemma ChangeRoleForward(db: Db, g: RoleChangeGrant)
    requires ChangeRole(db, g).Done?
    ensures ForwardKeepingAccounts(db, ChangeRole(db, g).db)
  {
  }

  lemma TransferForward(db: Db, g: TransferGrant)
    requires TransferOwnership(db, g).Done?
    ensures ForwardKeepingAccounts(db, TransferOwnership(db, g).db)
  {
  }

  lemma SwitchForward(db: Db, u: UserId, c: CompanyId)
    requires SwitchCurrentCompany(db, u, c).Done?
    ensures ForwardKeepingAccounts(db, SwitchCurrentCompany(db, u, c).db)
  {
  }

  lemma AcceptForward(db: Db, g: AcceptGrant, membership: MembershipId, now: Time)
    requires AcceptInvitation(db, g, membership, now).Done?
    ensures ForwardKeepingAccounts(db, AcceptInvitation(db, g, membership, now).db)
  {
    AcceptJoins(db, g, membership, now);
  }

  lemma BodyForward(db: Db, a: Action)
    requires Possible(db, a) && Refs(db) && Body(db, a).Done?
    ensures Forward(db, Body(db, a).db)
  {
    match a
    case Fault =>
    case RegisterUser(u, email, now) => SignUpForward(db, u, email, now);
    case SignupCompany(u, c, m, name, now) => CreateCompanyForward(db, u, c, m, name, now);
    case AddCompany(u, c, m, name, now) => CreateCompanyForward(db, u, c, m, name, now);
    case Invite(g, i, now) => InviteForward(db, g, i, now);
    case Revoke(g, i, now) => RevokeForward(db, g, i, now);
    case Accept(g, m, now, _) => AcceptForward(db, g, m, now);
    case SetRole(g) => ChangeRoleForward(db, g);
    case Transfer(g) => TransferForward(db, g);
    case Remove(g) => RemoveMemberForward(db, g);
    case Dissolve(actor, c, revoked, removed, now) => DeleteCompanyForward(db, actor, c, revoked, removed, now);
    case CloseAccount(u) => DeleteAccountForward(db, u);
    case Sweep(u) => OrphanForward(db, u);
    case Switch(u, c) => SwitchForward(db, u, c);
  }

  lemma StepForward(w: World, a: Action)
    requires Possible(w.db, a) && Refs(w.db)
    ensures Forward(w.db, Step(w, a).db)
  {
    if Body(w.db, a).Done? {
      BodyForward(w.db, a);
    }
  }

  /**
   * Along every run: DELETED is permanent; an invitation leaves PENDING at most once and its timestamp
   * columns then match its status; a deleted invitation or account never comes back.
   */
  lemma {:induction false} RunForward(w: World, run: seq<Action>)
    requires Feasible(w, run) && Sound(w.db)
    ensures Forward(w.db, Run(w, run).db)
    decreases |run|
  {
    if run == [] {
    } else {
      var n := |run| - 1;
      RunForward(w, run[..n]);
      RunSound(w, run[..n]);
      StepForward(Run(w, run[..n]), run[n]);
      ForwardTransitive(w.db, Run(w, run[..n]).db, Run(w, run).db);
    }
  }

  /** An accept grant, however long ago it was issued, still describes the row it would be used on. */
  lemma AcceptGrantStaysLinked(w: World, run: seq<Action>, actor: UserId, email: string, id: InvitationId, now: Time, g: AcceptGrant)
    requires Feasible(w, run) && Sound(w.db)
    requires RequireInvitationAccept(w.db, actor, email, id, now) == Granted(Proceed(g))
    ensures Linked(Run(w, run).db, g)
  {
    RunForward(w, run);
  }

  // ----- accounts and their sessions -----

  /** The users a transaction dropped are exactly those it registered hooks for, once each. */
  ghost predicate Departs(a: Db, b: Db) {
    && NoDuplicates(b.hooks) && Elements(b.hooks) <= a.users.Keys
    && a.users.Keys - b.users.Keys == Elements(b.hooks)
  }

  lemma RemoveMemberDeparts(db: Db, g: RemovalGrant)
    requires db.hooks == [] && RemoveMember(db, g).Done?
    ensures Departs(db, RemoveMember(db, g).db)
  {
    RemoveMemberSteps(db, g);
  }

  lemma BodyDeparts(db: Db, a: Action)
    requires Possible(db, a) && Refs(db) && db.hooks == [] && Body(db, a).Done?
    ensures Departs(db, Body(db, a).db)
  {
    match a
    case Fault =>
    case RegisterUser(u, email, now) => SignUpForward(db, u, email, now);
    case SignupCompany(u, c, m, name, now) => CreateCompanyForward(db, u, c, m, name, now);
    case AddCompany(u, c, m, name, now) => CreateCompanyForward(db, u, c, m, name, now);
    case Invite(g, i, now) => InviteForward(db, g, i, now);
    case Revoke(g, i, now) => RevokeForward(db, g, i, now);
    case Accept(g, m, now, _) => AcceptForward(db, g, m, now);
    case SetRole(g) => ChangeRoleForward(db, g);
    case Transfer(g) => TransferForward(db, g);
    case Remove(g) => RemoveMemberDeparts(db, g);
    case Dissolve(actor, c, revoked, removed, now) => DeleteCompanyDeparts(db, actor, c, revoked, removed, now);
    case CloseAccount(u) =>
    case Sweep(u) =>
    case Switch(u, c) => SwitchForward(db, u, c);
  }

  lemma DeleteCompanyDeparts(db: Db, actor: UserId, c: CompanyId, revoked: seq<InvitationId>, removed: seq<UserId>, now: Time)
    requires db.hooks == [] && Enumerates(removed, MembersOf(db.members, c))
    requires DeleteCompany(db, actor, c, revoked, removed, now).Done?
    ensures Departs(db, DeleteCompany(db, actor, c, revoked, removed, now).db)
    ensures DeleteCompany(db, actor, c, revoked, removed, now).db.hooks == DeleteCompany(db, actor, c, revoked, removed, now).value
  {
    if IsActive(db, c) {
      var emptied, us := Emptied(db, actor, c, revoked, removed, now), Ascending(Elements(removed));
      DeleteCompanySteps(db, actor, c, revoked, removed, now);
      assert emptied.users.Keys == db.users.Keys && emptied.hooks == [];
      AscendingMeaning(Elements(removed));
      OrphansLeave(emptied, us);
    }
  }

  /** Nobody in the list of ended sessions is an account, and nobody is in it twice. */
  ghost predicate EndedOnce(w: World) {
    NoDuplicates(w.ended) && forall u :: u in w.ended ==> u in w.db.issued && u !in w.db.users
  }

  /**
   * After-commit effects match commits, step by step: the sessions a step ends are appended, without
   * repetition, and are exactly those of the users whose rows the step deleted; a rolled-back
   * transaction ends none.
   */
  lemma HooksMatchDeletions(w: World, a: Action)
    requires Possible(w.db, a) && w.db.hooks == [] && Refs(w.db) && EndedOnce(w)
    ensures var after := Step(w, a);
            && w.ended <= after.ended && EndedOnce(after)
            && Elements(after.ended[|w.ended|..]) == w.db.users.Keys - after.db.users.Keys
            && (Body(w.db, a).Abort? ==> after.ended == w.ended && after.db.users == w.db.users)
  {
    StepForward(w, a);
    if Body(w.db, a).Done? {
      BodyDeparts(w.db, a);
      CommitEnds(w, Body(w.db, a).db, Step(w, a));
    } else {
      CommitEnds(w, w.db, w);
    }
  }

  lemma CommitEnds(w: World, db: Db, after: World)
    requires Refs(w.db) && EndedOnce(w) && Departs(w.db, db) && Forward(w.db, db)
    requires after == World(db.(hooks := []), w.ended + db.hooks)
    ensures w.ended <= after.ended && EndedOnce(after)
    ensures Elements(after.ended[|w.ended|..]) == w.db.users.Keys - after.db.users.Keys
  {
    assert after.ended[|w.ended|..] == db.hooks;
    assert forall u :: u in db.hooks ==> u in Elements(db.hooks);
    assert forall i, j :: 0 <= i < |w.ended| && 0 <= j < |db.hooks| ==> w.ended[i] in w.ended && db.hooks[j] in db.hooks;
  }

  /** Over whole runs no user's sessions are ended twice, nor while the account exists. */
  lemma {:induction false} SessionsEndOnce(run: seq<Action>)
    requires Feasible(START, run)
    ensures EndedOnce(Run(START, run))
    decreases |run|
  {
    if run != [] {
      var n := |run| - 1;
      SessionsEndOnce(run[..n]);
      RunSound(START, run[..n]);
      AuditLogIsHistory(run[..n]);
      HooksMatchDeletions(Run(START, run[..n]), run[n]);
    }
  }

  // ----- who has joined -----

  /** Every member is, by the log, someone who joined. */
  ghost predicate MembersJoined(db: Db, joined: set<UserId>) {
    forall k :: k in db.members ==> k.0 in joined
  }

  /** A transaction that adds nobody to a company, and drops from the joined only deleted accounts. */
  lemma ShrinkMembersJoined(before: Db, after: Db, joined: set<UserId>, gone: set<UserId>)
    requires MembersJoined(before, joined) && after.members.Keys <= before.members.Keys
    requires forall u :: u in gone ==> u !in after.users
    requires Refs(after)
    ensures MembersJoined(after, joined - gone)
  {
    assert forall k :: k in after.members ==> k in before.members && k.0 in after.users;
  }

  lemma JoinMembersJoined(before: Db, after: Db, u: UserId, c: CompanyId, row: Membership, joined: set<UserId>)
    requires MembersJoined(before, joined) && Joins(before, after, u, c, row)
    ensures MembersJoined(after, joined + {u})
  {
  }

  /** What each transaction does to the set of joiners the log shows: someone joins, or deleted accounts leave it. */
  ghost predicate JoinedMoves(before: Db, after: Db) {
    && MembersJoined(after, Joined(after))
    && forall u :: u in Joined(before) ==> u in Joined(after) || u !in after.users
  }

  lemma JoinMoves(before: Db, after: Db, u: UserId, c: CompanyId, row: Membership)
    requires MembersJoined(before, Joined(before)) && Joins(before, after, u, c, row)
    requires Joined(after) == Joined(before) + {u}
    ensures JoinedMoves(before, after)
  {
    JoinMembersJoined(before, after, u, c, row, Joined(before));
  }

  lemma ShrinkMoves(before: Db, after: Db, gone: set<UserId>)
    requires MembersJoined(before, Joined(before)) && after.members.Keys <= before.members.Keys && Refs(after)
    requires Joined(after) == Joined(before) - gone && forall u :: u in gone ==> u !in after.users
    ensures JoinedMoves(before, after)
  {
    ShrinkMembersJoined(before, after, Joined(before), gone);
  }

  lemma CreateCompanyMoves(db: Db, u: UserId, c: CompanyId, id: MembershipId, name: string, now: Time)
    requires MembersJoined(db, Joined(db)) && CreateCompanyWithOwner(db, u, c, id, name, now).Done?
    ensures JoinedMoves(db, CreateCompanyWithOwner(db, u, c, id, name, now).db)
  {
    var after := CreateCompanyWithOwner(db, u, c, id, name, now).db;
    JoinedOne(db, after, CompanyCreated(u, c, name));
    CreateCompanyJoins(db, u, c, id, name, now);
    JoinMoves(db, after, u, c, Membership(id, OWNER, now));
  }

  lemma AcceptMoves(db: Db, g: AcceptGrant, membership: MembershipId, now: Time)
    requires MembersJoined(db, Joined(db)) && AcceptInvitation(db, g, membership, now).Done?
    ensures JoinedMoves(db, AcceptInvitation(db, g, membership, now).db)
  {
    var after := AcceptInvitation(db, g, membership, now).db;
    AcceptJoins(db, g, membership, now);
    JoinedOne(db, after, InvitationAccepted(g.actor, g.id, g.row.company, g.row.role));
    JoinMoves(db, after, g.actor, g.row.company, Membership(membership, g.row.role, now));
  }

  /** One event that joins and deletes nobody. */
  lemma QuietMoves(before: Db, after: Db, e: Event)
    requires MembersJoined(before, Joined(before)) && after.members.Keys <= before.members.Keys && Refs(after)
    requires after.audit == before.audit + [e] && !e.AccountDeleted? && !e.CompanyCreated? && !e.InvitationAccepted?
    ensures JoinedMoves(before, after)
  {
    JoinedOne(before, after, e);
    ShrinkMoves(before, after, {});
  }

  lemma DeleteAccountMoves(db: Db, u: UserId)
    requires MembersJoined(db, Joined(db)) && Refs(db) && DeleteAccount(db, u).Done?
    ensures JoinedMoves(db, DeleteAccount(db, u).db)
  {
    DeleteAccountJoined(db, u);
    ShrinkMoves(db, DeleteAccount(db, u).db, {u});
  }

  lemma OrphanMoves(db: Db, u: UserId)
    requires MembersJoined(db, Joined(db)) && Refs(db) && DeleteAccountIfOrphaned(db, u).Done?
    ensures JoinedMoves(db, DeleteAccountIfOrphaned(db, u).db)
  {
    if DeleteAccount(db, u).Done? {
      DeleteAccountMoves(db, u);
    }
  }

  lemma RemoveMemberMoves(db: Db, g: RemovalGrant)
    requires MembersJoined(db, Joined(db)) && Refs(db) && RemoveMember(db, g).Done?
    ensures JoinedMoves(db, RemoveMember(db, g).db)
  {
    var left := AfterRemoval(db, g);
    RemoveMemberSteps(db, g);
    AfterRemovalLeft(db, g);
    QuietMoves(db, left, RemovedEvent(g.actor, g.company, g.target, g.targetRole));
    OrphanMoves(left, g.target);
    assert RemoveMember(db, g).db.users.Keys <= left.users.Keys;
  }

  lemma DeleteCompanyMoves(db: Db, actor: UserId, c: CompanyId, revoked: seq<InvitationId>, removed: seq<UserId>, now: Time)
    requires MembersJoined(db, Joined(db)) && Sound(db) && db.hooks == [] && Enumerates(removed, MembersOf(db.members, c))
    requires DeleteCompany(db, actor, c, revoked, removed, now).Done?
    ensures JoinedMoves(db, DeleteCompany(db, actor, c, revoked, removed, now).db)
  {
    var closed := DeleteCompany(db, actor, c, revoked, removed, now);
    DeleteCompanyJoined(db, actor, c, revoked, removed, now);
    DeleteCompanyDeparts(db, actor, c, revoked, removed, now);
    DeleteCompanySound(db, actor, c, revoked, removed, now);
    DeleteCompanyShrinks(db, actor, c, revoked, removed, now);
    ShrinkMoves(db, closed.db, Elements(closed.value));
  }

  lemma DeleteCompanyShrinks(db: Db, actor: UserId, c: CompanyId, revoked: seq<InvitationId>, removed: seq<UserId>, now: Time)
    requires Enumerates(removed, MembersOf(db.members, c))
    requires DeleteCompany(db, actor, c, revoked, removed, now).Done?
    ensures DeleteCompany(db, actor, c, revoked, removed, now).db.members.Keys <= db.members.Keys
  {
    if IsActive(db, c) {
      DeleteCompanySteps(db, actor, c, revoked, removed, now);
      OrphansOnlyShrink(Emptied(db, actor, c, revoked, removed, now), Ascending(Elements(removed)));
    }
  }

  lemma ChangeRoleMoves(db: Db, g: RoleChangeGrant)
    requires MembersJoined(db, Joined(db)) && Refs(db) && ChangeRole(db, g).Done?
    ensures JoinedMoves(db, ChangeRole(db, g).db)
  {
    if g.targetRole != g.nextRole {
      QuietMoves(db, ChangeRole(db, g).db, RoleChanged(g.actor, g.company, g.target, g.targetRole, g.nextRole));
    }
  }

  lemma SwitchMoves(db: Db, u: UserId, c: CompanyId)
    requires MembersJoined(db, Joined(db)) && Refs(db) && SwitchCurrentCompany(db, u, c).Done?
    ensures JoinedMoves(db, SwitchCurrentCompany(db, u, c).db)
  {
    var after := SwitchCurrentCompany(db, u, c).db;
    if after != db {
      QuietMoves(db, after, CompanySwitched(u, if u in db.users then db.users[u].current else None, c));
    }
  }

  lemma BodyMoves(db: Db, a: Action)
    requires MembersJoined(db, Joined(db)) && Sound(db) && db.hooks == [] && Possible(db, a) && Body(db, a).Done?
    ensures JoinedMoves(db, Body(db, a).db)
  {
    match a
    case Fault =>
    case RegisterUser(u, email, now) =>
    case SignupCompany(u, c, m, name, now) => CreateCompanyMoves(db, u, c, m, name, now);
    case AddCompany(u, c, m, name, now) => CreateCompanyMoves(db, u, c, m, name, now);
    case Invite(g, i, now) =>
      InviteSound(db, g, i, now);
      QuietMoves(db, InviteToCompany(db, g, i, now).db, InvitationSent(g.actor, i, g.company, g.email, g.role));
    case Revoke(g, i, now) =>
      RevokeSound(db, g, i, now);
      QuietMoves(db, RevokeInvitation(db, g, i, now).db, InvitationRevoked(g.actor, i, g.company));
    case Accept(g, m, now, _) => AcceptMoves(db, g, m, now);
    case SetRole(g) => ChangeRoleMoves(db, g);
    case Transfer(g) =>
      TransferSound(db, g);
      TransferRolesOnly(db, g);
      QuietMoves(db, TransferOwnership(db, g).db, OwnershipTransferred(g.company, g.actor, g.to));
    case Remove(g) => RemoveMemberMoves(db, g);
    case Dissolve(actor, c, revoked, removed, now) => DeleteCompanyMoves(db, actor, c, revoked, removed, now);
    case CloseAccount(u) => DeleteAccountMoves(db, u);
    case Sweep(u) => OrphanMoves(db, u);
    case Switch(u, c) => SwitchMoves(db, u, c);
  }

  lemma StepMoves(w: World, a: Action)
    requires MembersJoined(w.db, Joined(w.db)) && Sound(w.db) && w.db.hooks == [] && Possible(w.db, a)
    ensures JoinedMoves(w.db, Step(w, a).db)
  {
    if Body(w.db, a).Done? {
      BodyMoves(w.db, a);
    } else if Step(w, a) != w {
      QuietMoves(w.db, Step(w, a).db, RejectionEvent(a.accept, Body(w.db, a).failure).value);
    }
  }

  ghost predicate Settled(w: World) {
    Sound(w.db) && w.db.hooks == [] && MembersJoined(w.db, Joined(w.db))
  }

  lemma StepSettled(w: World, a: Action)
    requires Settled(w) && Possible(w.db, a)
    ensures Settled(Step(w, a))
  {
    StepSound(w, a);
    StepMoves(w, a);
  }

  lemma {:induction false} RunSettled(w: World, run: seq<Action>)
    requires Settled(w) && Feasible(w, run)
    ensures Settled(Run(w, run))
    decreases |run|
  {
    if run != [] {
      RunSettled(w, run[..|run| - 1]);
      StepSettled(Run(w, run[..|run| - 1]), run[|run| - 1]);
    }
  }

  /** Someone who once joined, and still has an account, is still among the joined. */
  lemma {:induction false} JoinedPersists(w: World, later: seq<Action>, u: UserId)
    requires Settled(w) && Feasible(w, later)
    requires u in Joined(w.db) && u in w.db.users && u in Run(w, later).db.users
    ensures u in Joined(Run(w, later).db)
    decreases |later|
  {
    if later != [] {
      var n := |later| - 1;
      var before := Run(w, later[..n]);
      RunSettled(w, later[..n]);
      RunForward(w, later[..n]);
      StepStillThere(before, later[n], u);
      JoinedPersists(w, later[..n], u);
      StepMoves(before, later[n]);
    }
  }

  lemma StepStillThere(w: World, a: Action, u: UserId)
    requires Possible(w.db, a) && Refs(w.db) && u in w.db.issued && u in Step(w, a).db.users
    ensures u in w.db.users
  {
    StepForward(w, a);
  }

  /**
   * No orphaned members, over time: whoever held any membership at some point of a run, and still has
   * an account at a later point, belongs to an ACTIVE company there.
   */
  lemma OnceAMemberNeverOrphaned(run: seq<Action>, later: seq<Action>, u: UserId, c: CompanyId)
    requires Feasible(START, run) && TimelyRun(START, run)
    requires Feasible(Run(START, run), later) && TimelyRun(Run(START, run), later)
    requires (u, c) in Run(START, run).db.members && u in Run(Run(START, run), later).db.users
    ensures ActiveCompaniesOf(Run(Run(START, run), later).db, u) != {}
  {
    var w := Run(START, run);
    StartTidy();
    RunTidy(START, run);
    RunTidy(w, later);
    RunSettled(START, run);
    assert u in Joined(w.db) by {
      assert (u, c).0 == u;
    }
    assert u in w.db.users by {
      assert (u, c) in w.db.members && (u, c).0 == u;
    }
    JoinedPersists(w, later, u);
  }
}
