/**
 * Runs: any sequence of transactions, each committing as a whole or not at all, presented with grants
 * that a guard may have issued long before. After-commit hooks run once their transaction committed.
 */
module OrgRuns {
  import opened Prelude
  import opened OrgModel
  import opened OrgGuards
  import opened OrgTransactions
  import opened OrgHistory
  import opened OrgInvariants

  /** The database between transactions, and the users whose sessions were deleted, in order. */
  datatype World = World(db: Db, ended: seq<UserId>)

  const START := World(EMPTY_DB, [])

  datatype Action =
    | Fault
    | RegisterUser(user: UserId, email: string, now: Time)
    | SignupCompany(user: UserId, company: CompanyId, membership: MembershipId, name: string, now: Time)
    | AddCompany(user: UserId, company: CompanyId, membership: MembershipId, name: string, now: Time)
    | Invite(invite: InviteGrant, invitation: InvitationId, now: Time)
    | Revoke(member: MemberGrant, invitation: InvitationId, now: Time)
    | Accept(accept: AcceptGrant, membership: MembershipId, now: Time, rejectionLogged: bool)
    | SetRole(change: RoleChangeGrant)
    | Transfer(transfer: TransferGrant)
    | Remove(removal: RemovalGrant)
    | Dissolve(actor: UserId, company: CompanyId, revoked: seq<InvitationId>, removed: seq<UserId>, now: Time)
    | CloseAccount(user: UserId)
    | Sweep(user: UserId)
    | Switch(user: UserId, company: CompanyId)

  function Ignore<T>(t: Tx<T>): Tx<()> {
    match t
    case Done(db, _) => Done(db, ())
    case Abort(failure) => Abort(failure)
  }

  /** The row orders a company deletion reports are orders of the rows it touched. */
  ghost predicate Possible(db: Db, a: Action) {
    a.Dissolve? ==>
      Enumerates(a.revoked, PendingOf(db, a.company)) && Enumerates(a.removed, MembersOf(db.members, a.company))
  }

  ghost function Body(db: Db, a: Action): Tx<()>
    requires Possible(db, a)
  {
    match a
    case Fault => Abort(DbError)
    case RegisterUser(u, email, now) => SignUp(db, u, email, now)
    case SignupCompany(u, c, m, name, now) => CreateSignupCompany(db, u, c, m, name, now)
    case AddCompany(u, c, m, name, now) => CreateCompanyWithOwner(db, u, c, m, name, now)
    case Invite(g, i, now) => InviteToCompany(db, g, i, now)
    case Revoke(g, i, now) => RevokeInvitation(db, g, i, now)
    case Accept(g, m, now, _) => AcceptInvitation(db, g, m, now)
    case SetRole(g) => ChangeRole(db, g)
    case Transfer(g) => TransferOwnership(db, g)
    case Remove(g) => Ignore(RemoveMember(db, g))
    case Dissolve(actor, c, revoked, removed, now) => Ignore(DeleteCompany(db, actor, c, revoked, removed, now))
    case CloseAccount(u) => DeleteAccountUnlessLastOwner(db, u)
    case Sweep(u) => Ignore(DeleteAccountIfOrphaned(db, u))
    case Switch(u, c) => SwitchCurrentCompany(db, u, c)
  }

  /** Commit, then run the registered hooks; or roll back, and perhaps record a refused acceptance. */
  ghost function Step(w: World, a: Action): World
    requires Possible(w.db, a)
  {
    match Body(w.db, a)
    case Done(db, _) => World(db.(hooks := []), w.ended + db.hooks)
    case Abort(failure) =>
      if a.Accept? && a.rejectionLogged && RejectionEvent(a.accept, failure).Some?
      then w.(db := Append(w.db, [RejectionEvent(a.accept, failure).value]))
      else w
  }

  ghost predicate Feasible(w: World, run: seq<Action>)
    decreases |run|, 0
  {
    run != [] ==> Feasible(w, run[..|run| - 1]) && Possible(Run(w, run[..|run| - 1]).db, run[|run| - 1])
  }

  ghost function Run(w: World, run: seq<Action>): World
    requires Feasible(w, run)
    decreases |run|, 1
  {
    if run == [] then w else Step(Run(w, run[..|run| - 1]), run[|run| - 1])
  }

  // ----- one step -----

  lemma BodySound(db: Db, a: Action)
    requires Possible(db, a) && Sound(db) && Body(db, a).Done?
    ensures Sound(Body(db, a).db)
  {
    match a
    case Fault =>
    case RegisterUser(u, email, now) => SignUpKeeps(db, u, email, now);
    case SignupCompany(u, c, m, name, now) => CreateCompanySound(db, u, c, m, name, now);
    case AddCompany(u, c, m, name, now) => CreateCompanySound(db, u, c, m, name, now);
    case Invite(g, i, now) => InviteSound(db, g, i, now);
    case Revoke(g, i, now) => RevokeSound(db, g, i, now);
    case Accept(g, m, now, _) => AcceptSound(db, g, m, now);
    case SetRole(g) => ChangeRoleSound(db, g);
    case Transfer(g) => TransferSound(db, g);
    case Remove(g) => RemoveMemberSound(db, g);
    case Dissolve(actor, c, revoked, removed, now) => DeleteCompanySound(db, actor, c, revoked, removed, now);
    case CloseAccount(u) => DeleteUnlessLastOwnerSound(db, u);
    case Sweep(u) => OrphanSound(db, u, {});
    case Switch(u, c) => SwitchSound(db, u, c);
  }

  lemma BodyFaithful(db: Db, ended: seq<UserId>, a: Action)
    requires Possible(db, a) && Faithful(db, ended) && Body(db, a).Done?
    ensures Faithful(Body(db, a).db, ended)
  {
    match a
    case Fault =>
    case RegisterUser(u, email, now) =>
    case SignupCompany(u, c, m, name, now) => CreateCompanyFaithful(db, ended, u, c, m, name, now);
    case AddCompany(u, c, m, name, now) => CreateCompanyFaithful(db, ended, u, c, m, name, now);
    case Invite(g, i, now) => InviteFaithful(db, ended, g, i, now);
    case Revoke(g, i, now) => RevokeFaithful(db, ended, g, i, now);
    case Accept(g, m, now, _) => AcceptFaithful(db, ended, g, m, now);
    case SetRole(g) => ChangeRoleFaithful(db, ended, g);
    case Transfer(g) => TransferFaithful(db, ended, g);
    case Remove(g) => RemoveMemberFaithful(db, ended, g);
    case Dissolve(actor, c, revoked, removed, now) => DeleteCompanyFaithful(db, ended, actor, c, revoked, removed, now);
    case CloseAccount(u) => DeleteAccountFaithful(db, ended, u);
    case Sweep(u) => OrphanFaithful(db, ended, u);
    case Switch(u, c) => SwitchFaithful(db, ended, u, c);
  }

  /**
   * The one demand on grants: an invitation goes into an ACTIVE company (as it does when its guard still
   * passes), and an accept grant carries the row it was issued for. Every other grant may be arbitrarily stale.
   */
  ghost predicate Timely(db: Db, a: Action) {
    match a
    case Invite(g, i, now) => InviteToCompany(db, g, i, now).Done? ==> IsActive(db, g.company)
    case Accept(g, _, _, _) => Linked(db, g)
    case _ => true
  }

  lemma BodyTidy(db: Db, a: Action)
    requires Possible(db, a) && Timely(db, a) && Sound(db) && Tidy(db) && Body(db, a).Done?
    ensures Tidy(Body(db, a).db)
  {
    match a
    case Fault =>
    case RegisterUser(u, email, now) => SignUpKeeps(db, u, email, now);
    case SignupCompany(u, c, m, name, now) => CreateCompanyTidy(db, u, c, m, name, now);
    case AddCompany(u, c, m, name, now) => CreateCompanyTidy(db, u, c, m, name, now);
    case Invite(g, i, now) => InviteTidyIffActive(db, g, i, now);
    case Revoke(g, i, now) => RevokeTidy(db, g, i, now);
    case Accept(g, m, now, _) => AcceptTidy(db, g, m, now);
    case SetRole(g) => ChangeRoleTidy(db, g);
    case Transfer(g) => TransferTidy(db, g);
    case Remove(g) => RemoveMemberTidy(db, g);
    case Dissolve(actor, c, revoked, removed, now) => DeleteCompanyTidy(db, actor, c, revoked, removed, now);
    case CloseAccount(u) => DeleteUnlessLastOwnerTidy(db, u);
    case Sweep(u) => SweepTidy(db, u);
    case Switch(u, c) => SwitchTidy(db, u, c);
  }

  lemma SweepTidy(db: Db, u: UserId)
    requires Refs(db) && Tidy(db) && DeleteAccountIfOrphaned(db, u).Done?
    ensures Tidy(DeleteAccountIfOrphaned(db, u).db)
  {
    OrphanJoined(db, u);
    if DeleteAccount(db, u).Done? {
      DeleteAccountTidy(db, u, Joined(db));
    }
  }

  lemma StepSound(w: World, a: Action)
    requires Possible(w.db, a) && Sound(w.db)
    ensures Sound(Step(w, a).db)
  {
    if Body(w.db, a).Done? {
      BodySound(w.db, a);
      SoundWithoutHooks(Body(w.db, a).db, Step(w, a).db);
    } else {
      SoundWithoutHooks(w.db, Step(w, a).db);
    }
  }

  /** The tables decide soundness; neither the log nor the hooks do. */
  lemma SoundWithoutHooks(a: Db, b: Db)
    requires b == a.(audit := b.audit, hooks := b.hooks)
    ensures Sound(a) ==> Sound(b)
  {
    assert forall c :: IsActive(b, c) ==> IsActive(a, c);
  }

  lemma StepFaithful(w: World, a: Action)
    requires Possible(w.db, a) && Faithful(w.db, w.ended) && w.db.hooks == []
    ensures Faithful(Step(w, a).db, Step(w, a).ended) && Step(w, a).db.hooks == []
  {
    match Body(w.db, a)
    case Done(db, _) =>
      BodyFaithful(w.db, w.ended, a);
    case Abort(failure) =>
      if Step(w, a) != w {
        Unseen(w.db, w.ended, Step(w, a).db, RejectionEvent(a.accept, failure).value);
      }
  }

  lemma StepTidy(w: World, a: Action)
    requires Possible(w.db, a) && Timely(w.db, a) && Sound(w.db) && Tidy(w.db)
    ensures Tidy(Step(w, a).db)
  {
    if Body(w.db, a).Done? {
      BodyTidy(w.db, a);
      CommitTidy(Body(w.db, a).db);
    } else if Step(w, a) != w {
      RejectionTidy(w.db, RejectionEvent(a.accept, Body(w.db, a).failure).value);
    }
  }

  lemma CommitTidy(db: Db)
    requires Tidy(db)
    ensures Tidy(db.(hooks := []))
  {
    TidyWithoutHooks(db, db.(hooks := []), Joined(db));
  }

  lemma RejectionTidy(db: Db, e: Event)
    requires Tidy(db) && e.InvitationAcceptRejected?
    ensures Tidy(Append(db, [e]))
  {
    JoinedOne(db, Append(db, [e]), e);
    TidyWithoutHooks(db, Append(db, [e]), Joined(db));
  }

  lemma TidyWithoutHooks(a: Db, b: Db, joined: set<UserId>)
    requires b == a.(audit := b.audit, hooks := b.hooks)
    ensures TidyFor(a, joined) ==> TidyFor(b, joined)
  {
    if TidyFor(a, joined) {
      InvitationsOnlyTidy(a, b, joined);
      forall i | i in b.invitations && b.invitations[i].status.PENDING? ensures IsActive(b, b.invitations[i].company) {
        assert IsActive(a, a.invitations[i].company);
      }
    }
  }

  // ----- whole runs -----

  /**
   * The audit log is a complete history. In every state any run reaches, whatever grants were presented
   * and whichever transactions rolled back, replaying the log from nothing gives exactly the roles, the
   * invitation records and the company activations of the tables; and the accounts it reports deleted
   * are, in the same order, exactly the users whose sessions the after-commit hooks deleted.
   */
  lemma {:induction false} AuditLogIsHistory(run: seq<Action>)
    requires Feasible(START, run)
    ensures Faithful(Run(START, run).db, Run(START, run).ended) && Run(START, run).db.hooks == []
    decreases |run|
  {
    if run == [] {
      assert Tells(BLANK, EMPTY_DB);
    } else {
      AuditLogIsHistory(run[..|run| - 1]);
      StepFaithful(Run(START, run[..|run| - 1]), run[|run| - 1]);
    }
  }

  lemma {:induction false} RunSound(w: World, run: seq<Action>)
    requires Feasible(w, run) && Sound(w.db)
    ensures Sound(Run(w, run).db)
    decreases |run|
  {
    if run != [] {
      RunSound(w, run[..|run| - 1]);
      StepSound(Run(w, run[..|run| - 1]), run[|run| - 1]);
    }
  }

  /** Every ACTIVE company has an OWNER in every reachable state, whatever grants were presented. */
  lemma EveryActiveCompanyHasAnOwner(run: seq<Action>, c: CompanyId)
    requires Feasible(START, run) && IsActive(Run(START, run).db, c)
    ensures exists u :: HasRole(Run(START, run).db.members, u, c, OWNER)
  {
    RunSound(START, run);
    var m := Run(START, run).db.members;
    var u :| u in OwnersOf(m, c);
    OwnersMeaning(m, c, u);
  }

  ghost predicate TimelyRun(w: World, run: seq<Action>)
    requires Feasible(w, run)
    decreases |run|
  {
    run != [] ==> TimelyRun(w, run[..|run| - 1]) && Timely(Run(w, run[..|run| - 1]).db, run[|run| - 1])
  }

  lemma {:induction false} RunTidy(w: World, run: seq<Action>)
    requires Feasible(w, run) && TimelyRun(w, run) && Sound(w.db) && Tidy(w.db)
    ensures Sound(Run(w, run).db) && Tidy(Run(w, run).db)
    decreases |run|
  {
    if run != [] {
      RunTidy(w, run[..|run| - 1]);
      StepSound(Run(w, run[..|run| - 1]), run[|run| - 1]);
      StepTidy(Run(w, run[..|run| - 1]), run[|run| - 1]);
    }
  }

  lemma StartTidy()
    ensures Sound(START.db) && Tidy(START.db)
  {
    assert Joined(START.db) == {};
  }

  /**
   * The current company is exact: when set it names an ACTIVE company the user belongs to, and it is
   * empty only when the user belongs to none.
   */
  lemma CurrentCompanyIsExact(run: seq<Action>, u: UserId)
    requires Feasible(START, run) && TimelyRun(START, run) && u in Run(START, run).db.users
    ensures var db := Run(START, run).db;
            match db.users[u].current
            case Some(c) => IsActive(db, c) && (u, c) in db.members
            case None => forall c :: (u, c) in db.members ==> !IsActive(db, c)
  {
    StartTidy();
    RunTidy(START, run);
    var db := Run(START, run).db;
    assert PointerExact(db, u);
    forall c ensures c in ActiveCompaniesOf(db, u) <==> (u, c) in db.members && IsActive(db, c) {
      ActiveMeaning(db, u, c);
    }
  }

  /** A DELETED company has no members and nothing pending, in every later state. */
  lemma DeletedCompaniesStayEmpty(run: seq<Action>, c: CompanyId)
    requires Feasible(START, run) && TimelyRun(START, run)
    requires c in Run(START, run).db.companies && Run(START, run).db.companies[c].status.DELETED?
    ensures MembersOf(Run(START, run).db.members, c) == {} && PendingOf(Run(START, run).db, c) == {}
  {
    StartTidy();
    RunTidy(START, run);
  }

  /** An account that ever joined a company, by the log, exists with an ACTIVE membership. */
  lemma NoOrphanedMembers(run: seq<Action>, u: UserId)
    requires Feasible(START, run) && TimelyRun(START, run) && u in Joined(Run(START, run).db)
    ensures u in Run(START, run).db.users
    ensures exists c :: (u, c) in Run(START, run).db.members && IsActive(Run(START, run).db, c)
  {
    StartTidy();
    RunTidy(START, run);
    var db := Run(START, run).db;
    var c :| c in ActiveCompaniesOf(db, u);
    ActiveMeaning(db, u, c);
  }

  /** However stale the candidate list, a sweep deletes only accounts that never joined a company. */
  lemma SweepDeletesOnlyNeverJoined(run: seq<Action>, u: UserId)
    requires Feasible(START, run) && TimelyRun(START, run)
    requires DeleteAccountIfOrphaned(Run(START, run).db, u).Done? && DeleteAccountIfOrphaned(Run(START, run).db, u).value.Deleted?
    ensures u !in Joined(Run(START, run).db) && MembersOfUser(Run(START, run).db, u) == {}
  {
    StartTidy();
    RunTidy(START, run);
    SweptNeverJoined(Run(START, run).db, u, Joined(Run(START, run).db));
  }

  lemma SweptNeverJoined(db: Db, u: UserId, joined: set<UserId>)
    requires TidyFor(db, joined) && ActiveCompaniesOf(db, u) == {}
    ensures u !in joined && MembersOfUser(db, u) == {}
  {
    forall k | k in db.members ensures k.0 != u {
      assert IsActive(db, k.1);
      ActiveMeaning(db, u, k.1);
    }
  }

  function MembersOfUser(db: Db, u: UserId): set<CompanyId> {
    set k | k in db.members && k.0 == u :: k.1
  }
}
