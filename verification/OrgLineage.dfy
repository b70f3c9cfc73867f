/**
 * Requests whose guard and transaction see the same state: who can make, demote or remove an OWNER,
 * and where every OWNER comes from.
 */
module OrgLineage {
  import opened Prelude
  import opened OrgModel
  import opened OrgGuards
  import opened OrgTransactions
  import opened OrgHistory
  import opened OrgInvariants
  import opened OrgRuns
  import opened OrgProgress

  datatype Request =
    | Plain(action: Action)
    | AskInvite(actor: UserId, company: CompanyId, email: string, role: Role, invitation: InvitationId, now: Time)
    | AskRevoke(actor: UserId, company: CompanyId, invitation: InvitationId, now: Time)
    | AskAccept(actor: UserId, email: string, invitation: InvitationId, membership: MembershipId, now: Time, rejectionLogged: bool)
    | AskSetRole(actor: UserId, company: CompanyId, target: UserId, next: Role)
    | AskTransfer(actor: UserId, company: CompanyId, to: UserId)
    | AskRemove(actor: UserId, company: CompanyId, target: UserId)
    | AskDissolve(actor: UserId, company: CompanyId, revoked: seq<InvitationId>, removed: seq<UserId>, now: Time)

  /** Actions no guard stands before: sign-up, creation, one's own account and pointer, the sweep. */
  predicate Unguarded(a: Action) {
    a.Fault? || a.RegisterUser? || a.SignupCompany? || a.AddCompany? || a.CloseAccount? || a.Sweep? || a.Switch?
  }

  /** What the guard lets through in this state; `Fault` (no change) when it refuses. */
  function Guarded(db: Db, r: Request): Action {
    match r
    case Plain(a) => if Unguarded(a) then a else Fault
    case AskInvite(actor, c, email, role, i, now) =>
      var v := RequireInvite(db, actor, c, email, role);
      if v.Granted? then Invite(v.grant, i, now) else Fault
    case AskRevoke(actor, c, i, now) =>
      var v := RequireMembershipOf(db, actor, c, ADMIN);
      if v.Granted? then Revoke(v.grant, i, now) else Fault
    case AskAccept(actor, email, i, m, now, logged) =>
      var v := RequireInvitationAccept(db, actor, email, i, now);
      if v.Granted? && v.grant.Proceed? then Accept(v.grant.grant, m, now, logged) else Fault
    case AskSetRole(actor, c, target, next) =>
      var v := RequireRoleChange(db, actor, c, target, next);
      if v.Granted? then SetRole(v.grant) else Fault
    case AskTransfer(actor, c, to) =>
      var v := RequireTransferOwnership(db, actor, c, to);
      if v.Granted? then Transfer(v.grant) else Fault
    case AskRemove(actor, c, target) =>
      var v := RequireRemoval(db, actor, c, target);
      if v.Granted? then Remove(v.grant) else Fault
    case AskDissolve(actor, c, revoked, removed, now) =>
      var v := RequireMembershipOf(db, actor, c, OWNER);
      if v.Granted? then Dissolve(actor, c, revoked, removed, now) else Fault
  }

  /** Whoever is behind the request. */
  function ActorOf(a: Action): Option<UserId> {
    match a
    case SignupCompany(u, _, _, _, _) => Some(u)
    case AddCompany(u, _, _, _, _) => Some(u)
    case Invite(g, _, _) => Some(g.actor)
    case Revoke(g, _, _) => Some(g.actor)
    case Accept(g, _, _, _) => Some(g.actor)
    case SetRole(g) => Some(g.actor)
    case Transfer(g) => Some(g.actor)
    case Remove(g) => Some(g.actor)
    case Dissolve(actor, _, _, _, _) => Some(actor)
    case CloseAccount(u) => Some(u)
    case Switch(u, _) => Some(u)
    case _ => None
  }

  /** The user on whose authority an action can make someone an OWNER: the inviter, for an acceptance. */
  function GranterOf(a: Action): Option<UserId> {
    if a.Accept? then Some(a.accept.row.invitedBy) else ActorOf(a)
  }

  /** The user and company of a request that creates a company. */
  function CreationBy(db: Db, a: Action): Option<(UserId, CompanyId)> {
    if (a.SignupCompany? || a.AddCompany?) && a.company !in db.companies then Some((a.user, a.company)) else None
  }

  /** Every OWNER in `after` was one before, is creating the company, or is made one by an OWNER of it. */
  ghost predicate OwnersMadeByOwners(m: Members, after: Members, creation: Option<(UserId, CompanyId)>, granter: Option<UserId>) {
    forall k :: k in after && after[k].role.OWNER? ==>
      || (k in m && m[k].role.OWNER?)
      || creation == Some(k)
      || (granter.Some? && HasRole(m, granter.value, k.1, OWNER))
  }

  /** Whoever stopped being an OWNER did so themselves, or at the hands of an OWNER of that company. */
  ghost predicate OwnersUndoneByOwners(m: Members, after: Members, actor: Option<UserId>) {
    forall k :: k in m && m[k].role.OWNER? ==>
      || (k in after && after[k].role.OWNER?)
      || actor == Some(k.0)
      || (actor.Some? && HasRole(m, actor.value, k.1, OWNER))
  }

  ghost predicate OwnersDecide(db: Db, after: Members, a: Action) {
    && OwnersMadeByOwners(db.members, after, CreationBy(db, a), GranterOf(a))
    && OwnersUndoneByOwners(db.members, after, ActorOf(a))
  }

  // ----- orphan deletion takes no membership with it -----

  lemma OrphanHasNoMembership(db: Db, u: UserId)
    requires Closed(db) && DeleteAccountIfOrphaned(db, u).Done?
    ensures DeleteAccountIfOrphaned(db, u).db.members == db.members
    ensures Closed(DeleteAccountIfOrphaned(db, u).db)
  {
    if ActiveCompaniesOf(db, u) == {} && u in db.users {
      forall k | k in db.members ensures k.0 != u {
        assert IsActive(db, k.1);
        ActiveMeaning(db, u, k.1);
      }
      assert WithoutUser(db.members, u) == db.members;
      ClosedAfterDelete(db, u);
    }
  }

  lemma ClosedAfterDelete(db: Db, u: UserId)
    requires Closed(db) && DeleteAccount(db, u).Done?
    ensures Closed(DeleteAccount(db, u).db)
  {
    var after := DeleteAccount(db, u).db;
    assert forall c :: IsActive(db, c) ==> IsActive(after, c);
  }

  lemma {:induction false} OrphansHaveNoMembership(db: Db, us: seq<UserId>)
    requires Closed(db) && DeleteOrphans(db, us).Done?
    ensures DeleteOrphans(db, us).db.members == db.members && Closed(DeleteOrphans(db, us).db)
    decreases |us|
  {
    if us != [] {
      var n := |us| - 1;
      OrphansHaveNoMembership(db, us[..n]);
      OrphanHasNoMembership(DeleteOrphans(db, us[..n]).db, us[n]);
    }
  }

  // ----- one guarded request -----

  lemma SetRoleDecided(db: Db, actor: UserId, c: CompanyId, target: UserId, next: Role)
    requires RequireRoleChange(db, actor, c, target, next).Granted?
    requires ChangeRole(db, RequireRoleChange(db, actor, c, target, next).grant).Done?
    ensures var g := RequireRoleChange(db, actor, c, target, next).grant;
            OwnersDecide(db, ChangeRole(db, g).db.members, SetRole(g))
  {
  }

  lemma TransferDecided(db: Db, actor: UserId, c: CompanyId, to: UserId)
    requires RequireTransferOwnership(db, actor, c, to).Granted?
    requires TransferOwnership(db, RequireTransferOwnership(db, actor, c, to).grant).Done?
    ensures var g := RequireTransferOwnership(db, actor, c, to).grant;
            OwnersDecide(db, TransferOwnership(db, g).db.members, Transfer(g))
  {
  }

  lemma AcceptDecided(db: Db, g: AcceptGrant, m: MembershipId, now: Time, logged: bool)
    requires AcceptInvitation(db, g, m, now).Done?
    ensures OwnersDecide(db, AcceptInvitation(db, g, m, now).db.members, Accept(g, m, now, logged))
  {
    AcceptJoins(db, g, m, now);
    assert g.row.role.OWNER? ==> HasRole(db.members, g.row.invitedBy, g.row.company, OWNER);
  }

  lemma CreateDecided(db: Db, u: UserId, c: CompanyId, m: MembershipId, name: string, now: Time, a: Action)
    requires Refs(db) && CreateCompanyWithOwner(db, u, c, m, name, now).Done?
    requires (a.SignupCompany? || a.AddCompany?) && a.user == u && a.company == c
    ensures OwnersDecide(db, CreateCompanyWithOwner(db, u, c, m, name, now).db.members, a)
  {
    CreateCompanyJoins(db, u, c, m, name, now);
  }

  lemma RemovedMembers(db: Db, g: RemovalGrant)
    requires RemoveMember(db, g).Done? && Closed(db)
    ensures RemoveMember(db, g).db.members == db.members - {(g.target, g.company)}
  {
    RemoveMemberSteps(db, g);
    SubsetClosed(db, AfterRemoval(db, g));
    OrphanHasNoMembership(AfterRemoval(db, g), g.target);
  }

  /** Fewer members, and no more pending invitations. */
  lemma SubsetClosed(a: Db, b: Db)
    requires Closed(a) && b.companies == a.companies && b.members.Keys <= a.members.Keys
    requires forall i :: i in b.invitations && b.invitations[i].status.PENDING? ==> i in a.invitations && b.invitations[i] == a.invitations[i]
    ensures Closed(b)
  {
    assert forall c :: IsActive(a, c) ==> IsActive(b, c);
  }

  lemma RemoveDecided(db: Db, actor: UserId, c: CompanyId, target: UserId, after: Members)
    requires RequireRemoval(db, actor, c, target).Granted? && after == db.members - {(target, c)}
    ensures OwnersDecide(db, after, Remove(RequireRemoval(db, actor, c, target).grant))
  {
  }

  lemma DissolvedMembers(db: Db, actor: UserId, c: CompanyId, revoked: seq<InvitationId>, removed: seq<UserId>, now: Time)
    requires Closed(db) && Enumerates(removed, MembersOf(db.members, c)) && IsActive(db, c)
    requires DeleteCompany(db, actor, c, revoked, removed, now).Done?
    ensures HasRole(db.members, actor, c, OWNER)
    ensures DeleteCompany(db, actor, c, revoked, removed, now).db.members == WithoutCompany(db.members, c)
  {
    var emptied := Emptied(db, actor, c, revoked, removed, now);
    DeleteCompanySteps(db, actor, c, revoked, removed, now);
    SubsetClosed(db, emptied);
    OrphansHaveNoMembership(emptied, Ascending(Elements(removed)));
  }

  lemma DissolveDecided(db: Db, actor: UserId, c: CompanyId, a: Action)
    requires HasRole(db.members, actor, c, OWNER) && a.Dissolve? && a.actor == actor
    ensures OwnersDecide(db, WithoutCompany(db.members, c), a)
  {
  }

  lemma PlainDecided(db: Db, a: Action)
    requires Unguarded(a) && Refs(db) && Closed(db) && Body(db, a).Done?
    ensures OwnersDecide(db, Body(db, a).db.members, a)
  {
    match a
    case Fault =>
    case RegisterUser(u, email, now) =>
    case SignupCompany(u, c, m, name, now) => CreateDecided(db, u, c, m, name, now, a);
    case AddCompany(u, c, m, name, now) => CreateDecided(db, u, c, m, name, now, a);
    case CloseAccount(u) => LeaverDecides(db, u);
    case Sweep(u) => OrphanHasNoMembership(db, u);
    case Switch(u, c) =>
  }

  lemma LeaverDecides(db: Db, u: UserId)
    ensures OwnersDecide(db, WithoutUser(db.members, u), CloseAccount(u))
  {
  }

  lemma RemovedByBody(db: Db, a: Action)
    requires Closed(db) && a.Remove? && Body(db, a).Done?
    ensures Body(db, a).db.members == db.members - {(a.removal.target, a.removal.company)}
  {
    RemovedMembers(db, a.removal);
  }

  lemma DissolveRequestDecided(db: Db, actor: UserId, c: CompanyId, revoked: seq<InvitationId>, removed: seq<UserId>, now: Time)
    requires Closed(db) && Enumerates(removed, MembersOf(db.members, c))
    requires DeleteCompany(db, actor, c, revoked, removed, now).Done?
    ensures OwnersDecide(db, DeleteCompany(db, actor, c, revoked, removed, now).db.members,
                         Dissolve(actor, c, revoked, removed, now))
  {
    if IsActive(db, c) {
      DissolvedMembers(db, actor, c, revoked, removed, now);
      DissolveDecided(db, actor, c, Dissolve(actor, c, revoked, removed, now));
    }
  }

  lemma InvitationsDecideNothing(db: Db, a: Action)
    requires (a.Invite? || a.Revoke?) && Body(db, a).Done?
    ensures OwnersDecide(db, Body(db, a).db.members, a)
  {
    assert Body(db, a).db.members == db.members;
  }

  /** Requests that neither remove anyone nor create a company need no invariant. */
  lemma MembershipRequestDecided(db: Db, r: Request)
    requires r.AskInvite? || r.AskRevoke? || r.AskAccept? || r.AskSetRole? || r.AskTransfer?
    requires Body(db, Guarded(db, r)).Done?
    ensures OwnersDecide(db, Body(db, Guarded(db, r)).db.members, Guarded(db, r))
  {
    var a := Guarded(db, r);
    match r
    case AskInvite(_, _, _, _, _, _) => InvitationsDecideNothing(db, a);
    case AskRevoke(_, _, _, _) => InvitationsDecideNothing(db, a);
    case AskAccept(_, _, _, m, now, logged) => AcceptDecided(db, a.accept, m, now, logged);
    case AskSetRole(actor, c, target, next) => SetRoleDecided(db, actor, c, target, next);
    case AskTransfer(actor, c, to) => TransferDecided(db, actor, c, to);
  }

  lemma DissolveActionDecided(db: Db, a: Action)
    requires Closed(db) && a.Dissolve? && Possible(db, a) && Body(db, a).Done?
    ensures OwnersDecide(db, Body(db, a).db.members, a)
  {
    DissolveRequestDecided(db, a.actor, a.company, a.revoked, a.removed, a.now);
  }

  /** One request, guard and transaction in the same state: only OWNERs make or undo OWNERs of their company. */
  lemma RequestDecided(db: Db, r: Request)
    requires Refs(db) && Closed(db) && Possible(db, Guarded(db, r)) && Body(db, Guarded(db, r)).Done?
    ensures OwnersDecide(db, Body(db, Guarded(db, r)).db.members, Guarded(db, r))
  {
    if r.Plain? {
      PlainDecided(db, Guarded(db, r));
    } else if r.AskRemove? {
      RemovedByBody(db, Guarded(db, r));
      RemoveDecided(db, r.actor, r.company, r.target, db.members - {(r.target, r.company)});
    } else if r.AskDissolve? {
      DissolveActionDecided(db, Guarded(db, r));
    } else {
      MembershipRequestDecided(db, r);
    }
  }

  // ----- runs of requests -----

  ghost predicate Servable(rs: seq<Request>)
    decreases |rs|, 0
  {
    rs != [] ==>
      Servable(rs[..|rs| - 1])
      && var db := Serve(rs[..|rs| - 1]).db; Possible(db, Guarded(db, rs[|rs| - 1]))
  }

  /** The state after serving requests one after another, each guard and transaction as one step. */
  ghost function Serve(rs: seq<Request>): World
    requires Servable(rs)
    decreases |rs|, 1
  {
    if rs == [] then START
    else var w := Serve(rs[..|rs| - 1]); Step(w, Guarded(w.db, rs[|rs| - 1]))
  }

  lemma GuardedIsTimely(db: Db, r: Request)
    requires Refs(db) && Closed(db)
    ensures Timely(db, Guarded(db, r))
  {
  }

  lemma {:induction false} ServeTidy(rs: seq<Request>)
    requires Servable(rs)
    ensures Sound(Serve(rs).db) && Tidy(Serve(rs).db)
    decreases |rs|
  {
    if rs == [] {
      StartTidy();
    } else {
      var w, r := Serve(rs[..|rs| - 1]), rs[|rs| - 1];
      ServeTidy(rs[..|rs| - 1]);
      GuardedIsTimely(w.db, r);
      StepSound(w, Guarded(w.db, r));
      StepTidy(w, Guarded(w.db, r));
    }
  }

  lemma ServeDecided(rs: seq<Request>)
    requires Servable(rs) && rs != []
    ensures var w := Serve(rs[..|rs| - 1]);
            OwnersDecide(w.db, Serve(rs).db.members, Guarded(w.db, rs[|rs| - 1]))
  {
    var w, r := Serve(rs[..|rs| - 1]), rs[|rs| - 1];
    ServeTidy(rs[..|rs| - 1]);
    if Body(w.db, Guarded(w.db, r)).Done? {
      RequestDecided(w.db, r);
    }
  }

  /**
   * `u` is an OWNER of `c` after these requests, and has been since a request that created the company or
   * that was made on the authority of somebody who was OWNER at that moment, with such a lineage too.
   */
  ghost predicate HasLineage(rs: seq<Request>, u: UserId, c: CompanyId)
    requires Servable(rs)
    decreases |rs|
  {
    rs != [] && HasRole(Serve(rs).db.members, u, c, OWNER) &&
    var before := rs[..|rs| - 1];
    var db := Serve(before).db;
    var a := Guarded(db, rs[|rs| - 1]);
    if HasRole(db.members, u, c, OWNER) then HasLineage(before, u, c)
    else
      || CreationBy(db, a) == Some((u, c))
      || (GranterOf(a).Some? && HasRole(db.members, GranterOf(a).value, c, OWNER) && HasLineage(before, GranterOf(a).value, c))
  }

  /** Every OWNER membership of every reachable state traces back to the creation of the company. */
  lemma {:induction false} OwnershipLineage(rs: seq<Request>, u: UserId, c: CompanyId)
    requires Servable(rs) && HasRole(Serve(rs).db.members, u, c, OWNER)
    ensures HasLineage(rs, u, c)
    decreases |rs|
  {
    if rs != [] {
      var before := rs[..|rs| - 1];
      var db := Serve(before).db;
      var a := Guarded(db, rs[|rs| - 1]);
      ServeDecided(rs);
      if HasRole(db.members, u, c, OWNER) {
        OwnershipLineage(before, u, c);
      } else if GranterOf(a).Some? && HasRole(db.members, GranterOf(a).value, c, OWNER) {
        OwnershipLineage(before, GranterOf(a).value, c);
      }
    }
  }

  /** In every reachable state, a request undoes an OWNER only on their own wish or an OWNER's. */
  lemma NoOwnerUndoneByOthers(rs: seq<Request>, u: UserId, c: CompanyId)
    requires Servable(rs) && rs != []
    ensures var db := Serve(rs[..|rs| - 1]).db;
            var actor := ActorOf(Guarded(db, rs[|rs| - 1]));
            HasRole(db.members, u, c, OWNER) && !HasRole(Serve(rs).db.members, u, c, OWNER) ==>
              actor.Some? && (actor.value == u || HasRole(db.members, actor.value, c, OWNER))
  {
    ServeDecided(rs);
  }
}
