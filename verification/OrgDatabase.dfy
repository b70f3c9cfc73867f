/**
 * The transactions as the program runs them: row writes in order on mutable tables, early exits that
 * roll everything back, and hooks that run after the commit. Each is proved to be the step of OrgRuns.
 */
module OrgDatabase {
  import opened Prelude
  import opened OrgModel
  import opened OrgGuards
  import opened OrgTransactions
  import opened OrgHistory
  import opened OrgInvariants
  import opened OrgRuns
  import opened OrgEffects

  datatype Result<+T> = Ok(value: T) | Err(failure: Failure) {
    predicate IsFailure() {
      Err?
    }

    function PropagateFailure<U>(): Result<U>
      requires Err?
    {
      Err(failure)
    }

    function Extract(): T
      requires Ok?
    {
      value
    }
  }

  /** A body that finished left the snapshot the specification names; one that failed reports its failure. */
  ghost predicate Agrees<T>(tx: Tx<T>, r: Result<T>, db: Db) {
    match tx
    case Done(after, value) => r == Ok(value) && db == after
    case Abort(failure) => r == Err(failure)
  }

  /** What a transaction comes to is committed and its hooks run, or nothing has happened. */
  ghost predicate Commits<T>(w: World, tx: Tx<T>, r: Result<T>, w': World) {
    match tx
    case Done(db, value) => r == Ok(value) && w' == World(db.(hooks := []), w.ended + db.hooks)
    case Abort(failure) => r == Err(failure) && w' == w
  }

  /** The accounts are gone with all that goes along, and their sessions ended. */
  ghost predicate AccountsGone(w: World, w': World, us: seq<UserId>) {
    exists gone :: AccountsDeleted(w.db, gone, us) && w' == World(gone.(hooks := []), w.ended + us)
  }

  /** Rows in whatever order the database returns them. */
  method InSomeOrder<T(==)>(s: set<T>) returns (r: seq<T>)
    ensures Enumerates(r, s)
  {
    r := [];
    var rest := s;
    while rest != {}
      invariant NoDuplicates(r) && Elements(r) + rest == s && Elements(r) !! rest
      decreases rest
    {
      var x :| x in rest;
      assert x !in Elements(r);
      assert Elements(r + [x]) == Elements(r) + {x} by {
        assert (r + [x])[..|r|] == r;
        TakeLast(r + [x]);
      }
      r, rest := r + [x], rest - {x};
    }
  }

  /** `[...new Set(ids)].sort()`. */
  method SortedDistinct(ids: seq<nat>) returns (r: seq<nat>)
    ensures r == Ascending(Elements(ids))
  {
    r := [];
    var rest := Elements(ids);
    while rest != {}
      invariant r + Ascending(rest) == Ascending(Elements(ids))
      decreases rest
    {
      LeastExists(rest);
      var m :| m in rest && IsLeast(m, rest);
      AscendingStep(m, rest);
      assert r + ([m] + Ascending(rest - {m})) == (r + [m]) + Ascending(rest - {m});
      r, rest := r + [m], rest - {m};
    }
  }

  ghost function InSomeGhostOrder<T(!new)>(s: set<T>): (r: seq<T>)
    ensures Enumerates(r, s)
  {
    if s == {} then []
    else
      var x :| x in s;
      var rest := InSomeGhostOrder(s - {x});
      PrependElements(x, rest);
      assert forall j :: 0 <= j < |rest| ==> rest[j] in Elements(rest);
      [x] + rest
  }

  /** Accounts older than the threshold without a membership of an ACTIVE company. */
  function Abandoned(db: Db, threshold: Time): set<UserId> {
    set u | u in db.users && db.users[u].createdAt < threshold && ActiveCompaniesOf(db, u) == {}
  }

  /** A pending invitation of the company for the address that has not expired. */
  predicate IsReusable(db: Db, c: CompanyId, email: string, now: Time, i: InvitationId) {
    && i in db.invitations && db.invitations[i].company == c && db.invitations[i].email == email
    && db.invitations[i].status == PENDING && now < db.invitations[i].expiresAt
  }

  lemma SameBelongs(a: Db, b: Db, u: UserId)
    requires a.members == b.members && a.companies == b.companies
    ensures Belongs(a, u) <==> Belongs(b, u)
  {
    assert forall c :: IsMemberOfActive(a, u, c) <==> IsMemberOfActive(b, u, c);
  }

  ghost function AfterSweeps(w: World, us: seq<UserId>): World {
    if us == [] then w else Step(AfterSweeps(w, us[..|us| - 1]), Sweep(us[|us| - 1]))
  }

  lemma ReassignStep(db: Db, c: CompanyId, done: set<UserId>, u: UserId)
    ensures var mid := ReassignAfterLeaving(db, c, done).users;
            ReassignAfterLeaving(db, c, done + {u}).users ==
            if u in mid && mid[u].current == Some(c) then mid[u := mid[u].(current := OldestActive(db, u))] else mid
  {
  }

  class Database {
    var users: map<UserId, User>
    var companies: map<CompanyId, Company>
    var members: Members
    var invitations: map<InvitationId, Invitation>
    var audit: seq<Event>
    var issued: set<nat>
    var hooks: seq<UserId>
    var ended: seq<UserId>

    constructor ()
      ensures State() == START
    {
      users, companies, members, invitations := map[], map[], map[], map[];
      audit, issued, hooks, ended := [], {}, [], [];
    }

    function Snapshot(): Db
      reads this
    {
      Db(users, companies, members, invitations, audit, issued, hooks)
    }

    function State(): World
      reads this
    {
      World(Snapshot(), ended)
    }

    // ----- transaction.ts -----

    /** ROLLBACK restores the snapshot; COMMIT runs the registered hooks in order of registration. */
    method Finish(saved: Db, failed: bool)
      requires saved.hooks == []
      modifies this
      ensures State() == if failed then World(saved, old(ended))
                         else World(old(Snapshot()).(hooks := []), old(ended) + old(hooks))
    {
      if failed {
        users, companies, members, invitations := saved.users, saved.companies, saved.members, saved.invitations;
        audit, issued, hooks := saved.audit, saved.issued, [];
      } else {
        var i := 0;
        while i < |hooks|
          invariant i <= |hooks| && hooks == old(hooks) && ended == old(ended) + hooks[..i]
          invariant Snapshot() == old(Snapshot())
        {
          ended := ended + [hooks[i]];
          i := i + 1;
        }
        hooks := [];
      }
    }

    // ----- db/repositories -----

    method AppendAuditLogs(es: seq<Event>)
      modifies `audit
      ensures Snapshot() == Append(old(Snapshot()), es)
    {
      audit := audit + es;
    }

    method InsertMembershipRow(u: UserId, c: CompanyId, id: MembershipId, role: Role, now: Time) returns (r: Result<()>)
      modifies `members, `issued
      ensures Agrees(InsertMembership(old(Snapshot()), u, c, id, role, now), r, Snapshot())
    {
      if id in issued || u !in users || c !in companies || (u, c) in members {
        return Err(DbError);
      }
      issued := issued + {id};
      members := members[(u, c) := Membership(id, role, now)];
      return Ok(());
    }

    method UpdateMembershipRole(u: UserId, c: CompanyId, role: Role) returns (r: Result<()>)
      modifies `members
      ensures Agrees(UpdateRole(old(Snapshot()), u, c, role), r, Snapshot())
    {
      if (u, c) !in members {
        return Err(NotFound);
      }
      members := members[(u, c) := members[(u, c)].(role := role)];
      return Ok(());
    }

    method DeleteMembershipRow(u: UserId, c: CompanyId) returns (r: Result<()>)
      modifies `members
      ensures Agrees(DeleteMembership(old(Snapshot()), u, c), r, Snapshot())
    {
      if (u, c) !in members {
        return Err(NotFound);
      }
      members := members - {(u, c)};
      return Ok(());
    }

    /** DELETE ... RETURNING: the removed rows, in an order of the database's choosing. */
    method RemoveMembershipsOfCompany(c: CompanyId) returns (removed: seq<UserId>, roles: seq<Role>)
      modifies `members
      ensures members == WithoutCompany(old(members), c)
      ensures Enumerates(removed, MembersOf(old(members), c)) && |roles| == |removed|
      ensures forall i :: 0 <= i < |removed| ==> (removed[i], c) in old(members) && roles[i] == old(members)[(removed[i], c)].role
    {
      removed := InSomeOrder(MembersOf(members, c));
      assert forall i :: 0 <= i < |removed| ==> removed[i] in Elements(removed);
      var rows := members;
      roles := seq(|removed|, i requires 0 <= i < |removed| && (removed[i], c) in rows => rows[(removed[i], c)].role);
      members := WithoutCompany(members, c);
    }

    method RevokePendingInvitationsOfCompany(c: CompanyId, now: Time) returns (revoked: seq<InvitationId>)
      modifies `invitations
      ensures Snapshot() == RevokeAllPending(old(Snapshot()), c, now)
      ensures Enumerates(revoked, PendingOf(old(Snapshot()), c))
    {
      var pending := PendingOf(Snapshot(), c);
      revoked := InSomeOrder(pending);
      invitations := map i | i in invitations :: if i in pending then WithStatus(invitations[i], REVOKED, now) else invitations[i];
    }

    method DeleteUserRow(u: UserId) returns (r: Result<()>)
      modifies `users, `members, `invitations
      ensures Agrees(DeleteUser(old(Snapshot()), u), r, Snapshot()) && (r.Err? ==> Snapshot() == old(Snapshot()))
    {
      if u !in users {
        return Err(NotFound);
      }
      users := users - {u};
      members := WithoutUser(members, u);
      invitations := WithoutInviter(invitations, u);
      return Ok(());
    }

    method UpdateUserLastUsedCompany(u: UserId, c: CompanyId)
      modifies `users
      ensures Snapshot() == SetCurrent(old(Snapshot()), u, c)
    {
      if u in users {
        users := users[u := users[u].(current := Some(c))];
      }
    }

    /** ORDER BY joined_at, id LIMIT 1 over the ACTIVE memberships. */
    method OldestActiveCompany(u: UserId) returns (r: Option<CompanyId>)
      ensures r == OldestActive(Snapshot(), u)
    {
      var rest := ActiveCompaniesOf(Snapshot(), u);
      r := None;
      ghost var seen: set<CompanyId> := {};
      while rest != {}
        invariant seen + rest == ActiveCompaniesOf(Snapshot(), u)
        invariant r.None? ==> seen == {}
        invariant r.Some? ==> r.value in seen && forall c :: c in seen ==> JoinedNoLater(members, u, r.value, c)
        decreases rest
      {
        var c :| c in rest;
        if r.None? || !JoinedNoLater(members, u, r.value, c) {
          r := Some(c);
        }
        seen, rest := seen + {c}, rest - {c};
      }
    }

    method ReassignLastUsedCompanyAfterLeaving(c: CompanyId, us: seq<UserId>)
      modifies `users
      ensures Snapshot() == ReassignAfterLeaving(old(Snapshot()), c, Elements(us))
    {
      var i := 0;
      ghost var done: set<UserId> := {};
      while i < |us|
        invariant 0 <= i <= |us| && done == Elements(us[..i])
        invariant users == ReassignAfterLeaving(old(Snapshot()), c, done).users
      {
        TakeLast(us[..i + 1]);
        assert us[..i + 1][..i] == us[..i];
        ReassignStep(old(Snapshot()), c, done, us[i]);
        SameOldest(Snapshot(), old(Snapshot()), us[i]);
        ReassignOne(us[i], c);
        i, done := i + 1, done + {us[i]};
      }
      assert us[..|us|] == us;
    }

    method ReassignOne(u: UserId, c: CompanyId)
      modifies `users
      ensures users == if u in old(users) && old(users)[u].current == Some(c)
                       then old(users)[u := old(users)[u].(current := OldestActive(old(Snapshot()), u))] else old(users)
    {
      if u in users && users[u].current == Some(c) {
        var next := OldestActiveCompany(u);
        users := users[u := users[u].(current := next)];
      }
    }

    // ----- src/account -----

    method DeleteAccountRow(u: UserId) returns (r: Result<()>)
      modifies this
      ensures ended == old(ended) && Agrees(DeleteAccount(old(Snapshot()), u), r, Snapshot())
      ensures r.Err? ==> Snapshot() == old(Snapshot())
    {
      var _ :- DeleteUserRow(u);
      AppendAuditLogs([AccountDeleted(u)]);
      hooks := hooks + [u];
      return Ok(());
    }

    method DeleteIfOrphaned(u: UserId) returns (removal: Removal)
      modifies this
      ensures ended == old(ended) && DeleteAccountIfOrphaned(old(Snapshot()), u) == Done(Snapshot(), removal)
    {
      if ActiveCompaniesOf(Snapshot(), u) != {} {
        return Kept;
      }
      var gone := DeleteAccountRow(u);
      return if gone.Ok? then Deleted else Kept;
    }

    method DeleteEachOrphan(us: seq<UserId>) returns (deleted: seq<UserId>)
      modifies this
      ensures ended == old(ended) && DeleteOrphans(old(Snapshot()), us) == Done(Snapshot(), deleted)
    {
      deleted := [];
      var i := 0;
      while i < |us|
        invariant 0 <= i <= |us| && ended == old(ended)
        invariant DeleteOrphans(old(Snapshot()), us[..i]) == Done(Snapshot(), deleted)
      {
        assert us[..i + 1][..i] == us[..i];
        var removal := DeleteIfOrphaned(us[i]);
        if removal.Deleted? {
          deleted := deleted + [us[i]];
        }
        i := i + 1;
      }
      assert us[..|us|] == us;
    }

    method DeleteAccountUnlessLastOwnerTx(u: UserId) returns (r: Result<()>)
      requires hooks == []
      modifies this
      ensures State() == Step(old(State()), CloseAccount(u))
      ensures r == if exists c :: IsMemberOfActive(old(Snapshot()), u, c) && old(members)[(u, c)].role == OWNER && !OwnedBesides(old(members), u, c)
                   then Err(LastOwner)
                   else if u !in old(users) then Err(NotFound) else Ok(())
      ensures if r.Err? then State() == old(State()) else AccountsGone(old(State()), State(), [u])
    {
      CloseAccountRows(Snapshot(), u);
      var saved := Snapshot();
      if CompaniesBlockingDeletion(saved, u) != {} {
        r := Err(LastOwner);
      } else {
        r := DeleteAccountRow(u);
      }
      Finish(saved, r.Err?);
    }

    method SweepOneTx(u: UserId) returns (removal: Removal)
      requires hooks == []
      modifies this
      ensures hooks == [] && State() == Step(old(State()), Sweep(u))
      ensures removal.Deleted? <==> u in old(users) && !Belongs(old(Snapshot()), u)
      ensures if removal.Deleted? then AccountsGone(old(State()), State(), [u]) else State() == old(State())
      ensures users.Keys == if removal.Deleted? then old(users.Keys) - {u} else old(users.Keys)
      ensures forall v :: v != u ==> (Belongs(Snapshot(), v) <==> Belongs(old(Snapshot()), v))
    {
      OrphanRows(Snapshot(), u);
      var saved := Snapshot();
      removal := DeleteIfOrphaned(u);
      if removal.Deleted? {
        forall v | v != u ensures Belongs(Snapshot(), v) <==> Belongs(saved, v) {
          OthersBelong(saved, Snapshot(), [u], v);
        }
      }
      ghost var gone := Snapshot();
      Finish(saved, false);
      forall v ensures Belongs(Snapshot(), v) <==> Belongs(gone, v) {
        SameBelongs(gone, Snapshot(), v);
      }
    }

    method ExecuteSweep(candidates: seq<UserId>) returns (deleted: seq<UserId>)
      requires hooks == []
      modifies this
      ensures hooks == [] && State() == AfterSweeps(old(State()), candidates)
      ensures users.Keys == old(users.Keys) - Elements(deleted)
      ensures forall v :: v !in candidates ==> (Belongs(Snapshot(), v) <==> Belongs(old(Snapshot()), v))
      ensures NoDuplicates(candidates) && (forall u :: u in candidates ==> u in old(users) && !Belongs(old(Snapshot()), u)) ==> deleted == candidates
      decreases |candidates|
    {
      if candidates == [] {
        return [];
      }
      var n := |candidates| - 1;
      assert candidates == candidates[..n] + [candidates[n]];
      deleted := ExecuteSweep(candidates[..n]);
      var removal := SweepOneTx(candidates[n]);
      if removal.Deleted? {
        TakeLast(deleted + [candidates[n]]);
        deleted := deleted + [candidates[n]];
      }
    }

    /** One deleting transaction per candidate; `threshold` is the age limit on the account. */
    method SweepAbandonedSignups(threshold: Time, execute: bool) returns (candidates: seq<UserId>, deleted: seq<UserId>)
      requires hooks == []
      modifies this
      ensures NoDuplicates(candidates) && deleted == candidates
      ensures forall u :: u in candidates <==> u in old(users) && old(users)[u].createdAt < threshold && !Belongs(old(Snapshot()), u)
      ensures State() == if execute then AfterSweeps(old(State()), candidates) else old(State())
      ensures execute ==> users.Keys == old(users.Keys) - Elements(candidates)
    {
      forall u ensures u in Abandoned(Snapshot(), threshold) <==> u in users && users[u].createdAt < threshold && !Belongs(Snapshot(), u) {
        BelongsMeaning(Snapshot(), u);
      }
      candidates := InSomeOrder(Abandoned(Snapshot(), threshold));
      assert forall u :: u in candidates <==> u in Elements(candidates);
      deleted := candidates;
      if execute {
        deleted := ExecuteSweep(candidates);
      }
    }

    // ----- src/membership -----

    method Join(u: UserId, c: CompanyId, id: MembershipId, role: Role, now: Time) returns (r: Result<()>)
      modifies this
      ensures ended == old(ended) && Agrees(ApplyJoin(old(Snapshot()), u, c, id, role, now), r, Snapshot())
    {
      var _ :- InsertMembershipRow(u, c, id, role, now);
      UpdateUserLastUsedCompany(u, c);
      return Ok(());
    }

    /** The count that closes every role change and removal: it passes exactly when somebody is still OWNER. */
    method CheckAnOwnerRemains(c: CompanyId) returns (r: Result<()>)
      ensures r.Ok? <==> exists u :: HasRole(members, u, c, OWNER)
      ensures r.Err? ==> r.failure == LastOwner
    {
      SomeOwner(members, c);
      return if |OwnersOf(members, c)| < 1 then Err(LastOwner) else Ok(());
    }

    method ChangeRoleBody(g: RoleChangeGrant) returns (r: Result<()>)
      modifies this
      ensures ended == old(ended) && Agrees(ChangeRole(old(Snapshot()), g), r, Snapshot())
    {
      if g.targetRole == g.nextRole {
        return Ok(());
      }
      var _ :- UpdateMembershipRole(g.target, g.company, g.nextRole);
      SomeOwner(members, g.company);
      var _ :- CheckAnOwnerRemains(g.company);
      AppendAuditLogs([RoleChanged(g.actor, g.company, g.target, g.targetRole, g.nextRole)]);
      return Ok(());
    }

    method ChangeRoleTx(g: RoleChangeGrant) returns (r: Result<()>)
      requires hooks == []
      modifies this
      ensures State() == Step(old(State()), SetRole(g))
      ensures r == if g.targetRole == g.nextRole then Ok(())
                   else if (g.target, g.company) !in old(members) then Err(NotFound)
                   else if g.nextRole != OWNER && !OwnedBesides(old(members), g.target, g.company) then Err(LastOwner)
                   else Ok(())
      ensures State() == if r.Err? || g.targetRole == g.nextRole then old(State())
                         else World(old(Snapshot()).(
                           members := old(members)[(g.target, g.company) := old(members)[(g.target, g.company)].(role := g.nextRole)],
                           audit := old(audit) + [RoleChanged(g.actor, g.company, g.target, g.targetRole, g.nextRole)]), old(ended))
    {
      ChangeRoleRows(Snapshot(), g);
      var saved := Snapshot();
      r := ChangeRoleBody(g);
      Finish(saved, r.Err?);
    }

    method TransferOwnershipBody(g: TransferGrant) returns (r: Result<()>)
      modifies this
      ensures ended == old(ended) && Agrees(TransferOwnership(old(Snapshot()), g), r, Snapshot())
    {
      var _ :- UpdateMembershipRole(g.to, g.company, OWNER);
      var _ :- UpdateMembershipRole(g.actor, g.company, ADMIN);
      SomeOwner(members, g.company);
      var _ :- CheckAnOwnerRemains(g.company);
      AppendAuditLogs([OwnershipTransferred(g.company, g.actor, g.to)]);
      return Ok(());
    }

    method TransferOwnershipTx(g: TransferGrant) returns (r: Result<()>)
      requires hooks == []
      modifies this
      ensures State() == Step(old(State()), Transfer(g))
      ensures r == if (g.to, g.company) !in old(members) || (g.actor, g.company) !in old(members) then Err(NotFound)
                   else if g.to == g.actor && !OwnedBesides(old(members), g.actor, g.company) then Err(LastOwner)
                   else Ok(())
      ensures State() == if r.Err? then old(State())
                         else World(old(Snapshot()).(
                           members := old(members)[(g.to, g.company) := old(members)[(g.to, g.company)].(role := OWNER)]
                                                  [(g.actor, g.company) := old(members)[(g.actor, g.company)].(role := ADMIN)],
                           audit := old(audit) + [OwnershipTransferred(g.company, g.actor, g.to)]), old(ended))
    {
      TransferRows(Snapshot(), g);
      var saved := Snapshot();
      r := TransferOwnershipBody(g);
      Finish(saved, r.Err?);
    }

    method RemoveMemberBody(g: RemovalGrant) returns (r: Result<Removal>)
      modifies this
      ensures ended == old(ended) && Agrees(RemoveMember(old(Snapshot()), g), r, Snapshot())
    {
      var _ :- DeleteMembershipRow(g.target, g.company);
      SomeOwner(members, g.company);
      var _ :- CheckAnOwnerRemains(g.company);
      ReassignLastUsedCompanyAfterLeaving(g.company, [g.target]);
      assert Elements([g.target]) == {g.target};
      AppendAuditLogs([RemovedEvent(g.actor, g.company, g.target, g.targetRole)]);
      var removal := DeleteIfOrphaned(g.target);
      return Ok(removal);
    }

    method RemoveMemberTx(g: RemovalGrant) returns (r: Result<Removal>)
      requires hooks == []
      modifies this
      ensures State() == Step(old(State()), Remove(g))
      ensures exists tx :: RemovalIs(old(Snapshot()), g, tx) && Commits(old(State()), tx, r, State())
    {
      RemovalRows(Snapshot(), g);
      var saved := Snapshot();
      r := RemoveMemberBody(g);
      Finish(saved, r.Err?);
    }

    method SwitchCurrentCompanyTx(u: UserId, c: CompanyId) returns (r: Result<()>)
      requires hooks == []
      modifies this
      ensures State() == Step(old(State()), Switch(u, c))
      ensures r == if (u, c) in old(members) then Ok(()) else Err(Forbidden)
      ensures var from := if u in old(users) then old(users)[u].current else None;
              State() == if r.Err? || from == Some(c) then old(State())
                         else World(old(Snapshot()).(
                           users := if u in old(users) then old(users)[u := old(users)[u].(current := Some(c))] else old(users),
                           audit := old(audit) + [CompanySwitched(u, from, c)]), old(ended))
    {
      var saved := Snapshot();
      if (u, c) !in members {
        r := Err(Forbidden);
      } else {
        var from := if u in users then users[u].current else None;
        if from != Some(c) {
          UpdateUserLastUsedCompany(u, c);
          AppendAuditLogs([CompanySwitched(u, from, c)]);
        }
        r := Ok(());
      }
      Finish(saved, r.Err?);
    }

    // ----- src/company -----

    method CreateCompanyBody(u: UserId, c: CompanyId, id: MembershipId, name: string, now: Time) returns (r: Result<()>)
      modifies this
      ensures ended == old(ended) && Agrees(CreateCompanyWithOwner(old(Snapshot()), u, c, id, name, now), r, Snapshot())
    {
      if c in issued {
        return Err(DbError);
      }
      issued := issued + {c};
      companies := companies[c := Company(name, ACTIVE)];
      var _ :- Join(u, c, id, OWNER, now);
      AppendAuditLogs([CompanyCreated(u, c, name)]);
      return Ok(());
    }

    method AddCompanyTx(u: UserId, c: CompanyId, id: MembershipId, name: string, now: Time) returns (r: Result<()>)
      requires hooks == []
      modifies this
      ensures State() == Step(old(State()), AddCompany(u, c, id, name, now))
      ensures r == if c in old(issued) || id in old(issued) || id == c || u !in old(users) || (u, c) in old(members) then Err(DbError) else Ok(())
      ensures State() == if r.Err? then old(State()) else World(old(Snapshot()).(
                           companies := old(companies)[c := Company(name, ACTIVE)],
                           members := old(members)[(u, c) := Membership(id, OWNER, now)],
                           users := old(users)[u := old(users)[u].(current := Some(c))],
                           audit := old(audit) + [CompanyCreated(u, c, name)], issued := old(issued) + {c, id}), old(ended))
    {
      CreateCompanyRows(Snapshot(), u, c, id, name, now);
      var saved := Snapshot();
      r := CreateCompanyBody(u, c, id, name, now);
      Finish(saved, r.Err?);
    }

    method CreateSignupCompanyTx(u: UserId, c: CompanyId, id: MembershipId, name: string, now: Time) returns (r: Result<()>)
      requires hooks == []
      modifies this
      ensures State() == Step(old(State()), SignupCompany(u, c, id, name, now))
      ensures r == if Belongs(old(Snapshot()), u) then Err(AlreadyExists)
                   else if c in old(issued) || id in old(issued) || id == c || u !in old(users) || (u, c) in old(members) then Err(DbError)
                   else Ok(())
      ensures State() == if r.Err? then old(State()) else World(old(Snapshot()).(
                           companies := old(companies)[c := Company(name, ACTIVE)],
                           members := old(members)[(u, c) := Membership(id, OWNER, now)],
                           users := old(users)[u := old(users)[u].(current := Some(c))],
                           audit := old(audit) + [CompanyCreated(u, c, name)], issued := old(issued) + {c, id}), old(ended))
    {
      SignupCompanyRows(Snapshot(), u, c, id, name, now);
      CreateCompanyRows(Snapshot(), u, c, id, name, now);
      var saved := Snapshot();
      if ActiveCompaniesOf(saved, u) != {} {
        r := Err(AlreadyExists);
      } else {
        r := CreateCompanyBody(u, c, id, name, now);
      }
      Finish(saved, r.Err?);
    }

    method RevokeAndLog(actor: UserId, c: CompanyId, now: Time) returns (revoked: seq<InvitationId>)
      modifies `invitations, `audit
      ensures Enumerates(revoked, PendingOf(old(Snapshot()), c))
      ensures Snapshot() == RevokeInvitationsOf(old(Snapshot()), actor, c, revoked, now)
    {
      revoked := RevokePendingInvitationsOfCompany(c, now);
      AppendAuditLogs(RevokedEvents(actor, c, revoked));
    }

    method EmptyAndLog(actor: UserId, c: CompanyId) returns (removed: seq<UserId>)
      modifies `members, `users, `audit
      ensures Enumerates(removed, MembersOf(old(members), c))
      ensures (forall u :: u in removed ==> (u, c) in old(members)) && Snapshot() == EmptyCompany(old(Snapshot()), actor, c, removed)
    {
      var roles;
      removed, roles := RemoveMembershipsOfCompany(c);
      ReassignLastUsedCompanyAfterLeaving(c, removed);
      var rows := seq(|removed|, i requires 0 <= i < |removed| && |roles| == |removed| => RemovedEvent(actor, c, removed[i], roles[i]));
      AppendAuditLogs(rows);
      assert forall u :: u in removed ==> u in Elements(removed);
      assert rows == RemovedEvents(old(members), actor, c, removed);
    }

    method CloseAndLog(actor: UserId, c: CompanyId, name: string)
      modifies `companies, `audit
      ensures Snapshot() == Append(SoftDeleteCompany(old(Snapshot()), c), [CompanyDeleted(actor, c, name)])
    {
      if c in companies && companies[c].status.ACTIVE? {
        companies := companies[c := companies[c].(status := DELETED)];
      }
      AppendAuditLogs([CompanyDeleted(actor, c, name)]);
    }

    method DeleteCompanyBody(actor: UserId, c: CompanyId, now: Time)
      returns (r: Result<seq<UserId>>, ghost revoked: seq<InvitationId>, ghost removed: seq<UserId>)
      modifies this
      ensures ended == old(ended)
      ensures Enumerates(revoked, PendingOf(old(Snapshot()), c)) && Enumerates(removed, MembersOf(old(members), c))
      ensures Agrees(DeleteCompany(old(Snapshot()), actor, c, revoked, removed, now), r, Snapshot())
    {
      if c !in companies || !companies[c].status.ACTIVE? || !HasRole(members, actor, c, OWNER) {
        revoked, removed := InSomeGhostOrder(PendingOf(Snapshot(), c)), InSomeGhostOrder(MembersOf(members, c));
        r := if c in companies && !companies[c].status.ACTIVE? then Ok([]) else Err(Forbidden);
        return;
      }
      var name := companies[c].name;
      var revokedRows := RevokeAndLog(actor, c, now);
      var removedUsers := EmptyAndLog(actor, c);
      revoked, removed := revokedRows, removedUsers;
      var orphans := SortedDistinct(removedUsers);
      var deleted := DeleteEachOrphan(orphans);
      CloseAndLog(actor, c, name);
      r := Ok(deleted);
    }

    method DeleteCompanyTx(actor: UserId, c: CompanyId, now: Time)
      returns (r: Result<seq<UserId>>, ghost revoked: seq<InvitationId>, ghost removed: seq<UserId>)
      requires hooks == []
      modifies this
      ensures Possible(old(Snapshot()), Dissolve(actor, c, revoked, removed, now))
      ensures State() == Step(old(State()), Dissolve(actor, c, revoked, removed, now))
      ensures exists tx :: DissolutionIs(old(Snapshot()), actor, c, revoked, removed, now, tx) && Commits(old(State()), tx, r, State())
    {
      var saved := Snapshot();
      r, revoked, removed := DeleteCompanyBody(actor, c, now);
      DissolutionRows(saved, actor, c, revoked, removed, now);
      Finish(saved, r.Err?);
    }

    // ----- src/invitation -----

    method InsertInvitationTx(g: InviteGrant, id: InvitationId, now: Time) returns (r: Result<()>)
      requires hooks == []
      modifies this
      ensures State() == Step(old(State()), Invite(g, id, now))
      ensures r == if id in old(issued) || g.company !in old(companies) || g.actor !in old(users) then Err(DbError) else Ok(())
      ensures State() == if r.Err? then old(State())
                         else World(old(Snapshot()).(
                           invitations := old(invitations)[id := Invitation(g.company, g.email, g.role, now + 86_400_000, g.actor, PENDING, None, None, None)],
                           audit := old(audit) + [InvitationSent(g.actor, id, g.company, g.email, g.role)], issued := old(issued) + {id}), old(ended))
    {
      var saved := Snapshot();
      if id in issued || g.company !in companies || g.actor !in users {
        r := Err(DbError);
      } else {
        issued := issued + {id};
        invitations := invitations[id :=
          Invitation(g.company, g.email, g.role, now + INVITE_TTL_MS, g.actor, PENDING, None, None, None)];
        AppendAuditLogs([InvitationSent(g.actor, id, g.company, g.email, g.role)]);
        r := Ok(());
      }
      Finish(saved, r.Err?);
    }

    /** An unexpired pending invitation of the company for the address, if there is one. */
    method FindActivePendingInvitation(c: CompanyId, email: string, now: Time) returns (r: Option<InvitationId>)
      ensures r.Some? ==> IsReusable(Snapshot(), c, email, now, r.value)
      ensures r.None? ==> forall i :: !IsReusable(Snapshot(), c, email, now, i)
    {
      var rows := invitations;
      var existing := set i | i in rows && rows[i].company == c && rows[i].email == email && rows[i].status.PENDING? && rows[i].expiresAt > now;
      assert forall i :: IsReusable(Snapshot(), c, email, now, i) ==> i in existing;
      if existing == {} {
        return None;
      }
      var i :| i in existing;
      return Some(i);
    }

    method RevokeInvitationTx(g: MemberGrant, id: InvitationId, now: Time) returns (r: Result<()>)
      requires hooks == []
      modifies this
      ensures State() == Step(old(State()), Revoke(g, id, now))
      ensures r == if id in old(invitations) && old(invitations)[id].company == g.company && old(invitations)[id].status == PENDING then Ok(())
                   else Err(NotFoundOrNotPending)
      ensures State() == if r.Err? then old(State())
                         else World(old(Snapshot()).(
                           invitations := old(invitations)[id := old(invitations)[id].(status := REVOKED, acceptedAt := None, revokedAt := Some(now), usedAt := Some(now))],
                           audit := old(audit) + [InvitationRevoked(g.actor, id, g.company)]), old(ended))
    {
      var saved := Snapshot();
      if id !in invitations || invitations[id].company != g.company || !invitations[id].status.PENDING? {
        r := Err(NotFoundOrNotPending);
      } else {
        invitations := invitations[id := WithStatus(invitations[id], REVOKED, now)];
        AppendAuditLogs([InvitationRevoked(g.actor, id, g.company)]);
        r := Ok(());
      }
      Finish(saved, r.Err?);
    }

    method AcceptInvitationBody(g: AcceptGrant, membership: MembershipId, now: Time) returns (r: Result<()>)
      modifies this
      ensures ended == old(ended) && Agrees(AcceptInvitation(old(Snapshot()), g, membership, now), r, Snapshot())
    {
      if g.id !in invitations || !invitations[g.id].status.PENDING? {
        return Err(DoubleAccept);
      }
      invitations := invitations[g.id := WithStatus(invitations[g.id], ACCEPTED, now)];
      if g.row.role.OWNER? {
        var seen := VerifyInviter(members, g.row.invitedBy, g.row.company);
        if seen.Some? {
          return Err(InviterNotOwner(seen.value));
        }
      }
      var _ :- Join(g.actor, g.row.company, membership, g.row.role, now);
      AppendAuditLogs([InvitationAccepted(g.actor, g.id, g.row.company, g.row.role)]);
      return Ok(());
    }

    /** A refused acceptance is recorded after the rollback, if the audit table takes the row. */
    method AcceptInvitationTx(g: AcceptGrant, membership: MembershipId, now: Time, auditUp: bool) returns (r: Result<CompanyId>)
      requires hooks == []
      modifies this
      ensures State() == Step(old(State()), Accept(g, membership, now, auditUp))
      ensures var refused := RefusedAcceptance(old(Snapshot()), g);
              && r == (if refused.Some? then Err(ExpiredOrUsed) else if JoinFails(old(Snapshot()), g, membership) then Err(DbError) else Ok(g.row.company))
              && State() == if refused.Some? && auditUp
                            then World(old(Snapshot()).(audit := old(audit) + [InvitationAcceptRejected(g.actor, g.id, g.row.company, refused.value)]), old(ended))
                            else if r.Err? then old(State())
                            else World(old(Snapshot()).(
                              invitations := old(invitations)[g.id := old(invitations)[g.id].(status := ACCEPTED, acceptedAt := Some(now), revokedAt := None, usedAt := Some(now))],
                              members := old(members)[(g.actor, g.row.company) := Membership(membership, g.row.role, now)],
                              users := old(users)[g.actor := old(users)[g.actor].(current := Some(g.row.company))],
                              audit := old(audit) + [InvitationAccepted(g.actor, g.id, g.row.company, g.row.role)],
                              issued := old(issued) + {membership}), old(ended))
    {
      AcceptRows(Snapshot(), g, membership, now);
      var saved := Snapshot();
      var done := AcceptInvitationBody(g, membership, now);
      Finish(saved, done.Err?);
      if done.Ok? {
        return Ok(g.row.company);
      }
      var rejection := RejectionEvent(g, done.failure);
      if rejection.None? {
        return Err(done.failure);
      }
      if auditUp {
        AppendAuditLogs([rejection.value]);
      }
      return Err(ExpiredOrUsed);
    }

    // ----- any transaction, and any number of them -----

    method RegisterUserTx(u: UserId, email: string, now: Time) returns (r: Result<()>)
      requires hooks == []
      modifies this
      ensures State() == Step(old(State()), RegisterUser(u, email, now))
      ensures r == if u in old(issued) || (exists v :: v in old(users) && old(users)[v].email == email) then Err(DbError) else Ok(())
      ensures State() == if r.Err? then old(State())
                         else World(old(Snapshot()).(users := old(users)[u := User(now, email, None)], issued := old(issued) + {u}), old(ended))
    {
      var saved := Snapshot();
      if u in issued || exists v :: v in users && users[v].email == email {
        r := Err(DbError);
      } else {
        issued := issued + {u};
        users := users[u := User(now, email, None)];
        r := Ok(());
      }
      Finish(saved, r.Err?);
    }

    /** Runs the transaction of an action; a company deletion reports its own row orders. */
    method Execute(a: Action) returns (ghost done: Action)
      requires hooks == []
      modifies this
      ensures hooks == [] && Possible(old(Snapshot()), done) && State() == Step(old(State()), done)
      ensures if a.Dissolve? then done.Dissolve? && done.actor == a.actor && done.company == a.company && done.now == a.now else done == a
    {
      done := a;
      match a {
        case Fault =>
        case RegisterUser(u, email, now) => var _ := RegisterUserTx(u, email, now);
        case SignupCompany(u, c, m, name, now) => var _ := CreateSignupCompanyTx(u, c, m, name, now);
        case AddCompany(u, c, m, name, now) => var _ := AddCompanyTx(u, c, m, name, now);
        case Invite(g, i, now) => var _ := InsertInvitationTx(g, i, now);
        case Revoke(g, i, now) => var _ := RevokeInvitationTx(g, i, now);
        case Accept(g, m, now, logged) => var _ := AcceptInvitationTx(g, m, now, logged);
        case SetRole(g) => var _ := ChangeRoleTx(g);
        case Transfer(g) => var _ := TransferOwnershipTx(g);
        case Remove(g) => var _ := RemoveMemberTx(g);
        case Dissolve(actor, c, _, _, now) =>
          var _, revoked, removed := DeleteCompanyTx(actor, c, now);
          done := Dissolve(actor, c, revoked, removed, now);
        case CloseAccount(u) => var _ := DeleteAccountUnlessLastOwnerTx(u);
        case Sweep(u) => var _ := SweepOneTx(u);
        case Switch(u, c) => var _ := SwitchCurrentCompanyTx(u, c);
      }
      StepClearsHooks(old(State()), done);
    }

    /** Whatever transactions others run, one after another. */
    method ExecuteAll(actions: seq<Action>) returns (ghost done: seq<Action>)
      requires hooks == []
      modifies this
      ensures hooks == [] && Feasible(old(State()), done) && State() == Run(old(State()), done)
    {
      done := [];
      for i := 0 to |actions|
        invariant hooks == [] && Feasible(old(State()), done) && State() == Run(old(State()), done)
      {
        var a := Execute(actions[i]);
        assert (done + [a])[..|done|] == done;
        done := done + [a];
      }
    }
  }

  lemma StepClearsHooks(w: World, a: Action)
    requires Possible(w.db, a) && w.db.hooks == []
    ensures Step(w, a).db.hooks == []
  {
  }
}
