/**
 * What each transaction of the organisation does to a snapshot. These functions specify the methods
 * of class Database; row orders that SQL leaves open (RETURNING) are arguments.
 */
module OrgTransactions {
  import opened Prelude
  import opened OrgModel
  import opened OrgGuards

  datatype Removal = Kept | Deleted

  // ----- src/account -----

  function DeleteAccount(db: Db, u: UserId): Tx<()> {
    var (gone, _) :- DeleteUser(db, u);
    var logged := Append(gone, [AccountDeleted(u)]);
    Done(logged.(hooks := logged.hooks + [u]), ())
  }

  function DeleteAccountIfOrphaned(db: Db, u: UserId): Tx<Removal> {
    if ActiveCompaniesOf(db, u) != {} then Done(db, Kept)
    else
      match DeleteAccount(db, u)
      case Done(gone, _) => Done(gone, Deleted)
      case Abort(failure) => if failure.NotFound? then Done(db, Kept) else Abort(failure)
  }

  function DeleteAccountUnlessLastOwner(db: Db, u: UserId): Tx<()> {
    if CompaniesBlockingDeletion(db, u) != {} then Abort(LastOwner) else DeleteAccount(db, u)
  }

  /** Deletes the orphans among `us`, in that order; the value is the list of those deleted. */
  function DeleteOrphans(db: Db, us: seq<UserId>): Tx<seq<UserId>>
    decreases |us|
  {
    if us == [] then Done(db, [])
    else
      var n := |us| - 1;
      var (before, deleted) :- DeleteOrphans(db, us[..n]);
      var (after, removal) :- DeleteAccountIfOrphaned(before, us[n]);
      Done(after, if removal.Deleted? then deleted + [us[n]] else deleted)
  }

  // ----- src/membership -----

  function ApplyJoin(db: Db, u: UserId, c: CompanyId, id: MembershipId, role: Role, now: Time): Tx<()> {
    var (joined, _) :- InsertMembership(db, u, c, id, role, now);
    Done(SetCurrent(joined, u, c), ())
  }

  function KeepingAnOwner(db: Db, c: CompanyId): Tx<()> {
    if OwnersOf(db.members, c) == {} then Abort(LastOwner) else Done(db, ())
  }

  function ChangeRole(db: Db, g: RoleChangeGrant): Tx<()> {
    if g.targetRole == g.nextRole then Done(db, ())
    else
      var (changed, _) :- UpdateRole(db, g.target, g.company, g.nextRole);
      var (kept, _) :- KeepingAnOwner(changed, g.company);
      Done(Append(kept, [RoleChanged(g.actor, g.company, g.target, g.targetRole, g.nextRole)]), ())
  }

  function TransferOwnership(db: Db, g: TransferGrant): Tx<()> {
    var (raised, _) :- UpdateRole(db, g.to, g.company, OWNER);
    var (lowered, _) :- UpdateRole(raised, g.actor, g.company, ADMIN);
    var (kept, _) :- KeepingAnOwner(lowered, g.company);
    Done(Append(kept, [OwnershipTransferred(g.company, g.actor, g.to)]), ())
  }

  function RemovedEvent(actor: UserId, c: CompanyId, u: UserId, role: Role): Event {
    MembershipRemoved(actor, c, u, role, actor == u)
  }

  ghost function ApplyRemoval(db: Db, u: UserId, c: CompanyId): Tx<()> {
    var (removed, _) :- DeleteMembership(db, u, c);
    var (kept, _) :- KeepingAnOwner(removed, c);
    Done(ReassignAfterLeaving(kept, c, {u}), ())
  }

  ghost function RemoveMember(db: Db, g: RemovalGrant): Tx<Removal> {
    var (left, _) :- ApplyRemoval(db, g.target, g.company);
    DeleteAccountIfOrphaned(Append(left, [RemovedEvent(g.actor, g.company, g.target, g.targetRole)]), g.target)
  }

  function SwitchCurrentCompany(db: Db, u: UserId, c: CompanyId): Tx<()> {
    if (u, c) !in db.members then Abort(Forbidden)
    else
      var from := if u in db.users then db.users[u].current else None;
      if from == Some(c) then Done(db, ())
      else Done(Append(SetCurrent(db, u, c), [CompanySwitched(u, from, c)]), ())
  }

  // ----- src/company -----

  function CreateCompanyWithOwner(db: Db, u: UserId, c: CompanyId, id: MembershipId, name: string, now: Time): Tx<()> {
    var (created, _) :- InsertCompany(db, c, name);
    var (joined, _) :- ApplyJoin(created, u, c, id, OWNER, now);
    Done(Append(joined, [CompanyCreated(u, c, name)]), ())
  }

  function CreateSignupCompany(db: Db, u: UserId, c: CompanyId, id: MembershipId, name: string, now: Time): Tx<()> {
    if ActiveCompaniesOf(db, u) != {} then Abort(AlreadyExists)
    else CreateCompanyWithOwner(db, u, c, id, name, now)
  }

  function RevokedEvents(actor: UserId, c: CompanyId, ids: seq<InvitationId>): seq<Event> {
    seq(|ids|, i requires 0 <= i < |ids| => InvitationRevoked(actor, ids[i], c))
  }

  function RemovedEvents(m: Members, actor: UserId, c: CompanyId, us: seq<UserId>): seq<Event>
    requires forall u :: u in us ==> (u, c) in m
  {
    seq(|us|, i requires 0 <= i < |us| => RemovedEvent(actor, c, us[i], m[(us[i], c)].role))
  }

  /** Revokes what is pending, with its audit rows. `revoked` is the order the rows came back in. */
  function RevokeInvitationsOf(db: Db, actor: UserId, c: CompanyId, revoked: seq<InvitationId>, now: Time): Db {
    Append(RevokeAllPending(db, c, now), RevokedEvents(actor, c, revoked))
  }

  /** Removes every membership, moves the leavers' pointers, with the audit rows in the order `removed`. */
  ghost function EmptyCompany(db: Db, actor: UserId, c: CompanyId, removed: seq<UserId>): Db
    requires forall u :: u in removed ==> (u, c) in db.members
  {
    var bare := db.(members := WithoutCompany(db.members, c));
    Append(ReassignAfterLeaving(bare, c, Elements(removed)), RemovedEvents(db.members, actor, c, removed))
  }

  ghost function DeleteCompany(db: Db, actor: UserId, c: CompanyId, revoked: seq<InvitationId>, removed: seq<UserId>,
                               now: Time): Tx<seq<UserId>>
    requires Enumerates(removed, MembersOf(db.members, c))
  {
    if c !in db.companies then Abort(Forbidden)
    else if !IsActive(db, c) then Done(db, [])
    else if !HasRole(db.members, actor, c, OWNER) then Abort(Forbidden)
    else
      assert forall u :: u in removed ==> u in Elements(removed);
      var emptied := EmptyCompany(RevokeInvitationsOf(db, actor, c, revoked, now), actor, c, removed);
      var (swept, deleted) :- DeleteOrphans(emptied, Ascending(Elements(removed)));
      Done(Append(SoftDeleteCompany(swept, c), [CompanyDeleted(actor, c, db.companies[c].name)]), deleted)
  }

  // ----- src/invitation -----

  function InviteToCompany(db: Db, g: InviteGrant, id: InvitationId, now: Time): Tx<()> {
    var (sent, _) :- InsertInvitation(db, id, g.company, g.email, g.role, g.actor, now + INVITE_TTL_MS);
    Done(Append(sent, [InvitationSent(g.actor, id, g.company, g.email, g.role)]), ())
  }

  const INVITE_TTL_MS: Time := 24 * 60 * 60 * 1000

  function RevokeInvitation(db: Db, g: MemberGrant, id: InvitationId, now: Time): Tx<()> {
    if id !in PendingOf(db, g.company) then Abort(NotFoundOrNotPending)
    else Done(Append(SettleInvitation(db, id, REVOKED, now), [InvitationRevoked(g.actor, id, g.company)]), ())
  }

  function AcceptInvitation(db: Db, g: AcceptGrant, membership: MembershipId, now: Time): Tx<()> {
    if g.id !in db.invitations || !db.invitations[g.id].status.PENDING? then Abort(DoubleAccept)
    else
      var accepted := SettleInvitation(db, g.id, ACCEPTED, now);
      var seen := if g.row.role.OWNER? then VerifyInviter(accepted.members, g.row.invitedBy, g.row.company) else None;
      if seen.Some? then Abort(InviterNotOwner(seen.value))
      else
        var (joined, _) :- ApplyJoin(accepted, g.actor, g.row.company, membership, g.row.role, now);
        Done(Append(joined, [InvitationAccepted(g.actor, g.id, g.row.company, g.row.role)]), ())
  }

  /** The audit row written after a refused acceptance, outside the rolled-back transaction. */
  function RejectionEvent(g: AcceptGrant, failure: Failure): Option<Event> {
    match failure
    case DoubleAccept => Some(InvitationAcceptRejected(g.actor, g.id, g.row.company, DoubleAcceptReason))
    case InviterNotOwner(seen) => Some(InvitationAcceptRejected(g.actor, g.id, g.row.company, InviterReason(seen)))
    case _ => None
  }

  // ----- accounts created by the sign-in library -----

  function SignUp(db: Db, u: UserId, email: string, now: Time): Tx<()> {
    if u in db.issued || exists v :: v in db.users && db.users[v].email == email then Abort(DbError)
    else Done(db.(users := db.users[u := User(now, email, None)], issued := db.issued + {u}), ())
  }
}
