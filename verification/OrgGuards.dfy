/** Role policy (src/membership/policy.ts) and the guards that issue grants (src/membership/guard). */
module OrgGuards {
  import opened Prelude
  import opened OrgModel

  datatype Verdict<+T> = Granted(grant: T) | Refused(failure: Failure) {
    predicate IsFailure() {
      Refused?
    }

    function PropagateFailure<U>(): Verdict<U>
      requires Refused?
    {
      Refused(failure)
    }

    function Extract(): T
      requires Granted?
    {
      grant
    }
  }

  datatype MemberGrant = MemberGrant(actor: UserId, company: CompanyId, role: Role)
  datatype InviteGrant = InviteGrant(actor: UserId, company: CompanyId, email: string, role: Role)
  datatype AcceptGrant = AcceptGrant(actor: UserId, id: InvitationId, row: Invitation)
  datatype RemovalGrant = RemovalGrant(actor: UserId, company: CompanyId, target: UserId, targetRole: Role)
  datatype RoleChangeGrant = RoleChangeGrant(actor: UserId, company: CompanyId, target: UserId, targetRole: Role, nextRole: Role)
  datatype TransferGrant = TransferGrant(actor: UserId, company: CompanyId, to: UserId)

  /** An accept request either finds the caller already a member, or gets a grant. */
  datatype Acceptance = AlreadyMember(company: CompanyId) | Proceed(grant: AcceptGrant)

  function Level(r: Role): nat {
    match r
    case MEMBER => 0
    case ADMIN => 1
    case OWNER => 2
  }

  predicate IsAtLeast(r: Role, min: Role) {
    Level(r) >= Level(min)
  }

  predicate CanChangeRole(actorRole: Role, before: Role, next: Role) {
    if before.OWNER? || next.OWNER? then actorRole.OWNER? else true
  }

  predicate CanInviteRole(actorRole: Role, invited: Role) {
    if invited.OWNER? then actorRole.OWNER? else true
  }

  predicate CanAttemptRemoval(actorRole: Role, isSelf: bool) {
    isSelf || IsAtLeast(actorRole, ADMIN)
  }

  predicate CanRemoveTarget(actorRole: Role, isSelf: bool, targetRole: Role) {
    !(targetRole.OWNER? && !isSelf && !actorRole.OWNER?)
  }

  /** `None` accepts the inviter; otherwise what was seen instead of an OWNER. */
  function VerifyInviter(m: Members, inviter: UserId, c: CompanyId): Option<InviterSeen> {
    if (inviter, c) !in m then Some(Missing)
    else if m[(inviter, c)].role.OWNER? then None
    else Some(Demoted(m[(inviter, c)].role))
  }

  function RequireMembershipOf(db: Db, actor: UserId, c: CompanyId, min: Role): Verdict<MemberGrant> {
    if (actor, c) !in db.members then Refused(Forbidden)
    else
      var role := db.members[(actor, c)].role;
      if !IsAtLeast(role, min) then Refused(Forbidden) else Granted(MemberGrant(actor, c, role))
  }

  function RequireTargetMembership(db: Db, u: UserId, c: CompanyId): Verdict<Membership> {
    if (u, c) !in db.members then Refused(NotFound) else Granted(db.members[(u, c)])
  }

  function RequireInvite(db: Db, actor: UserId, c: CompanyId, email: string, role: Role): Verdict<InviteGrant> {
    var member :- RequireMembershipOf(db, actor, c, ADMIN);
    if !CanInviteRole(member.role, role) then Refused(Forbidden)
    else Granted(InviteGrant(actor, c, email, role))
  }

  /** The token selects an invitation row; `id` names that row, or no row. */
  function RequireInvitationAccept(db: Db, actor: UserId, actorEmail: string, id: InvitationId, now: Time): Verdict<Acceptance> {
    if id !in db.invitations then Refused(NotFound)
    else
      var row := db.invitations[id];
      if row.email != actorEmail then Refused(EmailMismatch)
      else if (actor, row.company) in db.members then Granted(AlreadyMember(row.company))
      else if !(row.status.PENDING? && row.expiresAt > now) then Refused(ExpiredOrUsed)
      else Granted(Proceed(AcceptGrant(actor, id, row)))
  }

  function RequireRemoval(db: Db, actor: UserId, c: CompanyId, target: UserId): Verdict<RemovalGrant> {
    var member :- RequireMembershipOf(db, actor, c, MEMBER);
    var isSelf := actor == target;
    if !CanAttemptRemoval(member.role, isSelf) then Refused(Forbidden)
    else
      var row :- RequireTargetMembership(db, target, c);
      if !CanRemoveTarget(member.role, isSelf, row.role) then Refused(Forbidden)
      else Granted(RemovalGrant(actor, c, target, row.role))
  }

  function RequireRoleChange(db: Db, actor: UserId, c: CompanyId, target: UserId, next: Role): Verdict<RoleChangeGrant> {
    var member :- RequireMembershipOf(db, actor, c, ADMIN);
    var row :- RequireTargetMembership(db, target, c);
    if !CanChangeRole(member.role, row.role, next) then Refused(Forbidden)
    else Granted(RoleChangeGrant(actor, c, target, row.role, next))
  }

  function RequireTransferOwnership(db: Db, actor: UserId, c: CompanyId, to: UserId): Verdict<TransferGrant> {
    if to == actor then Refused(InvalidArgument)
    else
      var _ :- RequireMembershipOf(db, actor, c, OWNER);
      var row :- RequireTargetMembership(db, to, c);
      if row.role.OWNER? then Refused(AlreadyOwner)
      else Granted(TransferGrant(actor, c, to))
  }

  // ----- whom the guards admit -----

  /** An OWNER invites to any role, an ADMIN to any but OWNER, nobody else to none. */
  lemma InviteAdmits(db: Db, actor: UserId, c: CompanyId, email: string, invited: Role)
    ensures RequireInvite(db, actor, c, email, invited) ==
            if HasRole(db.members, actor, c, OWNER) || (HasRole(db.members, actor, c, ADMIN) && invited != OWNER)
            then Granted(InviteGrant(actor, c, email, invited)) else Refused(Forbidden)
  {
  }

  /** Everybody may leave; a MEMBER removes nobody else, and only an OWNER another OWNER. */
  lemma RemovalAdmits(db: Db, actor: UserId, c: CompanyId, target: UserId)
    ensures RequireRemoval(db, actor, c, target) ==
            if (actor, c) !in db.members then Refused(Forbidden)
            else if actor == target then Granted(RemovalGrant(actor, c, actor, db.members[(actor, c)].role))
            else if HasRole(db.members, actor, c, MEMBER) then Refused(Forbidden)
            else if (target, c) !in db.members then Refused(NotFound)
            else if HasRole(db.members, target, c, OWNER) && HasRole(db.members, actor, c, ADMIN) then Refused(Forbidden)
            else Granted(RemovalGrant(actor, c, target, db.members[(target, c)].role))
  {
  }

  /** An OWNER changes any role to any; an ADMIN only those of others than OWNERs, and not to OWNER. */
  lemma RoleChangeAdmits(db: Db, actor: UserId, c: CompanyId, target: UserId, next: Role)
    ensures RequireRoleChange(db, actor, c, target, next) ==
            if (actor, c) !in db.members || HasRole(db.members, actor, c, MEMBER) then Refused(Forbidden)
            else if (target, c) !in db.members then Refused(NotFound)
            else if HasRole(db.members, actor, c, OWNER) || (next != OWNER && !HasRole(db.members, target, c, OWNER))
            then Granted(RoleChangeGrant(actor, c, target, db.members[(target, c)].role, next))
            else Refused(Forbidden)
  {
  }

  /** An OWNER transfers to another member who is no OWNER yet. */
  lemma TransferAdmits(db: Db, actor: UserId, c: CompanyId, to: UserId)
    ensures RequireTransferOwnership(db, actor, c, to) ==
            if actor == to then Refused(InvalidArgument)
            else if !HasRole(db.members, actor, c, OWNER) then Refused(Forbidden)
            else if (to, c) !in db.members then Refused(NotFound)
            else if HasRole(db.members, to, c, OWNER) then Refused(AlreadyOwner)
            else Granted(TransferGrant(actor, c, to))
  {
  }

  /** A grant to join goes to the one invited, for the row as it is: pending, not expired, and not a member yet. */
  lemma AcceptAdmits(db: Db, actor: UserId, email: string, id: InvitationId, now: Time, g: AcceptGrant)
    ensures RequireInvitationAccept(db, actor, email, id, now) == Granted(Proceed(g)) <==>
            && id in db.invitations && g == AcceptGrant(actor, id, db.invitations[id])
            && g.row.email == email && g.row.status == PENDING && now < g.row.expiresAt && (actor, g.row.company) !in db.members
    ensures forall c :: RequireInvitationAccept(db, actor, email, id, now) == Granted(AlreadyMember(c)) <==>
            id in db.invitations && db.invitations[id].email == email && db.invitations[id].company == c && (actor, c) in db.members
  {
  }
}
