/** The organisation tables (db/schema.ts) and the row writes of the repositories (db/repositories). */
module OrgModel {
  import opened Prelude

  type UserId = nat
  type CompanyId = nat
  type MembershipId = nat
  type InvitationId = nat
  type Time = int

  datatype Role = OWNER | ADMIN | MEMBER
  datatype Activation = ACTIVE | DELETED
  datatype InvitationStatus = PENDING | ACCEPTED | REVOKED

  datatype User = User(createdAt: Time, email: string, current: Option<CompanyId>)
  datatype Company = Company(name: string, status: Activation)
  datatype Membership = Membership(id: MembershipId, role: Role, joinedAt: Time)
  datatype Invitation = Invitation(
    company: CompanyId, email: string, role: Role, expiresAt: Time, invitedBy: UserId,
    status: InvitationStatus, acceptedAt: Option<Time>, revokedAt: Option<Time>, usedAt: Option<Time>)

  /** What an inviter's membership looked like when an OWNER invitation was refused. */
  datatype InviterSeen = Missing | Demoted(role: Role)

  datatype RejectReason = DoubleAcceptReason | InviterReason(seen: InviterSeen)

  /** The audit rows that concern companies, memberships, invitations and accounts. */
  datatype Event =
    | AccountDeleted(user: UserId)
    | CompanyCreated(user: UserId, company: CompanyId, name: string)
    | CompanyDeleted(actor: UserId, company: CompanyId, name: string)
    | CompanySwitched(user: UserId, fromCompany: Option<CompanyId>, toCompany: CompanyId)
    | InvitationSent(actor: UserId, invitation: InvitationId, company: CompanyId, email: string, role: Role)
    | InvitationAccepted(user: UserId, invitation: InvitationId, company: CompanyId, role: Role)
    | InvitationRevoked(actor: UserId, invitation: InvitationId, company: CompanyId)
    | InvitationAcceptRejected(user: UserId, invitation: InvitationId, company: CompanyId, reason: RejectReason)
    | MembershipRemoved(actor: UserId, company: CompanyId, removed: UserId, roleAtRemoval: Role, wasSelf: bool)
    | RoleChanged(actor: UserId, company: CompanyId, target: UserId, before: Role, after: Role)
    | OwnershipTransferred(company: CompanyId, fromUser: UserId, toUser: UserId)

  /** The membership table, keyed by its unique (user, company) index. */
  type Members = map<(UserId, CompanyId), Membership>

  /**
   * One database snapshot. `issued` is what the id generators have handed out (they never repeat an
   * id); `hooks` are the after-commit session deletions the open transaction has registered.
   */
  datatype Db = Db(
    users: map<UserId, User>,
    companies: map<CompanyId, Company>,
    members: Members,
    invitations: map<InvitationId, Invitation>,
    audit: seq<Event>,
    issued: set<nat>,
    hooks: seq<UserId>)

  const EMPTY_DB := Db(map[], map[], map[], map[], [], {}, [])

  datatype Failure =
    | Forbidden | NotFound | LastOwner | AlreadyExists | InvalidArgument | AlreadyOwner
    | NotFoundOrNotPending | ExpiredOrUsed | EmailMismatch | RateLimited
    | DoubleAccept | InviterNotOwner(seen: InviterSeen)
    | DbError

  /** What the body of a transaction came to: a new snapshot and a result, or a failure that rolls back. */
  datatype Tx<+T> = Done(db: Db, value: T) | Abort(failure: Failure) {
    predicate IsFailure() {
      Abort?
    }

    function PropagateFailure<U>(): Tx<U>
      requires Abort?
    {
      Abort(failure)
    }

    function Extract(): (Db, T)
      requires Done?
    {
      (db, value)
    }
  }

  // ----- reads -----

  predicate IsActive(db: Db, c: CompanyId) {
    c in db.companies && db.companies[c].status.ACTIVE?
  }

  predicate HasRole(m: Members, u: UserId, c: CompanyId, role: Role) {
    (u, c) in m && m[(u, c)].role == role
  }

  function OwnersOf(m: Members, c: CompanyId): set<UserId> {
    set k | k in m && k.1 == c && m[k].role.OWNER? :: k.0
  }

  function MembersOf(m: Members, c: CompanyId): set<UserId> {
    set k | k in m && k.1 == c :: k.0
  }

  function ActiveCompaniesOf(db: Db, u: UserId): set<CompanyId> {
    set k | k in db.members && k.0 == u && IsActive(db, k.1) :: k.1
  }

  /** ACTIVE companies that would lose their one OWNER with this user. */
  function CompaniesBlockingDeletion(db: Db, u: UserId): set<CompanyId> {
    set k | k in db.members && k.0 == u && db.members[k].role.OWNER? && IsActive(db, k.1)
            && |OwnersOf(db.members, k.1)| == 1 :: k.1
  }

  function PendingOf(db: Db, c: CompanyId): set<InvitationId> {
    set i | i in db.invitations && db.invitations[i].company == c && db.invitations[i].status.PENDING?
  }

  /** The order `joined_at, id` of one user's memberships. Ids are a primary key: the last comparison never decides. */
  predicate JoinedNoLater(m: Members, u: UserId, c: CompanyId, d: CompanyId)
    requires (u, c) in m && (u, d) in m
  {
    var x, y := m[(u, c)], m[(u, d)];
    x.joinedAt < y.joinedAt || (x.joinedAt == y.joinedAt && (x.id < y.id || (x.id == y.id && c <= d)))
  }

  /** The company `ORDER BY joined_at, id LIMIT 1` picks among some of a user's companies. */
  ghost function OldestAmong(m: Members, u: UserId, cs: set<CompanyId>): (r: CompanyId)
    requires cs != {} && forall c :: c in cs ==> (u, c) in m
    ensures r in cs && forall c :: c in cs ==> JoinedNoLater(m, u, r, c)
  {
    var c :| c in cs;
    if cs == {c} then c
    else
      var rest := cs - {c};
      assert rest != {} by { assert cs == {c} + rest; }
      var r := OldestAmong(m, u, rest);
      assert forall d :: d in cs ==> d == c || d in rest;
      if JoinedNoLater(m, u, c, r) then c else r
  }

  ghost function OldestActive(db: Db, u: UserId): (r: Option<CompanyId>)
    ensures r.None? <==> ActiveCompaniesOf(db, u) == {}
    ensures r.Some? ==> (u, r.value) in db.members && IsActive(db, r.value)
    ensures r.Some? ==> forall c :: (u, c) in db.members && IsActive(db, c) ==> JoinedNoLater(db.members, u, r.value, c)
  {
    var cs := ActiveCompaniesOf(db, u);
    assert forall c :: (u, c) in db.members && IsActive(db, c) ==> c in cs by {
      forall c | (u, c) in db.members && IsActive(db, c) ensures c in cs {
        assert (u, c) in db.members && (u, c).0 == u && IsActive(db, (u, c).1);
      }
    }
    if cs == {} then None else Some(OldestAmong(db.members, u, cs))
  }

  // ----- row writes -----

  function Append(db: Db, es: seq<Event>): Db {
    db.(audit := db.audit + es)
  }

  function InsertCompany(db: Db, c: CompanyId, name: string): Tx<()> {
    if c in db.issued then Abort(DbError)
    else Done(db.(companies := db.companies[c := Company(name, ACTIVE)], issued := db.issued + {c}), ())
  }

  /** Both foreign keys, the primary key and the unique (user, company) index are enforced. */
  function InsertMembership(db: Db, u: UserId, c: CompanyId, id: MembershipId, role: Role, now: Time): Tx<()> {
    if id in db.issued || u !in db.users || c !in db.companies || (u, c) in db.members then Abort(DbError)
    else Done(db.(members := db.members[(u, c) := Membership(id, role, now)], issued := db.issued + {id}), ())
  }

  function UpdateRole(db: Db, u: UserId, c: CompanyId, role: Role): Tx<()> {
    if (u, c) !in db.members then Abort(NotFound)
    else Done(db.(members := db.members[(u, c) := db.members[(u, c)].(role := role)]), ())
  }

  function DeleteMembership(db: Db, u: UserId, c: CompanyId): Tx<()> {
    if (u, c) !in db.members then Abort(NotFound) else Done(db.(members := db.members - {(u, c)}), ())
  }

  function WithoutCompany(m: Members, c: CompanyId): Members {
    map k | k in m && k.1 != c :: m[k]
  }

  function WithoutUser(m: Members, u: UserId): Members {
    map k | k in m && k.0 != u :: m[k]
  }

  function WithoutInviter(rows: map<InvitationId, Invitation>, u: UserId): map<InvitationId, Invitation> {
    map i | i in rows && rows[i].invitedBy != u :: rows[i]
  }

  /** Deleting a user row cascades to memberships and to the invitations the user sent. */
  function DeleteUser(db: Db, u: UserId): Tx<()> {
    if u !in db.users then Abort(NotFound)
    else Done(db.(users := db.users - {u},
                  members := WithoutUser(db.members, u),
                  invitations := WithoutInviter(db.invitations, u)), ())
  }

  function SetCurrent(db: Db, u: UserId, c: CompanyId): Db {
    if u !in db.users then db
    else db.(users := db.users[u := db.users[u].(current := Some(c))])
  }

  ghost function ReassignAfterLeaving(db: Db, c: CompanyId, us: set<UserId>): Db {
    db.(users := map u | u in db.users ::
          if u in us && db.users[u].current == Some(c) then db.users[u].(current := OldestActive(db, u))
          else db.users[u])
  }

  /** The four status columns always move together (`invitationStatusColumns`). */
  function WithStatus(i: Invitation, status: InvitationStatus, now: Time): Invitation {
    i.(status := status,
       acceptedAt := if status.ACCEPTED? then Some(now) else None,
       revokedAt := if status.REVOKED? then Some(now) else None,
       usedAt := if status.PENDING? then None else Some(now))
  }

  function InsertInvitation(db: Db, id: InvitationId, c: CompanyId, email: string, role: Role, inviter: UserId,
                            expiresAt: Time): Tx<()> {
    if id in db.issued || c !in db.companies || inviter !in db.users then Abort(DbError)
    else
      var row := Invitation(c, email, role, expiresAt, inviter, PENDING, None, None, None);
      Done(db.(invitations := db.invitations[id := row], issued := db.issued + {id}), ())
  }

  function SettleInvitation(db: Db, id: InvitationId, status: InvitationStatus, now: Time): Db
    requires id in db.invitations
  {
    db.(invitations := db.invitations[id := WithStatus(db.invitations[id], status, now)])
  }

  function RevokeAllPending(db: Db, c: CompanyId, now: Time): Db {
    var pending := PendingOf(db, c);
    db.(invitations := map i | i in db.invitations ::
          if i in pending then WithStatus(db.invitations[i], REVOKED, now) else db.invitations[i])
  }

  function SoftDeleteCompany(db: Db, c: CompanyId): Db {
    if !IsActive(db, c) then db
    else db.(companies := db.companies[c := db.companies[c].(status := DELETED)])
  }
}
