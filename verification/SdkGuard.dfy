/**
 * The consumer's two ways of asking who is calling: one GetSession, or VerifySession and then
 * ListCurrentCompanyMembers. Sources: packages/auth-client/src/guard.ts, src/rpc/auth-handler.ts,
 * src/membership/current-company.ts.
 */
module SdkGuard {
  import opened Prelude
  import opened Sorting
  import opened OrgModel
  import opened OrgInvariants
  import opened OrgRuns

  datatype Reason = UNSPECIFIED | SESSION_NOT_FOUND | USER_DELETED | REVISION_OUTDATED

  // ----- messages -----

  datatype ProtoRole = PROTO_UNSPECIFIED | PROTO_OWNER | PROTO_ADMIN | PROTO_MEMBER
  datatype ProtoUser = ProtoUser(id: UserId, email: string, createdAt: Time, defaultCompanyId: Option<CompanyId>)
  datatype ProtoSession = ProtoSession(id: nat, expiresAt: Time, companyId: Option<CompanyId>)
  datatype ProtoMember = ProtoMember(userId: UserId, email: string, role: ProtoRole)

  datatype Seen = Seen(user: Option<ProtoUser>, session: Option<ProtoSession>, currentRole: Option<ProtoRole>)
  datatype SeenWithMembers = SeenWithMembers(seen: Seen, members: seq<ProtoMember>)
  datatype Listed = Listed(companyId: Option<CompanyId>, members: seq<ProtoMember>)

  /** A response: an error, a value, or neither. */
  datatype Response<T> = Error(reason: Reason) | Ok(value: T) | Unset

  /** How a call came back. */
  datatype Reply<T> = Answered(response: Response<T>) | Unimplemented | Unreachable

  // ----- the server -----

  /** A session better-auth still knows, and the user revision it was cached with, if any. */
  datatype SessionRow = SessionRow(id: nat, user: UserId, expiresAt: Time, cachedRevision: Option<int>)

  datatype Server = Server(db: Db, sessions: map<string, SessionRow>, revisions: map<UserId, int>)

  datatype Check = Verified(user: UserId, row: User, session: SessionRow) | Rejected(reason: Reason)

  function RevisionOf(s: Server, u: UserId): int {
    if u in s.revisions then s.revisions[u] else 0
  }

  function VerifySessionUser(s: Server, token: string): Check {
    if token !in s.sessions then Rejected(SESSION_NOT_FOUND)
    else
      var session := s.sessions[token];
      if session.user !in s.db.users then Rejected(USER_DELETED)
      else if session.cachedRevision.Some? && RevisionOf(s, session.user) != session.cachedRevision.value then Rejected(REVISION_OUTDATED)
      else Verified(session.user, s.db.users[session.user], session)
  }

  function ToProtoRole(role: Role): ProtoRole {
    match role
    case OWNER => PROTO_OWNER
    case ADMIN => PROTO_ADMIN
    case MEMBER => PROTO_MEMBER
  }

  function CurrentRoleOf(db: Db, u: UserId, row: User): Option<Role> {
    match row.current
    case None => None
    case Some(c) => if (u, c) in db.members then Some(db.members[(u, c)].role) else None
  }

  /** What `ORDER BY joined_at, id` compares. */
  function RankOf(db: Db, c: CompanyId, u: UserId): (Time, MembershipId) {
    if (u, c) in db.members then (db.members[(u, c)].joinedAt, db.members[(u, c)].id) else (0, 0)
  }

  function OldestFirst(db: Db, c: CompanyId): (UserId, UserId) -> bool {
    (u: UserId, v: UserId) =>
      var x, y := RankOf(db, c, u), RankOf(db, c, v);
      x.0 < y.0 || (x.0 == y.0 && x.1 <= y.1)
  }

  /** The members of a company, oldest first. */
  ghost function MembersInOrder(db: Db, c: CompanyId): seq<UserId> {
    Sort(Ascending(MembersOf(db.members, c)), OldestFirst(db, c))
  }

  lemma MembersInOrderMembers(db: Db, c: CompanyId, u: UserId)
    ensures u in MembersInOrder(db, c) <==> (u, c) in db.members
  {
    var all := MembersOf(db.members, c);
    AscendingElements(all);
    SortMembers(Ascending(all), OldestFirst(db, c));
    assert u in MembersInOrder(db, c) <==> u in multiset(MembersInOrder(db, c));
    assert u in Ascending(all) <==> u in multiset(Ascending(all));
    assert u in Ascending(all) <==> u in Elements(Ascending(all));
    assert (u, c) in db.members ==> (u, c).0 in all;
  }

  lemma MembersInOrderSorted(db: Db, c: CompanyId)
    ensures NoDuplicates(MembersInOrder(db, c)) && Sorted(MembersInOrder(db, c), OldestFirst(db, c))
  {
    var all := MembersOf(db.members, c);
    AscendingMeaning(all);
    SortMembers(Ascending(all), OldestFirst(db, c));
    SameMembers(Ascending(all), MembersInOrder(db, c));
    SortSorted(Ascending(all), OldestFirst(db, c));
  }

  datatype CurrentMembers = CurrentMembers(companyId: CompanyId, callerRole: Role, members: seq<ProtoMember>)

  ghost function ToProtoMember(db: Db, c: CompanyId, u: UserId): ProtoMember {
    ProtoMember(u, if u in db.users then db.users[u].email else "",
                if (u, c) in db.members then ToProtoRole(db.members[(u, c)].role) else PROTO_UNSPECIFIED)
  }

  /** Nothing when no company is current, or the caller is not in the list of its members. */
  ghost function CurrentCompanyMembersOf(db: Db, u: UserId, row: User): Option<CurrentMembers> {
    match row.current
    case None => None
    case Some(c) =>
      var members := MembersInOrder(db, c);
      if u !in members || (u, c) !in db.members then None
      else Some(CurrentMembers(c, db.members[(u, c)].role, seq(|members|, i requires 0 <= i < |members| => ToProtoMember(db, c, members[i]))))
  }

  function SessionSeenByConsumer(u: UserId, row: User, session: SessionRow, role: Option<Role>): Seen {
    Seen(Some(ProtoUser(u, row.email, row.createdAt, row.current)),
         Some(ProtoSession(session.id, session.expiresAt, None)),
         match role case Some(r) => Some(ToProtoRole(r)) case None => None)
  }

  // Each handler reads the session and the user first, and the memberships later.

  function VerifySessionProgram(s: Server, later: Db, token: string): Response<Seen> {
    match VerifySessionUser(s, token)
    case Rejected(reason) => Error(reason)
    case Verified(u, row, session) => Ok(SessionSeenByConsumer(u, row, session, CurrentRoleOf(later, u, row)))
  }

  ghost function ListCurrentCompanyMembersProgram(s: Server, later: Db, token: string): Response<Listed> {
    match VerifySessionUser(s, token)
    case Rejected(reason) => Error(reason)
    case Verified(u, row, _) =>
      match CurrentCompanyMembersOf(later, u, row)
      case Some(current) => Ok(Listed(Some(current.companyId), current.members))
      case None => Ok(Listed(None, []))
  }

  ghost function GetSessionProgram(s: Server, later: Db, token: string): Response<SeenWithMembers> {
    match VerifySessionUser(s, token)
    case Rejected(reason) => Error(reason)
    case Verified(u, row, session) =>
      match CurrentCompanyMembersOf(later, u, row)
      case Some(current) => Ok(SeenWithMembers(SessionSeenByConsumer(u, row, session, Some(current.callerRole)), current.members))
      case None => Ok(SeenWithMembers(SessionSeenByConsumer(u, row, session, None), []))
  }

  // ----- the consumer's side -----

  datatype Result<T> = Good(data: T) | Bad(reason: Reason)

  datatype SessionData = SessionData(user: UserId, email: string, sessionId: nat, expiresAt: Time,
                                     companyId: Option<CompanyId>, role: Option<Role>)
  datatype Member = Member(userId: UserId, email: string, role: Option<Role>)
  datatype MemberList = MemberList(companyId: Option<CompanyId>, members: seq<Member>)

  datatype SessionAndMembers = SessionAndMembers(session: Result<SessionData>, members: Result<MemberList>)

  function RoleByProto(p: ProtoRole): Option<Role> {
    match p
    case PROTO_OWNER => Some(OWNER)
    case PROTO_ADMIN => Some(ADMIN)
    case PROTO_MEMBER => Some(MEMBER)
    case PROTO_UNSPECIFIED => None
  }

  function ToSessionResult(seen: Seen): Result<SessionData> {
    if seen.user.None? || seen.session.None? then Bad(UNSPECIFIED)
    else
      var user, session := seen.user.value, seen.session.value;
      Good(SessionData(user.id, user.email, session.id, session.expiresAt,
                       if session.companyId.Some? then session.companyId else user.defaultCompanyId,
                       if seen.currentRole.None? then None else RoleByProto(seen.currentRole.value)))
  }

  function ToMembers(members: seq<ProtoMember>): seq<Member> {
    seq(|members|, i requires 0 <= i < |members| => Member(members[i].userId, members[i].email, RoleByProto(members[i].role)))
  }

  function FailedSessionAndMembers(reason: Reason): SessionAndMembers {
    SessionAndMembers(Bad(reason), Bad(reason))
  }

  function FromGetSession(response: Response<SeenWithMembers>): SessionAndMembers {
    match response
    case Error(reason) => FailedSessionAndMembers(reason)
    case Unset => FailedSessionAndMembers(UNSPECIFIED)
    case Ok(value) =>
      match ToSessionResult(value.seen)
      case Bad(reason) => FailedSessionAndMembers(reason)
      case Good(data) =>
        SessionAndMembers(Good(data), Good(MemberList(if value.seen.currentRole.None? then None else data.companyId, ToMembers(value.members))))
  }

  function ToVerifyResult(reply: Reply<Seen>): Result<SessionData> {
    match reply
    case Answered(Error(reason)) => Bad(reason)
    case Answered(Ok(value)) => ToSessionResult(value)
    case _ => Bad(UNSPECIFIED)
  }

  function ToListMembersResult(reply: Reply<Listed>): Result<MemberList> {
    match reply
    case Answered(Error(reason)) => Bad(reason)
    case Answered(Ok(value)) => Good(MemberList(value.companyId, ToMembers(value.members)))
    case _ => Bad(UNSPECIFIED)
  }

  /** Whatever the server answers, and however it changes in between: a list that is returned is of the session's company. */
  function FromVerifyThenList(verify: Reply<Seen>, list: Reply<Listed>): (r: SessionAndMembers)
    ensures r.members.Good? ==> r.session.Good? && r.members.data.companyId == r.session.data.companyId
  {
    match ToVerifyResult(verify)
    case Bad(reason) => FailedSessionAndMembers(reason)
    case Good(data) =>
      var listed := ToListMembersResult(list);
      SessionAndMembers(Good(data), if listed.Good? && listed.data.companyId != data.companyId then Bad(UNSPECIFIED) else listed)
  }

  /** Only a server that does not implement GetSession is asked twice. */
  function LoadSession(token: Option<string>, get: Reply<SeenWithMembers>, verify: Reply<Seen>, list: Reply<Listed>): SessionAndMembers {
    if token.None? || token.value == "" then FailedSessionAndMembers(SESSION_NOT_FOUND)
    else
      match get
      case Answered(response) => FromGetSession(response)
      case Unimplemented => FromVerifyThenList(verify, list)
      case Unreachable => FailedSessionAndMembers(UNSPECIFIED)
  }

  // ----- agreement -----

  /** What a consumer gets from a server that implements GetSession. */
  ghost function OneCall(s: Server, token: string): SessionAndMembers {
    LoadSession(Some(token), Answered(GetSessionProgram(s, s.db, token)), Unreachable, Unreachable)
  }

  /** What a consumer gets from a server that does not. */
  ghost function TwoCalls(s: Server, token: string): SessionAndMembers {
    LoadSession(Some(token), Unimplemented, Answered(VerifySessionProgram(s, s.db, token)),
                Answered(ListCurrentCompanyMembersProgram(s, s.db, token)))
  }

  /** A current company, when there is one, has the caller among its members. */
  predicate CurrentIsOwn(s: Server, token: string) {
    match VerifySessionUser(s, token)
    case Rejected(_) => true
    case Verified(u, row, _) => row.current.Some? ==> (u, row.current.value) in s.db.members
  }

  /**
   * In an unchanged server the two ways give the same session and the same members exactly when there is
   * no token or the caller's current company, if set, is one of their own.
   */
  lemma PathsAgreeIff(s: Server, token: string)
    ensures OneCall(s, token) == TwoCalls(s, token) <==> token == "" || CurrentIsOwn(s, token)
  {
    match VerifySessionUser(s, token)
    case Rejected(_) =>
    case Verified(u, row, session) =>
      if row.current.Some? {
        MembersInOrderMembers(s.db, row.current.value, u);
      }
  }

  /** A user whose pointer names a company they are not a member of: one way lists nobody, the other fails. */
  lemma PathsCanDisagree()
    ensures var s := Server(EMPTY_DB.(users := map[1 := User(0, "ann@example.org", Some(2))]), map["t" := SessionRow(7, 1, 99, None)], map[]);
            && OneCall(s, "t").members == Good(MemberList(None, []))
            && TwoCalls(s, "t").members == Bad(UNSPECIFIED)
  {
    var s := Server(EMPTY_DB.(users := map[1 := User(0, "ann@example.org", Some(2))]), map["t" := SessionRow(7, 1, 99, None)], map[]);
    MembersInOrderMembers(s.db, 2, 1);
    assert VerifySessionUser(s, "t") == Verified(1, s.db.users[1], s.sessions["t"]);
    assert CurrentCompanyMembersOf(s.db, 1, s.db.users[1]) == None;
    assert ToMembers([]) == [];
  }

  /** With an exact current company, as every reachable database has, the two ways agree. */
  lemma PathsAgreeInEveryRun(run: seq<Action>, s: Server, token: string)
    requires Feasible(START, run) && TimelyRun(START, run) && s.db == Run(START, run).db
    ensures OneCall(s, token) == TwoCalls(s, token)
  {
    match VerifySessionUser(s, token)
    case Rejected(_) =>
      PathsAgreeIff(s, token);
    case Verified(u, _, _) =>
      CurrentCompanyIsExact(run, u);
      PathsAgreeIff(s, token);
  }

  /**
   * The one-call way reads the memberships after the user, so they may have changed. The members it
   * returns still belong to the session's company and include the caller, in the role the session
   * carries; or there are none, and no company is named.
   */
  lemma OneCallIsConsistent(s: Server, later: Db, token: string)
    ensures var r := FromGetSession(GetSessionProgram(s, later, token));
            && (r.session.Good? <==> r.members.Good?)
            && (r.members.Good? ==>
                  var session, list := r.session.data, r.members.data;
                  if list.companyId.None? then list.members == [] && session.role == None
                  else list.companyId == session.companyId && session.role.Some?
                       && exists i :: 0 <= i < |list.members| && list.members[i].userId == session.user && list.members[i].role == session.role)
  {
    match VerifySessionUser(s, token)
    case Rejected(_) =>
    case Verified(u, row, session) =>
      if row.current.Some? && CurrentCompanyMembersOf(later, u, row).Some? {
        var c, members := row.current.value, MembersInOrder(later, row.current.value);
        var i :| 0 <= i < |members| && members[i] == u;
        var list := FromGetSession(GetSessionProgram(s, later, token)).members.data;
        assert list.members[i].userId == u;
      }
  }

  // ----- what is shown -----

  /** Every member of the company once, with their own address and role, who joined first coming first. */
  ghost predicate ListsMembers(db: Db, c: CompanyId, ms: seq<Member>) {
    && (forall u :: (u, c) in db.members <==> exists i :: 0 <= i < |ms| && ms[i].userId == u)
    && (forall i, j :: 0 <= i < j < |ms| ==> ms[i].userId != ms[j].userId)
    && (forall i :: 0 <= i < |ms| ==> (ms[i].userId, c) in db.members && ms[i].role == Some(db.members[(ms[i].userId, c)].role))
    && (forall i :: 0 <= i < |ms| && ms[i].userId in db.users ==> ms[i].email == db.users[ms[i].userId].email)
    && (forall i, j :: 0 <= i < j < |ms| ==>
          var x, y := db.members[(ms[i].userId, c)], db.members[(ms[j].userId, c)];
          x.joinedAt < y.joinedAt || (x.joinedAt == y.joinedAt && x.id <= y.id))
  }

  lemma ListIsOfMembers(db: Db, c: CompanyId)
    ensures var order := MembersInOrder(db, c);
            ListsMembers(db, c, ToMembers(seq(|order|, i requires 0 <= i < |order| => ToProtoMember(db, c, order[i]))))
  {
    var order := MembersInOrder(db, c);
    MembersInOrderSorted(db, c);
    forall u: UserId ensures u in order <==> (u, c) in db.members {
      MembersInOrderMembers(db, c, u);
    }
    OrderIsListed(db, c, order);
  }

  lemma OrderIsListed(db: Db, c: CompanyId, order: seq<UserId>)
    requires NoDuplicates(order) && Sorted(order, OldestFirst(db, c)) && forall u :: u in order <==> (u, c) in db.members
    ensures ListsMembers(db, c, ToMembers(seq(|order|, i requires 0 <= i < |order| => ToProtoMember(db, c, order[i]))))
  {
    var ms := ToMembers(seq(|order|, i requires 0 <= i < |order| => ToProtoMember(db, c, order[i])));
    assert forall i :: 0 <= i < |ms| ==> ms[i].userId == order[i] && order[i] in order;
    forall u: UserId | (u, c) in db.members ensures exists i :: 0 <= i < |ms| && ms[i].userId == u {
      var i :| 0 <= i < |order| && order[i] == u;
      assert ms[i].userId == u;
    }
    forall i, j | 0 <= i < j < |ms| ensures ms[i].userId != ms[j].userId && OldestFirst(db, c)(ms[i].userId, ms[j].userId) {
    }
  }

  /** The token's session can be used: its user exists, and it was not cached before the user's last change. */
  predicate Usable(s: Server, token: string) {
    && token in s.sessions && s.sessions[token].user in s.db.users
    && (s.sessions[token].cachedRevision.None? || s.sessions[token].cachedRevision == Some(RevisionOf(s, s.sessions[token].user)))
  }

  /**
   * A usable session is shown as it is, with the company current for its user and the role the user has in
   * it, and the members of that company are listed; without a membership in it there is no role and no
   * list. Both ways show the same session.
   */
  lemma ShownAsItIs(s: Server, later: Db, token: string)
    requires Usable(s, token)
    ensures var session, u := s.sessions[token], s.sessions[token].user;
            var row := s.db.users[u];
            var role := if row.current.Some? && (u, row.current.value) in later.members then Some(later.members[(u, row.current.value)].role) else None;
            var shown := Good(SessionData(u, row.email, session.id, session.expiresAt, row.current, role));
            var one := FromGetSession(GetSessionProgram(s, later, token));
            && one.session == shown && ToVerifyResult(Answered(VerifySessionProgram(s, later, token))) == shown
            && one.members == ToListMembersResult(Answered(ListCurrentCompanyMembersProgram(s, later, token)))
            && one.members.Good?
            && (if role.None? then one.members.data == MemberList(None, [])
                else one.members.data.companyId == row.current && ListsMembers(later, row.current.value, one.members.data.members))
  {
    var u := s.sessions[token].user;
    var row := s.db.users[u];
    if row.current.Some? {
      MembersInOrderMembers(later, row.current.value, u);
      ListIsOfMembers(later, row.current.value);
    }
  }

  /** One that is not usable is refused both ways, for the reason that applies. */
  lemma RefusedOtherwise(s: Server, later: Db, token: string)
    requires !Usable(s, token)
    ensures var reason := if token !in s.sessions then SESSION_NOT_FOUND else if s.sessions[token].user !in s.db.users then USER_DELETED else REVISION_OUTDATED;
            && FromGetSession(GetSessionProgram(s, later, token)) == SessionAndMembers(Bad(reason), Bad(reason))
            && ToVerifyResult(Answered(VerifySessionProgram(s, later, token))) == Bad(reason)
            && ToListMembersResult(Answered(ListCurrentCompanyMembersProgram(s, later, token))) == Bad(reason)
  {
  }
}
