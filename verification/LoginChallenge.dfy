/**
 * The second-factor login protocol as a state machine: any number of requests completing any number of
 * login challenges, interleaved at every store and database call, with calls that fail, succeed without
 * an answer, or take effect after their caller gave up, while enrolments come and go.
 * Sources: src/mfa/totp/complete-login-challenge.ts, src/mfa/totp/login-challenge.ts, src/mfa/totp/verify-code.ts.
 */
module LoginChallenge {
  import opened Prelude
  import opened SessionIndex
  import opened KvSpec
  import opened AttemptBudget
  import opened MfaRows
  import opened OwnCodes

  type ChallengeId = string
  type RequestId = nat

  const CHALLENGE_TTL_SECONDS := MFA_LOGIN_CHALLENGE.windowSeconds
  const CHALLENGE_LIFE: int := CHALLENGE_TTL_SECONDS * 1000

  function ChallengeKey(id: ChallengeId): Key {
    "mfa:login-challenge:" + id
  }

  function AttemptsKey(id: ChallengeId): Key {
    "mfa:login-challenge-attempts:" + id
  }

  // ----- one request -----

  datatype Outcome = ChallengeExpired | Locked | InvalidCode | Broke

  /** Where a request stands: just before the next call it makes. */
  datatype Pc =
    | Peeking
    | Peeked(challenge: Challenge)
    | Spent(challenge: Challenge, attemptsLeft: int)
    | Found(challenge: Challenge, attemptsLeft: int, row: TotpRow)
    | Matching(challenge: Challenge, matched: Matched)
    | ChallengeTaken(challenge: Challenge, matched: Matched)
    | FactorTaken(challenge: Challenge, factor: Factor)
    | SignedIn(challenge: Challenge, factor: Factor)
    | Expiring
    | Ended(why: Outcome)

  /** When an attempt was admitted, and as which one. */
  datatype Admission = Admission(at: Millis, count: int)

  datatype Request = Request(id: ChallengeId, input: Input, pc: Pc, admission: Option<Admission>)

  // ----- the world -----

  datatype Opened = Opened(at: Millis, challenge: Challenge)

  datatype World = World(
    now: Millis,
    store: Table,
    mfa: MfaTables,
    challenges: map<ChallengeId, Opened>,
    signed: set<ChallengeId>,
    requests: map<RequestId, Request>,
    enrolments: map<EnrolmentId, UserId>,
    codeIds: map<CodeId, UserId>,
    consumed: map<Factor, Option<RequestId>>)

  const START := World(0, map[], MfaTables(map[], map[]), map[], {}, map[], map[], map[], map[])

  datatype Step =
    | Tick(to: Millis)
    | Open(id: ChallengeId, challenge: Challenge, reach: Reach)
    | Arrive(r: RequestId, id: ChallengeId, input: Input)
    | Peek(r: RequestId, reach: Reach)
    | SpendAttempt(r: RequestId, reach: Reach)
    | FindRow(r: RequestId)
    | Match(r: RequestId, ring: KeyRing, found: Option<Matched>)
    | TakeChallenge(r: RequestId, reach: Reach)
    | TakeFactor(r: RequestId)
    | Issue(r: RequestId)
    | Expire(r: RequestId, reach: Reach)
    | Break(r: RequestId)
    | LateIncrement(id: ChallengeId)
    | LateDelete(id: ChallengeId)
    | Enrol(user: UserId, enrolment: EnrolmentId, secret: Sealed, added: seq<NewCode>)
    | Activate(user: UserId, enrolment: EnrolmentId, timestep: int)
    | Unenrol(user: UserId)
    | TakeFactorElsewhere(user: UserId, matched: Matched)

  function ChallengeCell(w: World, id: ChallengeId): Option<Cell> {
    At(w.store, ChallengeKey(id))
  }

  function CounterCell(w: World, id: ChallengeId): Option<Cell> {
    At(w.store, AttemptsKey(id))
  }

  function Increment(id: ChallengeId): Operation {
    IncrementRateWindow(AttemptsKey(id), MFA_LOGIN_CHALLENGE.windowSeconds)
  }

  /** The store after a call, which takes effect unless it never arrives. */
  function Called(w: World, reach: Reach, op: Operation): Table {
    if reach.NeverArrives? then w.store else Exec(w.store, w.now, op).0
  }

  function ReplyTo(w: World, op: Operation): Reply {
    Exec(w.store, w.now, op).1
  }

  /** A challenge only counts when it parses: its user id must not be empty. */
  function ParseChallenge(v: Option<Value>): Option<Challenge> {
    match v
    case Some(Login(c)) => if c.userId == "" then None else Some(c)
    case _ => None
  }

  /** A request stands somewhere, about its challenge and with its input. */
  predicate StandsAt(requests: map<RequestId, Request>, r: RequestId, id: ChallengeId, input: Input, pc: Pc) {
    r in requests && requests[r].id == id && requests[r].input == input && requests[r].pc == pc
  }

  // ----- steps -----

  /** When a step can happen, whatever codes there are. */
  ghost predicate Applies(w: World, s: Step) {
    match s
    case Tick(to) => w.now <= to
    case Open(id, _, _) => id !in w.challenges
    case Arrive(r, _, _) => r !in w.requests
    case Peek(r, _) => r in w.requests && w.requests[r].pc.Peeking?
    case SpendAttempt(r, _) => r in w.requests && w.requests[r].pc.Peeked?
    case FindRow(r) => r in w.requests && w.requests[r].pc.Spent?
    case Match(r, _, _) => r in w.requests && w.requests[r].pc.Found?
    case TakeChallenge(r, _) => r in w.requests && w.requests[r].pc.Matching?
    case TakeFactor(r) => r in w.requests && w.requests[r].pc.ChallengeTaken?
    case Issue(r) => r in w.requests && w.requests[r].pc.FactorTaken?
    case Expire(r, _) => r in w.requests && w.requests[r].pc.Expiring?
    case Break(r) => r in w.requests && !w.requests[r].pc.SignedIn? && !w.requests[r].pc.Ended?
    case LateIncrement(id) => id in w.challenges
    case LateDelete(id) => id in w.challenges
    case Enrol(_, enrolment, _, added) =>
      enrolment !in w.enrolments && DistinctIds(added) && CodeIds(added) !! w.codeIds.Keys
    case Activate(_, _, _) => true
    case Unenrol(_) => true
    case TakeFactorElsewhere(_, _) => true
  }

  /** Only matching depends on the code. */
  ghost predicate Enabled(hotp: Hotp, w: World, s: Step) {
    && Applies(w, s)
    && (s.Match? ==>
          var q := w.requests[s.r];
          IsMatch(hotp, w.mfa, w.now, s.ring, q.pc.challenge.userId, q.pc.row, q.input, s.found))
  }

  // What a step does to the store: at most one call, about one challenge.

  function CallOf(w: World, s: Step): Option<(ChallengeId, Reach, Operation)> {
    match s
    case Open(id, c, reach) => Some((id, reach, Set(ChallengeKey(id), Login(c), Some(CHALLENGE_TTL_SECONDS))))
    case SpendAttempt(r, reach) =>
      if r in w.requests then Some((w.requests[r].id, reach, Increment(w.requests[r].id))) else None
    case TakeChallenge(r, reach) =>
      if r in w.requests then Some((w.requests[r].id, reach, GetAndDelete(ChallengeKey(w.requests[r].id)))) else None
    case Expire(r, reach) =>
      if r in w.requests then Some((w.requests[r].id, reach, Delete(ChallengeKey(w.requests[r].id)))) else None
    case LateIncrement(id) => Some((id, Works, Increment(id)))
    case LateDelete(id) => Some((id, Works, Delete(ChallengeKey(id))))
    case _ => None
  }

  function StoreAfter(w: World, s: Step): Table {
    match CallOf(w, s)
    case Some((_, reach, op)) => Called(w, reach, op)
    case None => w.store
  }

  // What a step does to the tables: a consumption, by a request or elsewhere, or a change of enrolment.

  function TakingOf(w: World, s: Step): Option<(UserId, Matched)> {
    match s
    case TakeFactor(r) =>
      if r in w.requests && w.requests[r].pc.ChallengeTaken?
      then Some((w.requests[r].pc.challenge.userId, w.requests[r].pc.matched)) else None
    case TakeFactorElsewhere(user, m) => Some((user, m))
    case _ => None
  }

  function TablesAfter(w: World, s: Step): MfaTables {
    match s
    case Enrol(user, enrolment, secret, added) => Enrolled(w.mfa, user, enrolment, secret, added)
    case Activate(user, enrolment, step) => Activated(w.mfa, user, enrolment, step)
    case Unenrol(user) => Unenrolled(w.mfa, user)
    case _ => match TakingOf(w, s) case Some((user, m)) => Consumed(w.mfa, user, m) case None => w.mfa
  }

  function ConsumedAfter(w: World, s: Step): map<Factor, Option<RequestId>> {
    match TakingOf(w, s)
    case Some((user, m)) =>
      if Consumes(w.mfa, user, m)
      then w.consumed[FactorOf(w.mfa, user, m) := if s.TakeFactor? then Some(s.r) else None] else w.consumed
    case None => w.consumed
  }

  // What a step does to the request that takes it.

  function AfterPeek(w: World, q: Request, reach: Reach): Pc {
    var reply := ReplyTo(w, Get(ChallengeKey(q.id)));
    if !reach.Works? || !reply.Read? then Ended(Broke)
    else if ParseChallenge(reply.found).None? then Ended(ChallengeExpired)
    else Peeked(ParseChallenge(reply.found).value)
  }

  function AfterSpend(w: World, q: Request, reach: Reach): Request
    requires q.pc.Peeked?
  {
    match Judge(MFA_LOGIN_CHALLENGE, reach, ReplyTo(w, Increment(q.id)))
    case Admitted(left) =>
      q.(pc := Spent(q.pc.challenge, left), admission := Some(Admission(w.now, MFA_LOGIN_CHALLENGE.maxAttempts - left)))
    case Exhausted => q.(pc := Expiring)
    case Unavailable => q.(pc := Ended(Locked))
  }

  function AfterFindingRow(w: World, q: Request): Pc
    requires q.pc.Spent?
  {
    var user := q.pc.challenge.userId;
    if user in w.mfa.totp && w.mfa.totp[user].verified then Found(q.pc.challenge, q.pc.attemptsLeft, w.mfa.totp[user])
    else Ended(ChallengeExpired)
  }

  function AfterMatch(q: Request, found: Option<Matched>): Pc
    requires q.pc.Found?
  {
    match found
    case Some(m) => Matching(q.pc.challenge, m)
    case None => if q.pc.attemptsLeft == 0 then Expiring else Ended(InvalidCode)
  }

  function AfterTakingChallenge(w: World, q: Request, reach: Reach): Pc
    requires q.pc.Matching?
  {
    var reply := ReplyTo(w, GetAndDelete(ChallengeKey(q.id)));
    if !reach.Works? || !reply.Read? then Ended(Broke)
    else if reply.found.None? then Ended(ChallengeExpired)
    else ChallengeTaken(q.pc.challenge, q.pc.matched)
  }

  function AfterTakingFactor(w: World, q: Request): Pc
    requires q.pc.ChallengeTaken?
  {
    var user := q.pc.challenge.userId;
    if Consumes(w.mfa, user, q.pc.matched) then FactorTaken(q.pc.challenge, FactorOf(w.mfa, user, q.pc.matched))
    else Ended(InvalidCode)
  }

  function Moved(w: World, q: Request, s: Step): Request {
    match s
    case Peek(_, reach) => q.(pc := AfterPeek(w, q, reach))
    case SpendAttempt(_, reach) => if q.pc.Peeked? then AfterSpend(w, q, reach) else q
    case FindRow(_) => if q.pc.Spent? then q.(pc := AfterFindingRow(w, q)) else q
    case Match(_, _, found) => if q.pc.Found? then q.(pc := AfterMatch(q, found)) else q
    case TakeChallenge(_, reach) => if q.pc.Matching? then q.(pc := AfterTakingChallenge(w, q, reach)) else q
    case TakeFactor(_) => if q.pc.ChallengeTaken? then q.(pc := AfterTakingFactor(w, q)) else q
    case Issue(_) => if q.pc.FactorTaken? then q.(pc := SignedIn(q.pc.challenge, q.pc.factor)) else q
    case Expire(_, _) => q.(pc := Ended(ChallengeExpired))
    case Break(_) => q.(pc := Ended(Broke))
    case _ => q
  }

  function ActorOf(s: Step): Option<RequestId> {
    match s
    case Arrive(r, _, _) => Some(r)
    case Peek(r, _) => Some(r)
    case SpendAttempt(r, _) => Some(r)
    case FindRow(r) => Some(r)
    case Match(r, _, _) => Some(r)
    case TakeChallenge(r, _) => Some(r)
    case TakeFactor(r) => Some(r)
    case Issue(r) => Some(r)
    case Expire(r, _) => Some(r)
    case Break(r) => Some(r)
    case _ => None
  }

  function RequestsAfter(w: World, s: Step): map<RequestId, Request> {
    match ActorOf(s)
    case None => w.requests
    case Some(r) =>
      if s.Arrive? then w.requests[r := Request(s.id, s.input, if s.id in w.signed then Peeking else Ended(ChallengeExpired), None)]
      else if r in w.requests then w.requests[r := Moved(w, w.requests[r], s)]
      else w.requests
  }

  predicate Opens(s: Step) {
    s.Open? && !s.reach.NeverArrives?
  }

  function Stepped(w: World, s: Step): World {
    World(
      if s.Tick? then s.to else w.now,
      StoreAfter(w, s),
      TablesAfter(w, s),
      if Opens(s) then w.challenges[s.id := Opened(w.now, s.challenge)] else w.challenges,
      if Opens(s) && s.reach.Works? then w.signed + {s.id} else w.signed,
      RequestsAfter(w, s),
      if s.Enrol? then w.enrolments[s.enrolment := s.user] else w.enrolments,
      if s.Enrol? then w.codeIds + map id | id in CodeIds(s.added) :: s.user else w.codeIds,
      ConsumedAfter(w, s))
  }

  // ----- runs -----

  function RunOf(steps: seq<Step>): World {
    if steps == [] then START else Stepped(RunOf(steps[..|steps| - 1]), steps[|steps| - 1])
  }

  ghost predicate Possible(hotp: Hotp, steps: seq<Step>) {
    steps == [] || (Possible(hotp, steps[..|steps| - 1]) && Enabled(hotp, RunOf(steps[..|steps| - 1]), steps[|steps| - 1]))
  }

  // ----- keys -----

  lemma KeysApart(id: ChallengeId, other: ChallengeId)
    ensures ChallengeKey(id) != AttemptsKey(other)
    ensures ChallengeKey(id) == ChallengeKey(other) ==> id == other
    ensures AttemptsKey(id) == AttemptsKey(other) ==> id == other
  {
    assert ChallengeKey(id)[19] == ':' && AttemptsKey(other)[19] == '-';
    assert ChallengeKey(id)[20..] == id && ChallengeKey(other)[20..] == other;
    assert AttemptsKey(id)[29..] == id && AttemptsKey(other)[29..] == other;
  }

  lemma CallOnChallenge(w: World, id: ChallengeId, reach: Reach, op: Operation, other: ChallengeId)
    requires op.key == ChallengeKey(id)
    ensures At(Called(w, reach, op), AttemptsKey(other)) == CounterCell(w, other)
    ensures other != id ==> At(Called(w, reach, op), ChallengeKey(other)) == ChallengeCell(w, other)
  {
    KeysApart(id, other);
  }

  lemma CallOnCounter(w: World, id: ChallengeId, reach: Reach, other: ChallengeId)
    ensures At(Called(w, reach, Increment(id)), ChallengeKey(other)) == ChallengeCell(w, other)
    ensures other != id ==> At(Called(w, reach, Increment(id)), AttemptsKey(other)) == CounterCell(w, other)
    ensures At(Called(w, reach, Increment(id)), AttemptsKey(id)) == AfterAttempt(MFA_LOGIN_CHALLENGE, CounterCell(w, id), w.now, reach)
  {
    KeysApart(id, other);
    KeysApart(other, id);
  }
}
