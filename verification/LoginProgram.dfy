/**
 * The login completion as it is written, call after call, over the in-memory store and the repository. Any
 * calls may fail, and between any two of them any number of other requests may make theirs, challenges may
 * be opened, enrolments may come and go and time may pass: all of it is a path of the state machine.
 */
module LoginProgram {
  import opened Prelude
  import opened SessionIndex
  import opened KvSpec
  import opened KvStores
  import opened AttemptBudget
  import opened MfaRows
  import opened OwnCodes
  import opened LoginChallenge

  datatype Completion = SignedInAs(user: UserId) | Refused(why: Outcome)

  // ----- src/mfa/totp/login-challenge.ts -----

  method PeekLoginChallenge(store: MemoryKvStore, id: ChallengeId, now: Millis, reach: Reach, ghost w: World)
    returns (broke: bool, challenge: Option<Challenge>)
    requires Alike(store.entries, w.store, now) && w.now == now
    modifies store
    ensures Alike(store.entries, w.store, now)
    ensures broke <==> !reach.Works?
    ensures !broke ==> challenge == ParseChallenge(ReplyTo(w, Get(ChallengeKey(id))).found)
  {
    if !reach.Works? {
      return true, None;
    }
    ghost var before := store.entries;
    assert Live(At(before, ChallengeKey(id)), now) == Live(At(w.store, ChallengeKey(id)), now);
    var raw := store.Get(ChallengeKey(id), now);
    assert Alike(store.entries, before, now);
    AlikeThrough(store.entries, before, w.store, now);
    return false, ParseChallenge(raw);
  }

  method SpendLoginChallengeAttempt(store: MemoryKvStore, id: ChallengeId, now: Millis, reach: Reach, ghost w: World)
    returns (spent: Spent)
    requires Alike(store.entries, w.store, now) && w.now == now
    modifies store
    ensures Alike(store.entries, Called(w, reach, Increment(id)), now)
    ensures spent == Judge(MFA_LOGIN_CHALLENGE, reach, ReplyTo(w, Increment(id)))
  {
    ghost var before := store.entries;
    assert Live(At(before, AttemptsKey(id)), now) == Live(At(w.store, AttemptsKey(id)), now);
    spent := Spend(store, MFA_LOGIN_CHALLENGE, AttemptsKey(id), now, reach);
    if reach.NeverArrives? {
      assert Alike(store.entries, before, now);
      AlikeThrough(store.entries, before, w.store, now);
    } else {
      AlikeAfterPut(before, store.entries, w.store, AttemptsKey(id), OnCell(Live(At(w.store, AttemptsKey(id)), now), now, Increment(id)).0, now);
    }
  }

  method ConsumeLoginChallenge(store: MemoryKvStore, id: ChallengeId, now: Millis, reach: Reach, ghost w: World)
    returns (broke: bool, raw: Option<Value>)
    requires Alike(store.entries, w.store, now) && w.now == now
    modifies store
    ensures Alike(store.entries, Called(w, reach, GetAndDelete(ChallengeKey(id))), now)
    ensures broke <==> !reach.Works?
    ensures !broke ==> raw == ReplyTo(w, GetAndDelete(ChallengeKey(id))).found
  {
    if reach.NeverArrives? {
      return true, None;
    }
    ghost var before := store.entries;
    assert Live(At(before, ChallengeKey(id)), now) == Live(At(w.store, ChallengeKey(id)), now);
    raw := store.GetAndDelete(ChallengeKey(id), now);
    AlikeAfterPut(before, store.entries, w.store, ChallengeKey(id), None, now);
    return reach.ReplyLost?, raw;
  }

  /** A deletion that fails is only reported. */
  method ExpireLoginChallenge(store: MemoryKvStore, id: ChallengeId, now: Millis, reach: Reach, ghost w: World)
    requires Alike(store.entries, w.store, now) && w.now == now
    modifies store
    ensures Alike(store.entries, Called(w, reach, Delete(ChallengeKey(id))), now)
  {
    ghost var before := store.entries;
    if !reach.NeverArrives? {
      store.Delete(ChallengeKey(id));
      AlikeAfterPut(before, store.entries, w.store, ChallengeKey(id), None, now);
    }
  }

  // ----- the service -----

  /** What the steps of the machine lead to from where it holds. */
  ghost predicate KeptBySteps(hotp: Hotp, reach: World -> bool) {
    forall w, s :: reach(w) && Enabled(hotp, w, s) ==> reach(Stepped(w, s))
  }

  /** What goes on besides: time, the other requests call by call, and every other use of store and tables. */
  datatype Command =
    | Pass(to: Millis)
    | OpenChallenge(id: ChallengeId, challenge: Challenge, reach: Reach)
    | Begin(r: RequestId, id: ChallengeId, input: Input)
    | Proceed(r: RequestId, ring: KeyRing, reach: Reach)
    | LandIncrement(id: ChallengeId)
    | LandDelete(id: ChallengeId)
    | EnrolUser(user: UserId, enrolment: EnrolmentId, secret: Sealed, added: seq<NewCode>)
    | ActivateUser(user: UserId, enrolment: EnrolmentId, timestep: int)
    | UnenrolUser(user: UserId)
    | ConsumeElsewhere(user: UserId, matched: Matched)

  /** What happens before a call, and how far the call gets. */
  datatype Slot = Slot(before: seq<Command>, reach: Reach)

  /** A slot for each call of a completion. */
  datatype Schedule = Schedule(peek: Slot, spend: Slot, find: Slot, compare: Slot, takeChallenge: Slot, takeFactor: Slot, issue: Slot, expire: Slot)

  /** Every call works, whatever goes on between them. */
  predicate AllWork(at: Schedule) {
    && at.peek.reach.Works? && at.spend.reach.Works? && at.find.reach.Works? && at.compare.reach.Works?
    && at.takeChallenge.reach.Works? && at.takeFactor.reach.Works? && at.issue.reach.Works?
  }

  /** And nothing does. */
  predicate Undisturbed(at: Schedule) {
    && AllWork(at) && at.expire.reach.Works?
    && at.peek.before == [] && at.spend.before == [] && at.find.before == [] && at.compare.before == []
    && at.takeChallenge.before == [] && at.takeFactor.before == [] && at.issue.before == [] && at.expire.before == []
  }

  // ----- the answer of an undisturbed completion -----

  /** The challenge is open, and this one. */
  predicate Alive(w: World, id: ChallengeId, c: Challenge) {
    id in w.signed && c.userId != "" && ValueOf(Live(ChallengeCell(w, id), w.now)) == Some(Login(c))
  }

  /** So many attempts have been counted on it. */
  predicate Attempted(w: World, id: ChallengeId, n: int) {
    match Live(CounterCell(w, id), w.now)
    case None => n == 0
    case Some(cell) => cell.value == Number(n) && n >= 0
  }

  predicate Gone(w: World, id: ChallengeId) {
    Live(ChallengeCell(w, id), w.now) == None
  }

  /** What an admitted attempt comes to; `last` says that it is the last one. */
  ghost predicate AdmittedAnswer(hotp: Hotp, w: World, w': World, id: ChallengeId, c: Challenge, last: bool, input: Input, ring: KeyRing, result: Completion) {
    if c.userId !in w.mfa.totp || !w.mfa.totp[c.userId].verified then result == Refused(ChallengeExpired)
    else
      && (RightCode(hotp, w.mfa, w.now, ring, c.userId, input) ==> result == SignedInAs(c.userId) && Gone(w', id))
      && (UsedCode(hotp, w.mfa, w.now, ring, c.userId, input) ==> result == Refused(InvalidCode) && Gone(w', id))
      && (WrongCode(hotp, w.mfa, w.now, ring, c.userId, input) ==>
            if last then result == Refused(ChallengeExpired) && Gone(w', id)
            else result == Refused(InvalidCode) && ChallengeCell(w', id) == ChallengeCell(w, id))
      && (CannotMatch(w.mfa, ring, c.userId, w.mfa.totp[c.userId], input) <==> result == Refused(Broke))
  }

  /** Five attempts are admitted, and whoever comes after them ends the challenge. */
  ghost predicate AnswerIs(hotp: Hotp, w: World, w': World, id: ChallengeId, c: Challenge, n: int, input: Input, ring: KeyRing, result: Completion) {
    if n >= 5 then result == Refused(ChallengeExpired) && Gone(w', id)
    else AdmittedAnswer(hotp, w, w', id, c, n == 4, input, ring, result)
  }

  /** Nothing that an answer depends on is different. */
  predicate SameSurroundings(w: World, w': World) {
    w'.now == w.now && w'.store == w.store && w'.mfa == w.mfa && w'.signed == w.signed
  }

  lemma SameAnswers(hotp: Hotp, a: World, b: World, w': World, id: ChallengeId, input: Input, ring: KeyRing, result: Completion)
    requires SameSurroundings(a, b)
    ensures forall c :: Alive(a, id, c) <==> Alive(b, id, c)
    ensures forall n :: Attempted(a, id, n) <==> Attempted(b, id, n)
    ensures forall c, n :: AnswerIs(hotp, a, w', id, c, n, input, ring, result) <==> AnswerIs(hotp, b, w', id, c, n, input, ring, result)
  {
  }

  lemma OnlyReads(w: World, s: Step)
    requires s.Arrive? || s.Peek?
    ensures SameSurroundings(w, Stepped(w, s))
  {
  }

  /** Counting leaves everything but the counter, and moves the request by what has been counted. */
  lemma SpendingCounts(w: World, r: RequestId, n: int)
    requires r in w.requests && w.requests[r].pc.Peeked? && Attempted(w, w.requests[r].id, n)
    ensures var q, w' := w.requests[r], Stepped(w, SpendAttempt(r, Works));
            && w'.now == w.now && w'.mfa == w.mfa && ChallengeCell(w', q.id) == ChallengeCell(w, q.id)
            && r in w'.requests && w'.requests[r].pc == if n >= 5 then Expiring else Pc.Spent(q.pc.challenge, 4 - n)
  {
    CallOnCounter(w, w.requests[r].id, Works, w.requests[r].id);
    SpendDecides(MFA_LOGIN_CHALLENGE, AttemptsKey(w.requests[r].id), CounterCell(w, w.requests[r].id), w.now, Works, n);
  }

  lemma SameAdmittedAnswer(hotp: Hotp, a: World, b: World, w': World, id: ChallengeId, c: Challenge, last: bool, input: Input, ring: KeyRing, result: Completion)
    requires a.now == b.now && a.mfa == b.mfa && ChallengeCell(a, id) == ChallengeCell(b, id)
    ensures AdmittedAnswer(hotp, a, w', id, c, last, input, ring, result) <==> AdmittedAnswer(hotp, b, w', id, c, last, input, ring, result)
  {
  }

  /** A request that has met, somewhere, a secret or a recovery code that does not decrypt. */
  ghost predicate MetUnreadable(w: World, r: RequestId, ring: KeyRing) {
    && r in w.requests && w.requests[r].pc.Found?
    && CannotMatch(w.mfa, ring, w.requests[r].pc.challenge.userId, w.requests[r].pc.row, w.requests[r].input)
  }

  predicate IsOf(c: Command, r: RequestId) {
    (c.Begin? || c.Proceed?) && c.r == r
  }

  predicate SameRequest(before: map<RequestId, Request>, after: map<RequestId, Request>, r: RequestId) {
    (r in after <==> r in before) && (r in before ==> after[r] == before[r])
  }

  /** What a request reports is where it stands; only the answer to an issued session can be lost. */
  predicate EndedAs(requests: map<RequestId, Request>, r: RequestId, result: Completion) {
    && r in requests
    && match result
       case SignedInAs(user) => requests[r].pc.SignedIn? && requests[r].pc.challenge.userId == user
       case Refused(why) => requests[r].pc == Ended(why) || (why == Broke && requests[r].pc.SignedIn?)
  }

  /** The ids of all codes there are have been issued. */
  lemma EnrolmentKeepsIds(w: World, user: UserId, enrolment: EnrolmentId, secret: Sealed, added: seq<NewCode>)
    requires w.mfa.codes.Keys <= w.codeIds.Keys
    ensures var w' := Stepped(w, Enrol(user, enrolment, secret, added));
            && w'.codeIds.Keys == w.codeIds.Keys + CodeIds(added) && w'.mfa.codes.Keys <= w'.codeIds.Keys
            && w'.enrolments.Keys == w.enrolments.Keys + {enrolment}
  {
    WithCodesKeys(w.mfa.codes, user, added);
  }

  /** One world of the machine, kept as a store, a repository and where each request stands. */
  class Service {
    const hotp: Hotp
    const store: MemoryKvStore
    const repo: MfaTotpRepository
    var now: Millis
    var requests: map<RequestId, Request>
    var signed: set<ChallengeId>
    var challengeIds: set<ChallengeId>
    var enrolments: set<EnrolmentId>
    var codeIds: set<CodeId>
    ghost const reach: World -> bool
    ghost var world: World

    /** The machine is in `world`, somewhere `reach` says it can be, and the service shows it. */
    ghost predicate Valid()
      reads this, store, repo
    {
      && KeptBySteps(hotp, reach) && reach(world)
      && now == world.now && requests == world.requests && signed == world.signed
      && challengeIds == world.challenges.Keys && enrolments == world.enrolments.Keys && codeIds == world.codeIds.Keys && world.mfa.codes.Keys <= codeIds
      && Alike(store.entries, world.store, now) && repo.Tables() == world.mfa
    }

    constructor (hotp: Hotp, ghost reach: World -> bool)
      requires KeptBySteps(hotp, reach) && reach(START)
      ensures Valid() && world == START && this.hotp == hotp && this.reach == reach && fresh(store) && fresh(repo)
    {
      this.hotp, this.reach, world := hotp, reach, START;
      store := new MemoryKvStore();
      repo := new MfaTotpRepository(MfaTables(map[], map[]));
      now, requests, signed, challengeIds, enrolments, codeIds := 0, map[], {}, {}, {}, {};
    }

    // ----- one request, call by call -----

    method Stop(r: RequestId, why: Outcome)
      requires r in requests
      modifies this`requests
      ensures requests == old(requests)[r := old(requests)[r].(pc := Ended(why))]
    {
      requests := requests[r := requests[r].(pc := Ended(why))];
    }

    /** The cookie carries the id under a signature. */
    method Arrive(r: RequestId, id: ChallengeId, input: Input) returns (stopped: bool)
      requires Valid() && r !in requests
      modifies this
      ensures Valid() && world == Stepped(old(world), Step.Arrive(r, id, input))
      ensures r in requests && requests == old(requests)[r := requests[r]]
      ensures StandsAt(requests, r, id, input, if stopped then Ended(ChallengeExpired) else Peeking)
    {
      stopped := id !in signed;
      requests := requests[r := Request(id, input, if stopped then Ended(ChallengeExpired) else Peeking, None)];
      world := Stepped(world, Step.Arrive(r, id, input));
    }

    method Break(r: RequestId)
      requires Valid() && r in requests && !requests[r].pc.SignedIn? && !requests[r].pc.Ended?
      modifies this
      ensures Valid() && world == Stepped(old(world), Step.Break(r))
      ensures r in requests && requests == old(requests)[r := requests[r]] && requests[r].pc == Ended(Broke)
    {
      Stop(r, Broke);
      world := Stepped(world, Step.Break(r));
    }

    method Peek(r: RequestId, reach: Reach) returns (challenge: Option<Challenge>)
      requires Valid() && r in requests && requests[r].pc.Peeking?
      modifies this, store
      ensures Valid() && world == Stepped(old(world), Step.Peek(r, reach))
      ensures r in requests && requests == old(requests)[r := requests[r]]
      ensures challenge.Some? ==> StandsAt(requests, r, old(requests[r].id), old(requests[r].input), Peeked(challenge.value))
      ensures challenge.None? ==> requests[r].pc == Ended(if reach.Works? then ChallengeExpired else Broke)
    {
      var broke;
      broke, challenge := PeekLoginChallenge(store, requests[r].id, now, reach, world);
      if broke {
        challenge := None;
        Stop(r, Broke);
      } else if challenge.None? {
        Stop(r, ChallengeExpired);
      } else {
        requests := requests[r := requests[r].(pc := Peeked(challenge.value))];
      }
      world := Stepped(world, Step.Peek(r, reach));
    }

    method SpendAttempt(r: RequestId, reach: Reach) returns (spent: Spent)
      requires Valid() && r in requests && requests[r].pc.Peeked?
      modifies this, store
      ensures Valid() && world == Stepped(old(world), Step.SpendAttempt(r, reach))
      ensures r in requests && requests == old(requests)[r := requests[r]]
      ensures StandsAt(requests, r, old(requests[r].id), old(requests[r].input),
                match spent
                case Admitted(left) => Pc.Spent(old(requests[r].pc.challenge), left)
                case Exhausted => Expiring
                case Unavailable => Ended(Locked))
    {
      var q := requests[r];
      spent := SpendLoginChallengeAttempt(store, q.id, now, reach, world);
      match spent {
        case Admitted(left) =>
          requests := requests[r := q.(pc := Pc.Spent(q.pc.challenge, left),
                                       admission := Some(Admission(now, MFA_LOGIN_CHALLENGE.maxAttempts - left)))];
        case Exhausted =>
          requests := requests[r := q.(pc := Expiring)];
        case Unavailable =>
          Stop(r, Locked);
      }
      world := Stepped(world, Step.SpendAttempt(r, reach));
    }

    /** The user must have the second factor enabled; the query may fail. */
    method FindRow(r: RequestId, reach: Reach) returns (row: Option<TotpRow>)
      requires Valid() && r in requests && requests[r].pc.Spent?
      modifies this
      ensures Valid() && world == Stepped(old(world), if reach.Works? then Step.FindRow(r) else Step.Break(r))
      ensures r in requests && requests == old(requests)[r := requests[r]]
      ensures row.Some? ==> StandsAt(requests, r, old(requests[r].id), old(requests[r].input),
                              Found(old(requests[r].pc.challenge), old(requests[r].pc.attemptsLeft), row.value))
      ensures row.None? ==> requests[r].pc == Ended(if reach.Works? then ChallengeExpired else Broke)
    {
      if !reach.Works? {
        Break(r);
        return None;
      }
      var q := requests[r];
      row := repo.FindMfaTotp(q.pc.challenge.userId);
      if row.None? || !row.value.verified {
        row := None;
        Stop(r, ChallengeExpired);
      } else {
        requests := requests[r := q.(pc := Found(q.pc.challenge, q.pc.attemptsLeft, row.value))];
      }
      world := Stepped(world, Step.FindRow(r));
    }

    /** Matching may fail to read, or to decrypt. */
    method Match(r: RequestId, ring: KeyRing, reach: Reach) returns (broke: bool, matched: Option<Matched>)
      requires Valid() && r in requests && requests[r].pc.Found?
      modifies this
      ensures Valid() && world == Stepped(old(world), if broke then Step.Break(r) else Step.Match(r, ring, matched))
      ensures var q := old(requests[r]);
              && (broke <==> !reach.Works? || CannotMatch(old(world).mfa, ring, q.pc.challenge.userId, q.pc.row, q.input))
              && (!broke ==> IsMatch(hotp, old(world).mfa, old(now), ring, q.pc.challenge.userId, q.pc.row, q.input, matched))
      ensures r in requests && requests == old(requests)[r := requests[r]]
      ensures StandsAt(requests, r, old(requests[r].id), old(requests[r].input),
                if broke then Ended(Broke)
                else if matched.Some? then Matching(old(requests[r].pc.challenge), matched.value)
                else if old(requests[r].pc.attemptsLeft) == 0 then Expiring
                else Ended(InvalidCode))
    {
      var q := requests[r];
      broke, matched := MatchOwnedCode(hotp, repo, ring, q.pc.challenge.userId, q.pc.row, q.input, now);
      broke := broke || !reach.Works?;
      if broke {
        Break(r);
        return;
      }
      if matched.Some? {
        requests := requests[r := q.(pc := Matching(q.pc.challenge, matched.value))];
      } else if q.pc.attemptsLeft == 0 {
        requests := requests[r := q.(pc := Expiring)];
      } else {
        Stop(r, InvalidCode);
      }
      world := Stepped(world, Step.Match(r, ring, matched));
    }

    method TakeChallenge(r: RequestId, reach: Reach) returns (taken: bool)
      requires Valid() && r in requests && requests[r].pc.Matching?
      modifies this, store
      ensures Valid() && world == Stepped(old(world), Step.TakeChallenge(r, reach))
      ensures r in requests && requests == old(requests)[r := requests[r]]
      ensures StandsAt(requests, r, old(requests[r].id), old(requests[r].input),
                if taken then ChallengeTaken(old(requests[r].pc.challenge), old(requests[r].pc.matched))
                else Ended(if reach.Works? then ChallengeExpired else Broke))
    {
      var q := requests[r];
      var broke, raw := ConsumeLoginChallenge(store, q.id, now, reach, world);
      taken := !broke && raw.Some?;
      if taken {
        requests := requests[r := q.(pc := ChallengeTaken(q.pc.challenge, q.pc.matched))];
      } else {
        Stop(r, if broke then Broke else ChallengeExpired);
      }
      world := Stepped(world, Step.TakeChallenge(r, reach));
    }

    method ConsumeFactor(r: RequestId) returns (taken: bool)
      requires Valid() && r in requests && requests[r].pc.ChallengeTaken?
      modifies this, repo
      ensures Valid() && world == Stepped(old(world), Step.TakeFactor(r))
      ensures r in requests && requests == old(requests)[r := requests[r]]
      ensures taken <==> Consumes(old(world).mfa, old(requests[r].pc.challenge.userId), old(requests[r].pc.matched))
      ensures requests[r].id == old(requests[r].id) && requests[r].input == old(requests[r].input)
      ensures if taken then requests[r].pc.FactorTaken? && requests[r].pc.challenge == old(requests[r].pc.challenge)
              else requests[r].pc == Ended(InvalidCode)
    {
      var q := requests[r];
      ghost var before := world.mfa;
      var factor := match q.pc.matched
        case Timestep(step) => TotpFactor(if q.pc.challenge.userId in repo.totp then repo.totp[q.pc.challenge.userId].enrolmentId else "", step)
        case CodeRowId(id) => CodeFactor(id);
      taken := ConsumeMatchedCode(repo, q.pc.challenge.userId, q.pc.matched);
      if taken {
        requests := requests[r := q.(pc := FactorTaken(q.pc.challenge, factor))];
      } else {
        Stop(r, InvalidCode);
      }
      world := Stepped(world, Step.TakeFactor(r));
    }

    /** The consumption may fail before it takes effect, or after: what has been consumed stays consumed. */
    method TakeFactor(r: RequestId, reach: Reach) returns (taken: bool)
      requires Valid() && r in requests && requests[r].pc.ChallengeTaken?
      modifies this, repo
      ensures Valid() && r in requests && requests == old(requests)[r := requests[r]]
      ensures requests[r].id == old(requests[r].id) && requests[r].input == old(requests[r].input)
      ensures reach.Works? ==> world == Stepped(old(world), Step.TakeFactor(r))
      ensures taken <==> reach.Works? && Consumes(old(repo.Tables()), old(requests[r].pc.challenge.userId), old(requests[r].pc.matched))
      ensures repo.Tables() == if reach.NeverArrives? then old(repo.Tables())
                               else Consumed(old(repo.Tables()), old(requests[r].pc.challenge.userId), old(requests[r].pc.matched))
      ensures if taken then requests[r].pc.FactorTaken? && requests[r].pc.challenge == old(requests[r].pc.challenge)
              else requests[r].pc == Ended(if reach.Works? then InvalidCode else Broke)
    {
      if reach.NeverArrives? || (reach.ReplyLost? && !Consumes(repo.Tables(), requests[r].pc.challenge.userId, requests[r].pc.matched)) {
        Break(r);
        return false;
      }
      taken := ConsumeFactor(r);
      if reach.ReplyLost? {
        Break(r);
        taken := false;
      }
    }

    /** A session that is issued stays so when the answer is lost. */
    method Issue(r: RequestId, reach: Reach) returns (signedIn: bool)
      requires Valid() && r in requests && requests[r].pc.FactorTaken?
      modifies this
      ensures Valid() && r in requests && requests == old(requests)[r := requests[r]]
      ensures world == Stepped(old(world), if reach.NeverArrives? then Step.Break(r) else Step.Issue(r))
      ensures signedIn == reach.Works?
      ensures EndedAs(requests, r, if signedIn then SignedInAs(old(requests[r].pc.challenge.userId)) else Refused(Broke))
    {
      if reach.NeverArrives? {
        Break(r);
        return false;
      }
      requests := requests[r := requests[r].(pc := SignedIn(requests[r].pc.challenge, requests[r].pc.factor))];
      world := Stepped(world, Step.Issue(r));
      return reach.Works?;
    }

    method Expire(r: RequestId, reach: Reach)
      requires Valid() && r in requests && requests[r].pc.Expiring?
      modifies this, store
      ensures Valid() && world == Stepped(old(world), Step.Expire(r, reach))
      ensures r in requests && requests == old(requests)[r := requests[r]] && requests[r].pc == Ended(ChallengeExpired)
    {
      ExpireLoginChallenge(store, requests[r].id, now, reach, world);
      Stop(r, ChallengeExpired);
      world := Stepped(world, Step.Expire(r, reach));
    }

    // ----- time, challenges and enrolments -----

    method Tick(to: Millis)
      requires Valid() && now <= to
      modifies this
      ensures Valid() && world == Stepped(old(world), Step.Tick(to)) && requests == old(requests)
    {
      AlikeLater(store.entries, world.store, now, to);
      now := to;
      world := Stepped(world, Step.Tick(to));
    }

    /** src/mfa/totp/login-challenge.ts: the cookie is signed after the challenge has been written. */
    method Open(id: ChallengeId, challenge: Challenge, reach: Reach)
      requires Valid() && id !in challengeIds
      modifies this, store
      ensures Valid() && world == Stepped(old(world), Step.Open(id, challenge, reach)) && requests == old(requests)
    {
      ghost var before := store.entries;
      if !reach.NeverArrives? {
        store.Set(ChallengeKey(id), Login(challenge), Some(CHALLENGE_TTL_SECONDS), now);
        AlikeAfterPut(before, store.entries, world.store, ChallengeKey(id), Some(store.entries[ChallengeKey(id)]), now);
        challengeIds := challengeIds + {id};
        if reach.Works? {
          signed := signed + {id};
        }
      }
      world := Stepped(world, Step.Open(id, challenge, reach));
    }

    /** A call that its caller has given up on takes effect. */
    method IncrementLate(id: ChallengeId)
      requires Valid() && id in challengeIds
      modifies this, store
      ensures Valid() && world == Stepped(old(world), LateIncrement(id)) && requests == old(requests)
    {
      var _ := SpendLoginChallengeAttempt(store, id, now, Works, world);
      world := Stepped(world, LateIncrement(id));
    }

    method DeleteLate(id: ChallengeId)
      requires Valid() && id in challengeIds
      modifies this, store
      ensures Valid() && world == Stepped(old(world), LateDelete(id)) && requests == old(requests)
    {
      ExpireLoginChallenge(store, id, now, Works, world);
      world := Stepped(world, LateDelete(id));
    }

    method InsertFresh(user: UserId, enrolment: EnrolmentId, secret: Sealed, added: seq<NewCode>)
      requires repo.Tables().codes.Keys <= codeIds && DistinctIds(added) && CodeIds(added) !! codeIds
      modifies repo
      ensures repo.Tables() == Enrolled(old(repo.Tables()), user, enrolment, secret, added)
    {
      assert forall c :: c in added ==> c.id in CodeIds(added);
      var _ := repo.InsertEnrollment(user, enrolment, secret, added);
    }

    method Enrol(user: UserId, enrolment: EnrolmentId, secret: Sealed, added: seq<NewCode>)
      requires Valid() && enrolment !in enrolments && DistinctIds(added) && CodeIds(added) !! codeIds
      modifies this, repo
      ensures Valid() && world == Stepped(old(world), Step.Enrol(user, enrolment, secret, added)) && requests == old(requests)
    {
      EnrolmentKeepsIds(world, user, enrolment, secret, added);
      InsertFresh(user, enrolment, secret, added);
      enrolments, codeIds := enrolments + {enrolment}, codeIds + CodeIds(added);
      world := Stepped(world, Step.Enrol(user, enrolment, secret, added));
    }

    method Activate(user: UserId, enrolment: EnrolmentId, timestep: int)
      requires Valid()
      modifies this, repo
      ensures Valid() && world == Stepped(old(world), Step.Activate(user, enrolment, timestep)) && requests == old(requests)
    {
      var _ := repo.ActivateMfaTotp(user, enrolment, timestep);
      world := Stepped(world, Step.Activate(user, enrolment, timestep));
    }

    method Unenrol(user: UserId)
      requires Valid()
      modifies this, repo
      ensures Valid() && world == Stepped(old(world), Step.Unenrol(user)) && requests == old(requests)
    {
      var _ := repo.DeleteEnrollment(user);
      world := Stepped(world, Step.Unenrol(user));
    }

    method TakeElsewhere(user: UserId, matched: Matched)
      requires Valid()
      modifies this, repo
      ensures Valid() && world == Stepped(old(world), TakeFactorElsewhere(user, matched)) && requests == old(requests)
    {
      var _ := ConsumeMatchedCode(repo, user, matched);
      world := Stepped(world, TakeFactorElsewhere(user, matched));
    }

    // ----- everything else that goes on -----

    /** The next call of a request, wherever it stands. */
    method Next(r: RequestId, ring: KeyRing, reach: Reach)
      requires Valid() && r in requests
      modifies this, store, repo
      ensures Valid() && r in requests && requests == old(requests)[r := requests[r]]
    {
      match requests[r].pc {
        case Peeking => var _ := Peek(r, reach);
        case Peeked(_) => var _ := SpendAttempt(r, reach);
        case Spent(_, _) => var _ := FindRow(r, reach);
        case Found(_, _, _) => var _, _ := Match(r, ring, reach);
        case Matching(_, _) => var _ := TakeChallenge(r, reach);
        case ChallengeTaken(_, _) => var _ := TakeFactor(r, reach);
        case FactorTaken(_, _) => var _ := Issue(r, reach);
        case Expiring => Expire(r, reach);
        case SignedIn(_, _) =>
        case Ended(_) =>
      }
    }

    /** Carries a command out, if it can be. */
    method Perform(c: Command)
      requires Valid()
      modifies this, store, repo
      ensures Valid() && forall r :: !IsOf(c, r) ==> SameRequest(old(requests), requests, r)
    {
      match c {
        case Begin(r, id, input) =>
          if r !in requests { var _ := Arrive(r, id, input); }
        case Proceed(r, ring, reach) =>
          if r in requests { Next(r, ring, reach); }
        case _ =>
          PerformElsewhere(c);
      }
    }

    method PerformElsewhere(c: Command)
      requires Valid() && !c.Begin? && !c.Proceed?
      modifies this, store, repo
      ensures Valid() && requests == old(requests)
    {
      match c {
        case Pass(to) =>
          if now <= to { Tick(to); }
        case OpenChallenge(id, challenge, reach) =>
          if id !in challengeIds { Open(id, challenge, reach); }
        case LandIncrement(id) =>
          if id in challengeIds { IncrementLate(id); }
        case LandDelete(id) =>
          if id in challengeIds { DeleteLate(id); }
        case EnrolUser(user, enrolment, secret, added) =>
          if enrolment !in enrolments && DistinctIds(added) && CodeIds(added) !! codeIds { Enrol(user, enrolment, secret, added); }
        case ActivateUser(user, enrolment, timestep) =>
          Activate(user, enrolment, timestep);
        case UnenrolUser(user) =>
          Unenrol(user);
        case ConsumeElsewhere(user, matched) =>
          TakeElsewhere(user, matched);
      }
    }

    /** Any number of commands, none of them about the request. */
    method Meanwhile(commands: seq<Command>, r: RequestId)
      requires Valid()
      modifies this, store, repo
      ensures Valid() && SameRequest(old(requests), requests, r)
      ensures commands == [] ==> world == old(world)
    {
      for i := 0 to |commands|
        invariant Valid() && SameRequest(old(requests), requests, r) && (i == 0 ==> world == old(world))
      {
        if !IsOf(commands[i], r) {
          Perform(commands[i]);
        }
      }
    }

    // ----- src/mfa/totp/complete-login-challenge.ts -----

    /**
     * The whole completion, for a request that begins with it. With nothing in between and every call working
     * the answer is decided by the challenge, the count and the code; whatever goes on in between, only a
     * failing call or something that does not decrypt breaks it.
     */
    method CompleteLoginChallenge(r: RequestId, id: ChallengeId, input: Input, ring: KeyRing, at: Schedule) returns (result: Completion)
      requires Valid() && r !in requests
      modifies this, store, repo
      ensures Valid() && EndedAs(requests, r, result)
      ensures Undisturbed(at) ==>
                && ((forall c :: !Alive(old(world), id, c)) ==> result == Refused(ChallengeExpired))
                && (forall c, n :: Alive(old(world), id, c) && Attempted(old(world), id, n) ==>
                      AnswerIs(hotp, old(world), world, id, c, n, input, ring, result))
      ensures AllWork(at) && result == Refused(Broke) ==> exists w :: reach(w) && MetUnreadable(w, r, ring)
    {
      ghost var before := world;
      var noCookie := Arrive(r, id, input);
      OnlyReads(before, Step.Arrive(r, id, input));
      ghost var arrived := world;
      if noCookie {
        return Refused(ChallengeExpired);
      }
      result := CompleteArrived(r, ring, at);
      SameAnswers(hotp, before, arrived, world, id, input, ring, result);
    }

    method CompleteArrived(r: RequestId, ring: KeyRing, at: Schedule) returns (result: Completion)
      requires Valid() && r in requests && requests[r].pc.Peeking? && requests[r].id in signed
      modifies this, store, repo
      ensures Valid() && EndedAs(requests, r, result)
      ensures var q := old(requests[r]);
              Undisturbed(at) ==>
                && ((forall c :: !Alive(old(world), q.id, c)) ==> result == Refused(ChallengeExpired))
                && (forall c, n :: Alive(old(world), q.id, c) && Attempted(old(world), q.id, n) ==>
                      AnswerIs(hotp, old(world), world, q.id, c, n, q.input, ring, result))
      ensures AllWork(at) && result == Refused(Broke) ==> exists w :: reach(w) && MetUnreadable(w, r, ring)
    {
      Meanwhile(at.peek.before, r);
      ghost var before, q := world, requests[r];
      var challenge := Peek(r, at.peek.reach);
      OnlyReads(before, Step.Peek(r, at.peek.reach));
      ghost var peeked := world;
      if challenge.None? {
        return Refused(if at.peek.reach.Works? then ChallengeExpired else Broke);
      }
      assert Undisturbed(at) ==> Alive(before, q.id, challenge.value);
      result := CompletePeeked(r, ring, at);
      SameAnswers(hotp, before, peeked, world, q.id, q.input, ring, result);
    }

    method CompletePeeked(r: RequestId, ring: KeyRing, at: Schedule) returns (result: Completion)
      requires Valid() && r in requests && requests[r].pc.Peeked?
      modifies this, store, repo
      ensures Valid() && EndedAs(requests, r, result)
      ensures var q := old(requests[r]);
              Undisturbed(at) && Alive(old(world), q.id, q.pc.challenge) ==>
                forall n :: Attempted(old(world), q.id, n) ==> AnswerIs(hotp, old(world), world, q.id, q.pc.challenge, n, q.input, ring, result)
      ensures AllWork(at) && result == Refused(Broke) ==> exists w :: reach(w) && MetUnreadable(w, r, ring)
    {
      Meanwhile(at.spend.before, r);
      ghost var before, q := world, requests[r];
      var spent := SpendAttempt(r, at.spend.reach);
      ghost var counted := world;
      forall n | at.spend.reach.Works? && Attempted(before, q.id, n)
        ensures counted.now == before.now && counted.mfa == before.mfa && ChallengeCell(counted, q.id) == ChallengeCell(before, q.id)
        ensures requests[r].pc == if n >= 5 then Expiring else Pc.Spent(q.pc.challenge, 4 - n)
      {
        SpendingCounts(before, r, n);
      }
      match spent {
        case Unavailable =>
          return Refused(Locked);
        case Exhausted =>
          result := GiveUp(r, at);
        case Admitted(_) =>
          result := CompleteAdmitted(r, ring, at);
          forall n | Undisturbed(at) && Alive(before, q.id, q.pc.challenge) && Attempted(before, q.id, n)
            ensures AnswerIs(hotp, before, world, q.id, q.pc.challenge, n, q.input, ring, result)
          {
            SameAdmittedAnswer(hotp, before, counted, world, q.id, q.pc.challenge, n == 4, q.input, ring, result);
          }
      }
    }

    method CompleteAdmitted(r: RequestId, ring: KeyRing, at: Schedule) returns (result: Completion)
      requires Valid() && r in requests && requests[r].pc.Spent?
      modifies this, store, repo
      ensures Valid() && EndedAs(requests, r, result)
      ensures var q := old(requests[r]);
              Undisturbed(at) && Live(ChallengeCell(old(world), q.id), old(now)).Some? ==>
                AdmittedAnswer(hotp, old(world), world, q.id, q.pc.challenge, q.pc.attemptsLeft == 0, q.input, ring, result)
      ensures AllWork(at) && result == Refused(Broke) ==> exists w :: reach(w) && MetUnreadable(w, r, ring)
    {
      Meanwhile(at.find.before, r);
      var row := FindRow(r, at.find.reach);
      if row.None? {
        return Refused(if at.find.reach.Works? then ChallengeExpired else Broke);
      }
      Meanwhile(at.compare.before, r);
      result := CompleteFound(r, ring, at);
    }

    method CompleteFound(r: RequestId, ring: KeyRing, at: Schedule) returns (result: Completion)
      requires Valid() && r in requests && requests[r].pc.Found?
      modifies this, store, repo
      ensures Valid() && EndedAs(requests, r, result)
      ensures var q := old(requests[r]);
              Undisturbed(at) && Live(ChallengeCell(old(world), q.id), old(now)).Some?
              && q.pc.challenge.userId in old(world).mfa.totp && old(world).mfa.totp[q.pc.challenge.userId] == q.pc.row && q.pc.row.verified ==>
                AdmittedAnswer(hotp, old(world), world, q.id, q.pc.challenge, q.pc.attemptsLeft == 0, q.input, ring, result)
      ensures AllWork(at) && result == Refused(Broke) ==> exists w :: reach(w) && MetUnreadable(w, r, ring)
    {
      ghost var before, q := world, requests[r];
      var broke, matched := Match(r, ring, at.compare.reach);
      if q.pc.challenge.userId in before.mfa.totp && before.mfa.totp[q.pc.challenge.userId] == q.pc.row && q.pc.row.verified && at.compare.reach.Works? {
        DecidedByTheCode(hotp, before.mfa, before.now, ring, q.pc.challenge.userId, q.input, broke, matched);
      }
      if broke {
        assert at.compare.reach.Works? ==> reach(before) && MetUnreadable(before, r, ring);
        return Refused(Broke);
      }
      if matched.Some? {
        result := CompleteMatched(r, at);
      } else if requests[r].pc.Expiring? {
        result := GiveUp(r, at);
      } else {
        return Refused(InvalidCode);
      }
    }

    method CompleteMatched(r: RequestId, at: Schedule) returns (result: Completion)
      requires Valid() && r in requests && requests[r].pc.Matching?
      modifies this, store, repo
      ensures Valid() && EndedAs(requests, r, result)
      ensures var q := old(requests[r]);
              Undisturbed(at) && Live(ChallengeCell(old(world), q.id), old(now)).Some? ==>
                && result == (if Consumes(old(world).mfa, q.pc.challenge.userId, q.pc.matched) then SignedInAs(q.pc.challenge.userId) else Refused(InvalidCode))
                && Gone(world, q.id)
      ensures AllWork(at) ==> result != Refused(Broke)
    {
      Meanwhile(at.takeChallenge.before, r);
      var taken := TakeChallenge(r, at.takeChallenge.reach);
      if !taken {
        return Refused(if at.takeChallenge.reach.Works? then ChallengeExpired else Broke);
      }
      result := CompleteTaken(r, at);
    }

    method CompleteTaken(r: RequestId, at: Schedule) returns (result: Completion)
      requires Valid() && r in requests && requests[r].pc.ChallengeTaken?
      modifies this, store, repo
      ensures Valid() && EndedAs(requests, r, result)
      ensures var q := old(requests[r]);
              Undisturbed(at) ==>
                && result == (if Consumes(old(world).mfa, q.pc.challenge.userId, q.pc.matched) then SignedInAs(q.pc.challenge.userId) else Refused(InvalidCode))
                && world.store == old(world).store && world.now == old(world).now
      ensures AllWork(at) ==> result != Refused(Broke)
    {
      Meanwhile(at.takeFactor.before, r);
      var consumed := TakeFactor(r, at.takeFactor.reach);
      if !consumed {
        return Refused(if at.takeFactor.reach.Works? then InvalidCode else Broke);
      }
      Meanwhile(at.issue.before, r);
      var user := requests[r].pc.challenge.userId;
      var signedIn := Issue(r, at.issue.reach);
      return if signedIn then SignedInAs(user) else Refused(Broke);
    }

    method GiveUp(r: RequestId, at: Schedule) returns (result: Completion)
      requires Valid() && r in requests && requests[r].pc.Expiring?
      modifies this, store, repo
      ensures Valid() && EndedAs(requests, r, result) && result == Refused(ChallengeExpired)
      ensures Undisturbed(at) ==> Gone(world, old(requests[r].id))
    {
      Meanwhile(at.expire.before, r);
      Expire(r, at.expire.reach);
      return Refused(ChallengeExpired);
    }
  }

  // ----- all of it is a path of the machine -----

  ghost predicate Reached(hotp: Hotp, w: World) {
    exists run :: Possible(hotp, run) && RunOf(run) == w
  }

  lemma ReachedIsKept(hotp: Hotp, w: World, s: Step)
    requires Reached(hotp, w) && Enabled(hotp, w, s)
    ensures Reached(hotp, Stepped(w, s))
  {
    var run :| Possible(hotp, run) && RunOf(run) == w;
    assert (run + [s])[..|run + [s]| - 1] == run;
    assert Possible(hotp, run + [s]) && RunOf(run + [s]) == Stepped(w, s);
  }

  /** Whatever has gone on before and goes on meanwhile, the completion ends where some run of the machine ends. */
  method FromTheStart(hotp: Hotp, before: seq<Command>, r: RequestId, id: ChallengeId, input: Input, ring: KeyRing, at: Schedule)
    returns (result: Completion, ghost run: seq<Step>)
    ensures Possible(hotp, run) && EndedAs(RunOf(run).requests, r, result)
  {
    ghost var reach := (w: World) => Reached(hotp, w);
    forall w, s | reach(w) && Enabled(hotp, w, s) ensures reach(Stepped(w, s)) {
      ReachedIsKept(hotp, w, s);
    }
    assert Possible(hotp, []) && RunOf([]) == START;
    var service := new Service(hotp, reach);
    service.Meanwhile(before, r);
    result := service.CompleteLoginChallenge(r, id, input, ring, at);
    run :| Possible(hotp, run) && RunOf(run) == service.world;
  }
}
