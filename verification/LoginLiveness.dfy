/** The other side of the limits: with a living challenge, attempts left and a fresh code, a request can sign in. */
module LoginLiveness {
  import opened Prelude
  import opened SessionIndex
  import opened KvSpec
  import opened AttemptBudget
  import opened MfaRows
  import opened OwnCodes
  import opened LoginChallenge

  /** A challenge that is open, with an attempt left on it. */
  predicate Answerable(w: World, id: ChallengeId, c: Challenge) {
    && id in w.signed && c.userId != ""
    && ValueOf(Live(ChallengeCell(w, id), w.now)) == Some(Login(c))
    && WholeCountOf(Live(CounterCell(w, id), w.now)).Some?
    && 0 <= WholeCountOf(Live(CounterCell(w, id), w.now)).value < MFA_LOGIN_CHALLENGE.maxAttempts
  }

  /** A code of the user's enrolled secret, for a step later than the last one used. */
  ghost predicate FreshCode(hotp: Hotp, w: World, ring: KeyRing, user: UserId, code: string, step: int) {
    && user in w.mfa.totp && w.mfa.totp[user].verified && w.mfa.totp[user].lastUsedTimestep < step
    && Decrypt(ring, w.mfa.totp[user].secret, user).Some?
    && IsTotpMatch(hotp, Decrypt(ring, w.mfa.totp[user].secret, user).value, code, w.now, Some(step))
  }

  lemma Arriving(w: World, r: RequestId, id: ChallengeId, input: Input, c: Challenge)
    requires Answerable(w, id, c) && r !in w.requests
    ensures var w' := Stepped(w, Arrive(r, id, input));
            StandsAt(w'.requests, r, id, input, Peeking) && w'.store == w.store && w'.mfa == w.mfa && w'.now == w.now && w'.signed == w.signed
  {
  }

  lemma Looking(w: World, r: RequestId, id: ChallengeId, input: Input, c: Challenge)
    requires Answerable(w, id, c) && StandsAt(w.requests, r, id, input, Peeking)
    ensures var w' := Stepped(w, Peek(r, Works));
            StandsAt(w'.requests, r, id, input, Peeked(c)) && w'.store == w.store && w'.mfa == w.mfa && w'.now == w.now && w'.signed == w.signed
  {
  }

  lemma Spending(w: World, r: RequestId, id: ChallengeId, input: Input, c: Challenge) returns (left: int)
    requires Answerable(w, id, c) && StandsAt(w.requests, r, id, input, Peeked(c))
    ensures var w' := Stepped(w, SpendAttempt(r, Works));
            StandsAt(w'.requests, r, id, input, Spent(c, left)) && ChallengeCell(w', id) == ChallengeCell(w, id) && w'.mfa == w.mfa && w'.now == w.now
  {
    left := MFA_LOGIN_CHALLENGE.maxAttempts - (WholeCountOf(Live(CounterCell(w, id), w.now)).value + 1);
    CallOnCounter(w, id, Works, id);
  }

  lemma Finding(w: World, r: RequestId, id: ChallengeId, input: Input, c: Challenge, left: int)
    requires StandsAt(w.requests, r, id, input, Spent(c, left)) && c.userId in w.mfa.totp && w.mfa.totp[c.userId].verified
    ensures var w' := Stepped(w, FindRow(r));
            StandsAt(w'.requests, r, id, input, Found(c, left, w.mfa.totp[c.userId])) && w'.store == w.store && w'.mfa == w.mfa && w'.now == w.now
  {
  }

  lemma Matching(hotp: Hotp, w: World, r: RequestId, id: ChallengeId, code: string, c: Challenge, left: int, ring: KeyRing, step: int)
    requires FreshCode(hotp, w, ring, c.userId, code, step)
    requires StandsAt(w.requests, r, id, Input(TotpCode, code), Found(c, left, w.mfa.totp[c.userId]))
    ensures var s := Match(r, ring, Some(Timestep(step)));
            var w' := Stepped(w, s);
            && Enabled(hotp, w, s)
            && StandsAt(w'.requests, r, id, Input(TotpCode, code), Pc.Matching(c, Timestep(step))) && w'.store == w.store && w'.mfa == w.mfa && w'.now == w.now
  {
  }

  lemma Taking(w: World, r: RequestId, id: ChallengeId, input: Input, c: Challenge, m: Matched)
    requires StandsAt(w.requests, r, id, input, Pc.Matching(c, m)) && Live(ChallengeCell(w, id), w.now).Some?
    ensures var w' := Stepped(w, TakeChallenge(r, Works));
            StandsAt(w'.requests, r, id, input, ChallengeTaken(c, m)) && w'.mfa == w.mfa
  {
  }

  lemma Consuming(w: World, r: RequestId, id: ChallengeId, input: Input, c: Challenge, m: Matched)
    requires StandsAt(w.requests, r, id, input, ChallengeTaken(c, m)) && Consumes(w.mfa, c.userId, m)
    ensures StandsAt(Stepped(w, TakeFactor(r)).requests, r, id, input, FactorTaken(c, FactorOf(w.mfa, c.userId, m)))
  {
  }

  ghost function Go(hotp: Hotp, run: seq<Step>, s: Step): (longer: seq<Step>)
    requires Possible(hotp, run) && Enabled(hotp, RunOf(run), s)
    ensures run <= longer && Possible(hotp, longer) && RunOf(longer) == Stepped(RunOf(run), s)
  {
    assert (run + [s])[..|run + [s]| - 1] == run;
    run + [s]
  }

  lemma GetsSeen(hotp: Hotp, past: seq<Step>, r: RequestId, id: ChallengeId, input: Input, c: Challenge) returns (run: seq<Step>)
    requires Possible(hotp, past) && Answerable(RunOf(past), id, c) && r !in RunOf(past).requests
    ensures past <= run && Possible(hotp, run) && StandsAt(RunOf(run).requests, r, id, input, Peeked(c))
    ensures var w, w' := RunOf(past), RunOf(run); w'.store == w.store && w'.mfa == w.mfa && w'.now == w.now && w'.signed == w.signed
  {
    Arriving(RunOf(past), r, id, input, c);
    var arrived := Go(hotp, past, Arrive(r, id, input));
    Looking(RunOf(arrived), r, id, input, c);
    run := Go(hotp, arrived, Peek(r, Works));
  }

  /** Up to the row of the user: the attempt is admitted. */
  lemma GetsAdmitted(hotp: Hotp, past: seq<Step>, r: RequestId, id: ChallengeId, input: Input, c: Challenge)
    returns (run: seq<Step>, left: int)
    requires Possible(hotp, past) && Answerable(RunOf(past), id, c) && r !in RunOf(past).requests
    ensures past <= run && Possible(hotp, run) && StandsAt(RunOf(run).requests, r, id, input, Spent(c, left))
    ensures RunOf(run).mfa == RunOf(past).mfa && RunOf(run).now == RunOf(past).now
    ensures ChallengeCell(RunOf(run), id) == ChallengeCell(RunOf(past), id)
  {
    var looked := GetsSeen(hotp, past, r, id, input, c);
    left := Spending(RunOf(looked), r, id, input, c);
    run := Go(hotp, looked, SpendAttempt(r, Works));
  }

  lemma GetsIn(hotp: Hotp, past: seq<Step>, r: RequestId, id: ChallengeId, input: Input, c: Challenge, m: Matched) returns (run: seq<Step>)
    requires Possible(hotp, past) && StandsAt(RunOf(past).requests, r, id, input, Pc.Matching(c, m))
    requires Live(ChallengeCell(RunOf(past), id), RunOf(past).now).Some? && Consumes(RunOf(past).mfa, c.userId, m)
    ensures past <= run && Possible(hotp, run) && r in RunOf(run).requests
    ensures RunOf(run).requests[r].pc == SignedIn(c, FactorOf(RunOf(past).mfa, c.userId, m))
  {
    Taking(RunOf(past), r, id, input, c, m);
    var taken := Go(hotp, past, TakeChallenge(r, Works));
    Consuming(RunOf(taken), r, id, input, c, m);
    var consumed := Go(hotp, taken, TakeFactor(r));
    run := Go(hotp, consumed, Issue(r));
  }

  /** A request with the cookie of a living challenge with attempts left, and a fresh code, can sign its user in. */
  lemma FreshCodeSignsIn(hotp: Hotp, past: seq<Step>, r: RequestId, id: ChallengeId, c: Challenge, ring: KeyRing, code: string, step: int)
    returns (run: seq<Step>)
    requires Possible(hotp, past) && r !in RunOf(past).requests && Answerable(RunOf(past), id, c)
    requires FreshCode(hotp, RunOf(past), ring, c.userId, code, step)
    ensures past <= run && Possible(hotp, run) && r in RunOf(run).requests
    ensures RunOf(run).requests[r].pc == SignedIn(c, TotpFactor(RunOf(past).mfa.totp[c.userId].enrolmentId, step))
  {
    var admitted, left := GetsAdmitted(hotp, past, r, id, Input(TotpCode, code), c);
    Finding(RunOf(admitted), r, id, Input(TotpCode, code), c, left);
    var found := Go(hotp, admitted, FindRow(r));
    Matching(hotp, RunOf(found), r, id, code, c, left, ring, step);
    var matched := Go(hotp, found, Match(r, ring, Some(Timestep(step))));
    run := GetsIn(hotp, matched, r, id, Input(TotpCode, code), c, Timestep(step));
  }
}
