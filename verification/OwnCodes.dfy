/** Matching a second-factor code and consuming it (src/mfa/totp/verify-code.ts, src/mfa/totp/totp-engine.ts). */
module OwnCodes {
  import opened Prelude
  import opened Sorting
  import opened StringOrder
  import opened MfaRows

  /** HOTP of a secret at a time step, as digits. */
  type Hotp = (Secret, int) -> string

  const TOTP_PERIOD_SECONDS := 30
  const TOTP_DIGITS := 6
  const TOTP_WINDOW_STEPS := 1

  datatype CodeKind = TotpCode | RecoveryCode

  datatype Input = Input(kind: CodeKind, code: string)

  datatype Matched = Timestep(timestep: int) | CodeRowId(id: CodeId)

  /** What a consumption consumed: a time step of an enrolment, or a recovery-code row. */
  datatype Factor = TotpFactor(enrolment: EnrolmentId, timestep: int) | CodeFactor(id: CodeId)

  // ----- matching a code (reads only) -----

  predicate IsDigits(code: string) {
    |code| == TOTP_DIGITS && forall c :: c in code ==> '0' <= c <= '9'
  }

  function TotpCounter(now: int): int {
    now / (TOTP_PERIOD_SECONDS * 1000)
  }

  /** A step of the window whose HOTP is the code, or nothing when there is none. */
  ghost predicate IsTotpMatch(hotp: Hotp, secret: Secret, code: string, now: int, found: Option<int>) {
    match found
    case Some(step) =>
      IsDigits(code) && -TOTP_WINDOW_STEPS <= step - TotpCounter(now) <= TOTP_WINDOW_STEPS && hotp(secret, step) == code
    case None =>
      IsDigits(code) ==> forall step :: -TOTP_WINDOW_STEPS <= step - TotpCounter(now) <= TOTP_WINDOW_STEPS ==> hotp(secret, step) != code
  }

  /** The first unused code of the user, in id order, that decrypts to the input; or nothing. */
  ghost predicate IsRecoveryMatch(t: MfaTables, ring: KeyRing, user: UserId, code: string, found: Option<CodeId>) {
    match found
    case Some(id) =>
      && IsUnusedCodeOf(t, user, id) && Decrypt(ring, t.codes[id].code, user) == Some(code)
      && forall other :: IsUnusedCodeOf(t, user, other) && AtMost(other, id) && other != id ==>
           Decrypt(ring, t.codes[other].code, user).Some? && Decrypt(ring, t.codes[other].code, user) != Some(code)
    case None =>
      forall other :: IsUnusedCodeOf(t, user, other) ==>
        Decrypt(ring, t.codes[other].code, user).Some? && Decrypt(ring, t.codes[other].code, user) != Some(code)
  }

  ghost predicate IsMatch(hotp: Hotp, t: MfaTables, now: int, ring: KeyRing, user: UserId, row: TotpRow, input: Input, found: Option<Matched>) {
    match input.kind
    case TotpCode =>
      && (found.Some? ==> found.value.Timestep?)
      && Decrypt(ring, row.secret, user).Some?
      && IsTotpMatch(hotp, Decrypt(ring, row.secret, user).value, input.code, now,
                     if found.Some? then Some(found.value.timestep) else None)
    case RecoveryCode =>
      && (found.Some? ==> found.value.CodeRowId?)
      && IsRecoveryMatch(t, ring, user, input.code, if found.Some? then Some(found.value.id) else None)
  }

  /** The first code that does not decrypt, with no match before it. */
  ghost predicate IsUnreadable(t: MfaTables, ring: KeyRing, user: UserId, code: string, id: CodeId) {
    && IsUnusedCodeOf(t, user, id) && Decrypt(ring, t.codes[id].code, user).None?
    && forall other :: IsUnusedCodeOf(t, user, other) && AtMost(other, id) && other != id ==>
         Decrypt(ring, t.codes[other].code, user).Some? && Decrypt(ring, t.codes[other].code, user) != Some(code)
  }

  /** Matching fails: the secret does not decrypt, or a recovery code met before any match does not. */
  ghost predicate CannotMatch(t: MfaTables, ring: KeyRing, user: UserId, row: TotpRow, input: Input) {
    match input.kind
    case TotpCode => Decrypt(ring, row.secret, user).None?
    case RecoveryCode => exists id :: IsUnreadable(t, ring, user, input.code, id)
  }

  lemma MatchedOrUnreadable(t: MfaTables, ring: KeyRing, user: UserId, code: string, found: Option<CodeId>, id: CodeId)
    requires IsRecoveryMatch(t, ring, user, code, found)
    ensures !IsUnreadable(t, ring, user, code, id)
  {
    if IsUnreadable(t, ring, user, code, id) && found.Some? {
      AtMostTotal(id, found.value);
    }
  }

  // ----- right and wrong codes -----

  /** The window has a step whose HOTP is the code, six digits. */
  predicate OfStep(hotp: Hotp, secret: Secret, code: string, now: int, away: int) {
    -1 <= away <= 1 && hotp(secret, now / 30_000 + away) == code
  }

  predicate SixDigits(code: string) {
    |code| == 6 && forall i :: 0 <= i < 6 ==> '0' <= code[i] <= '9'
  }

  predicate IsCodeOfUser(t: MfaTables, user: UserId, id: CodeId) {
    id in t.codes && t.codes[id].userId == user && !t.codes[id].used
  }

  /**
   * A code to get in with: a TOTP code of steps in the window that are all later than the last one used, or
   * an unused recovery code; all that is read must decrypt.
   */
  ghost predicate RightCode(hotp: Hotp, t: MfaTables, now: int, ring: KeyRing, user: UserId, input: Input) {
    user in t.totp &&
    match input.kind
    case TotpCode =>
      var secret := Decrypt(ring, t.totp[user].secret, user);
      && secret.Some? && SixDigits(input.code)
      && (exists away :: OfStep(hotp, secret.value, input.code, now, away))
      && (forall away :: OfStep(hotp, secret.value, input.code, now, away) ==> now / 30_000 + away > t.totp[user].lastUsedTimestep)
    case RecoveryCode =>
      && (forall id :: IsCodeOfUser(t, user, id) ==> Decrypt(ring, t.codes[id].code, user).Some?)
      && exists id :: IsCodeOfUser(t, user, id) && Decrypt(ring, t.codes[id].code, user) == Some(input.code)
  }

  /** A code that matches nothing. */
  ghost predicate WrongCode(hotp: Hotp, t: MfaTables, now: int, ring: KeyRing, user: UserId, input: Input) {
    user in t.totp &&
    match input.kind
    case TotpCode =>
      var secret := Decrypt(ring, t.totp[user].secret, user);
      secret.Some? && (SixDigits(input.code) ==> forall away :: !OfStep(hotp, secret.value, input.code, now, away))
    case RecoveryCode =>
      forall id :: IsCodeOfUser(t, user, id) ==>
        Decrypt(ring, t.codes[id].code, user).Some? && Decrypt(ring, t.codes[id].code, user) != Some(input.code)
  }

  /** A TOTP code that has been used, or an older one. */
  ghost predicate UsedCode(hotp: Hotp, t: MfaTables, now: int, ring: KeyRing, user: UserId, input: Input) {
    && user in t.totp && input.kind.TotpCode? && SixDigits(input.code)
    && var secret := Decrypt(ring, t.totp[user].secret, user);
    && secret.Some?
    && (exists away :: OfStep(hotp, secret.value, input.code, now, away))
    && (forall away :: OfStep(hotp, secret.value, input.code, now, away) ==> now / 30_000 + away <= t.totp[user].lastUsedTimestep)
  }

  lemma StepIsMatch(hotp: Hotp, secret: Secret, code: string, now: int, found: Option<int>)
    requires IsTotpMatch(hotp, secret, code, now, found)
    ensures if found.Some? then SixDigits(code) && OfStep(hotp, secret, code, now, found.value - now / 30_000)
            else SixDigits(code) ==> forall away :: !OfStep(hotp, secret, code, now, away)
  {
    if found.Some? {
      assert forall i :: 0 <= i < |code| ==> code[i] in code;
    } else if SixDigits(code) {
      assert IsDigits(code);
      forall away ensures !OfStep(hotp, secret, code, now, away) {
        assert -1 <= away <= 1 ==> hotp(secret, TotpCounter(now) + away) != code;
      }
    }
  }

  /** A right code can be matched, and what it matches consumed; a wrong one matches nothing; a used one is not consumed again. */
  lemma CodesDecide(hotp: Hotp, t: MfaTables, now: int, ring: KeyRing, user: UserId, input: Input, found: Option<Matched>)
    requires user in t.totp && t.totp[user].verified && IsMatch(hotp, t, now, ring, user, t.totp[user], input, found)
    ensures RightCode(hotp, t, now, ring, user, input) ==> found.Some? && Consumes(t, user, found.value)
    ensures WrongCode(hotp, t, now, ring, user, input) ==> found.None?
    ensures UsedCode(hotp, t, now, ring, user, input) ==> found.Some? && !Consumes(t, user, found.value)
  {
    if input.kind.TotpCode? {
      StepIsMatch(hotp, Decrypt(ring, t.totp[user].secret, user).value, input.code, now, if found.Some? then Some(found.value.timestep) else None);
    } else {
      assert forall id :: IsCodeOfUser(t, user, id) <==> IsUnusedCodeOf(t, user, id);
    }
  }

  lemma RightCodesAreRead(hotp: Hotp, t: MfaTables, now: int, ring: KeyRing, user: UserId, input: Input)
    requires user in t.totp
    requires RightCode(hotp, t, now, ring, user, input) || WrongCode(hotp, t, now, ring, user, input) || UsedCode(hotp, t, now, ring, user, input)
    ensures !CannotMatch(t, ring, user, t.totp[user], input)
  {
    assert forall id :: IsCodeOfUser(t, user, id) <==> IsUnusedCodeOf(t, user, id);
  }

  /** What reading and matching come to for each kind of code. */
  lemma DecidedByTheCode(hotp: Hotp, t: MfaTables, now: int, ring: KeyRing, user: UserId, input: Input, broke: bool, found: Option<Matched>)
    requires user in t.totp && t.totp[user].verified && (broke <==> CannotMatch(t, ring, user, t.totp[user], input))
    requires !broke ==> IsMatch(hotp, t, now, ring, user, t.totp[user], input, found)
    ensures RightCode(hotp, t, now, ring, user, input) ==> !broke && found.Some? && Consumes(t, user, found.value)
    ensures WrongCode(hotp, t, now, ring, user, input) ==> !broke && found.None?
    ensures UsedCode(hotp, t, now, ring, user, input) ==> !broke && found.Some? && !Consumes(t, user, found.value)
  {
    if RightCode(hotp, t, now, ring, user, input) || WrongCode(hotp, t, now, ring, user, input) || UsedCode(hotp, t, now, ring, user, input) {
      RightCodesAreRead(hotp, t, now, ring, user, input);
    }
    if !broke {
      CodesDecide(hotp, t, now, ring, user, input, found);
    }
  }

  // ----- consuming a matched code -----

  predicate Consumes(t: MfaTables, user: UserId, m: Matched) {
    match m
    case Timestep(step) => ConsumesTimestep(t, user, step)
    case CodeRowId(id) => IsUnusedCodeOf(t, user, id)
  }

  function Consumed(t: MfaTables, user: UserId, m: Matched): MfaTables {
    match m
    case Timestep(step) => TimestepConsumed(t, user, step)
    case CodeRowId(id) => CodeConsumed(t, user, id)
  }

  function FactorOf(t: MfaTables, user: UserId, m: Matched): Factor
    requires Consumes(t, user, m)
  {
    match m
    case Timestep(step) => TotpFactor(t.totp[user].enrolmentId, step)
    case CodeRowId(id) => CodeFactor(id)
  }

  // ----- as the program does it -----

  method MatchTotpCode(hotp: Hotp, secret: Secret, code: string, now: int) returns (found: Option<int>)
    ensures IsTotpMatch(hotp, secret, code, now, found)
  {
    if !IsDigits(code) {
      return None;
    }
    var step := TotpCounter(now) - TOTP_WINDOW_STEPS;
    while step <= TotpCounter(now) + TOTP_WINDOW_STEPS
      invariant TotpCounter(now) - TOTP_WINDOW_STEPS <= step <= TotpCounter(now) + TOTP_WINDOW_STEPS + 1
      invariant forall earlier :: TotpCounter(now) - TOTP_WINDOW_STEPS <= earlier < step ==> hotp(secret, earlier) != code
    {
      if hotp(secret, step) == code {
        return Some(step);
      }
      step := step + 1;
    }
    return None;
  }

  /** The candidates in id order; one that does not decrypt breaks the request. */
  method MatchRecoveryCode(repo: MfaTotpRepository, ring: KeyRing, user: UserId, code: string)
    returns (broke: bool, found: Option<CodeId>)
    ensures if broke then exists id :: IsUnreadable(repo.Tables(), ring, user, code, id)
            else IsRecoveryMatch(repo.Tables(), ring, user, code, found)
  {
    var candidates := repo.ListUnusedRecoveryCodes(user);
    assert forall j :: 0 <= j < |candidates| ==> candidates[j] in Elements(candidates);
    var i := 0;
    while i < |candidates|
      invariant 0 <= i <= |candidates|
      invariant forall j :: 0 <= j < |candidates| ==> IsUnusedCodeOf(repo.Tables(), user, candidates[j])
      invariant forall j :: 0 <= j < i ==>
        var plain := Decrypt(ring, repo.codes[candidates[j]].code, user); plain.Some? && plain != Some(code)
    {
      var plain := Decrypt(ring, repo.codes[candidates[i]].code, user);
      if plain.None? {
        FirstOfListing(repo.Tables(), user, candidates, i);
        assert IsUnreadable(repo.Tables(), ring, user, code, candidates[i]);
        return true, None;
      }
      if plain.value == code {
        FirstOfListing(repo.Tables(), user, candidates, i);
        return false, Some(candidates[i]);
      }
      i := i + 1;
    }
    assert forall id :: IsUnusedCodeOf(repo.Tables(), user, id) ==> id in UnusedCodesOf(repo.Tables(), user);
    return false, None;
  }

  /** In a listing, what comes at or before an entry in id order stands at or before it. */
  lemma FirstOfListing(t: MfaTables, user: UserId, ids: seq<CodeId>, i: nat)
    requires IsListing(t, user, ids) && i < |ids|
    ensures forall other :: IsUnusedCodeOf(t, user, other) && AtMost(other, ids[i]) && other != ids[i] ==>
              exists j :: 0 <= j < i && ids[j] == other
  {
    forall other | IsUnusedCodeOf(t, user, other) && AtMost(other, ids[i]) && other != ids[i]
      ensures exists j :: 0 <= j < i && ids[j] == other
    {
      assert other in UnusedCodesOf(t, user);
      var j :| 0 <= j < |ids| && ids[j] == other;
      assert i < j ==> ByUnits()(ids[i], ids[j]);
      AtMostTotal(other, ids[i]);
    }
  }

  /** Breaks when the secret or a candidate does not decrypt. */
  method MatchOwnedCode(hotp: Hotp, repo: MfaTotpRepository, ring: KeyRing, user: UserId, row: TotpRow, input: Input, now: int)
    returns (broke: bool, found: Option<Matched>)
    ensures broke <==> CannotMatch(repo.Tables(), ring, user, row, input)
    ensures !broke ==> IsMatch(hotp, repo.Tables(), now, ring, user, row, input, found)
  {
    match input.kind {
      case TotpCode =>
        var secret := Decrypt(ring, row.secret, user);
        if secret.None? {
          return true, None;
        }
        var step := MatchTotpCode(hotp, secret.value, input.code, now);
        return false, if step.Some? then Some(Timestep(step.value)) else None;
      case RecoveryCode =>
        var failed, id := MatchRecoveryCode(repo, ring, user, input.code);
        if !failed {
          forall other ensures !IsUnreadable(repo.Tables(), ring, user, input.code, other) {
            MatchedOrUnreadable(repo.Tables(), ring, user, input.code, id, other);
          }
        }
        return failed, if id.Some? then Some(CodeRowId(id.value)) else None;
    }
  }

  method ConsumeMatchedCode(repo: MfaTotpRepository, user: UserId, m: Matched) returns (consumed: bool)
    modifies repo
    ensures consumed == Consumes(old(repo.Tables()), user, m)
    ensures repo.Tables() == Consumed(old(repo.Tables()), user, m)
  {
    match m {
      case Timestep(step) => consumed := repo.ConsumeTotpTimestep(user, step);
      case CodeRowId(id) => consumed := repo.ConsumeRecoveryCode(user, id);
    }
  }
}
