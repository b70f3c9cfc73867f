/** Disabling the second factor (src/mfa/totp/disable-mfa.ts) behind its attempt budget (src/mfa/disable-attempt-budget.ts). */
module DisableMfa {
  import opened Prelude
  import opened KvSpec
  import opened KvStores
  import opened AttemptBudget
  import opened MfaRows
  import opened OwnCodes

  datatype Outcome = Disabled | NotEnabled | Locked | InvalidCode | Unauthorized | Broke

  function DisableAttemptsKey(user: UserId): Key {
    "mfa:disable-attempts:" + user
  }

  /** Consuming a code of a user and then deleting the user's second factor is just the deletion. */
  lemma UnenrolForgetsConsumption(t: MfaTables, user: UserId, m: Matched)
    ensures Unenrolled(Consumed(t, user, m), user) == Unenrolled(t, user)
  {
    assert Unenrolled(Consumed(t, user, m), user).totp == Unenrolled(t, user).totp;
    assert Unenrolled(Consumed(t, user, m), user).codes == Unenrolled(t, user).codes;
  }

  /** A deletion that fails is only reported. */
  method ResetDisableAttempts(store: MemoryKvStore, user: UserId, reach: Reach)
    modifies store
    ensures store.entries == if reach.NeverArrives? then old(store.entries) else old(store.entries) - {DisableAttemptsKey(user)}
  {
    if !reach.NeverArrives? {
      store.Delete(DisableAttemptsKey(user));
    }
  }

  /**
   * The second factor goes away only for an admitted attempt with a code of the user's own that could
   * still be consumed; then all of it goes, and the counter starts over. Otherwise the tables stay as
   * they are and the attempt stays counted. An admitted attempt with a right code does disable it.
   */
  method Disable(hotp: Hotp, store: MemoryKvStore, repo: MfaTotpRepository, ring: KeyRing, user: UserId, input: Input, revoked: bool,
                 now: Millis, spend: Reach, reset: Reach)
    returns (outcome: Outcome, ghost m: Option<Matched>)
    modifies store, repo
    ensures var counter := At(old(store.entries), DisableAttemptsKey(user));
            var judged := Judge(MFA_DISABLE_PER_USER, spend, OnCell(Live(counter, now), now, IncrementRateWindow(DisableAttemptsKey(user), MFA_DISABLE_PER_USER.windowSeconds)).1);
            && (outcome.Disabled? ==>
                  && judged.Admitted? && m.Some? && Consumes(old(repo.Tables()), user, m.value)
                  && user in old(repo.Tables()).totp && old(repo.Tables()).totp[user].verified
                  && IsMatch(hotp, old(repo.Tables()), now, ring, user, old(repo.Tables()).totp[user], input, m)
                  && repo.Tables() == Unenrolled(old(repo.Tables()), user)
                  && (!reset.NeverArrives? ==> At(store.entries, DisableAttemptsKey(user)) == None))
            && (!outcome.Disabled? ==> repo.Tables() == old(repo.Tables()))
            && (outcome.Locked? <==> !outcome.NotEnabled? && !judged.Admitted?)
            && (!outcome.Disabled? && !outcome.NotEnabled? ==>
                  Live(At(store.entries, DisableAttemptsKey(user)), now) == Live(AfterAttempt(MFA_DISABLE_PER_USER, counter, now, spend), now))
            && (outcome.NotEnabled? <==> !(user in old(repo.Tables()).totp && old(repo.Tables()).totp[user].verified))
            && (judged.Admitted? && !outcome.NotEnabled? ==>
                  && (RightCode(hotp, old(repo.Tables()), now, ring, user, input) ==> outcome == if revoked then Disabled else Unauthorized)
                  && (UsedCode(hotp, old(repo.Tables()), now, ring, user, input) ==> outcome == if revoked then InvalidCode else Unauthorized)
                  && (WrongCode(hotp, old(repo.Tables()), now, ring, user, input) ==> outcome == InvalidCode)
                  && (outcome.Broke? <==> CannotMatch(old(repo.Tables()), ring, user, old(repo.Tables()).totp[user], input)))
    ensures forall l :: l != DisableAttemptsKey(user) ==> At(store.entries, l) == At(old(store.entries), l)
  {
    m := None;
    var row := repo.FindMfaTotp(user);
    if row.None? || !row.value.verified {
      return NotEnabled, m;
    }
    var spent := Spend(store, MFA_DISABLE_PER_USER, DisableAttemptsKey(user), now, spend);
    if !spent.Admitted? {
      return Locked, m;
    }
    var broke, matched := MatchOwnedCode(hotp, repo, ring, user, row.value, input, now);
    DecidedByTheCode(hotp, repo.Tables(), now, ring, user, input, broke, matched);
    if broke {
      return Broke, m;
    }
    if matched.None? {
      return InvalidCode, m;
    }
    if !revoked {
      return Unauthorized, m;
    }
    var consumed := ConsumeMatchedCode(repo, user, matched.value);
    if !consumed {
      return InvalidCode, m;
    }
    UnenrolForgetsConsumption(old(repo.Tables()), user, matched.value);
    ResetDisableAttempts(store, user, reset);
    var rows := repo.DeleteEnrollment(user);
    return Disabled, matched;
  }

  /** Within any fifteen minutes at most five guesses are admitted, and five more after each reset. */
  lemma GuessesPerQuarterHour(past: seq<Act>, stretch: seq<Act>, from: Millis)
    requires Orderly(past + stretch)
    requires forall i :: 0 <= i < |past| ==> past[i].now <= from
    requires forall i :: 0 <= i < |stretch| ==> from <= stretch[i].now < from + 15 * 60 * 1000
    ensures AdmittedIn(MFA_DISABLE_PER_USER, CellAfter(MFA_DISABLE_PER_USER, None, past), stretch) <= 5 * (1 + ResetsIn(stretch))
  {
    RateBound(MFA_DISABLE_PER_USER, past, stretch, from, 15 * 60 * 1000);
    assert Windows(Window(MFA_DISABLE_PER_USER), 15 * 60 * 1000) == 1;
  }
}
