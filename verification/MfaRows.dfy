/** The second-factor tables (db/repositories/mfa-totp.ts) and the sealing of what they hold (src/mfa/totp/cipher.ts). */
module MfaRows {
  import opened Prelude
  import opened Sorting
  import opened StringOrder

  type UserId = string
  type EnrolmentId = string
  type CodeId = string
  type Secret = string

  // ----- authenticated encryption -----

  datatype KeyRing = KeyRing(currentVersion: nat, versions: set<nat>)

  /** A ciphertext, known only by what sealed it and what it seals. */
  datatype Sealed = Sealed(keyVersion: nat, aad: string, plain: string)

  function Encrypt(ring: KeyRing, plain: string, aad: string): Sealed {
    Sealed(ring.currentVersion, aad, plain)
  }

  /** Nothing when the key version is not in the ring, or the value was sealed for somebody else. */
  function Decrypt(ring: KeyRing, value: Sealed, aad: string): Option<string> {
    if value.keyVersion in ring.versions && value.aad == aad then Some(value.plain) else None
  }

  // ----- rows -----

  datatype TotpRow = TotpRow(enrolmentId: EnrolmentId, secret: Sealed, verified: bool, lastUsedTimestep: int)

  datatype CodeRow = CodeRow(userId: UserId, code: Sealed, used: bool)

  datatype MfaTables = MfaTables(totp: map<UserId, TotpRow>, codes: map<CodeId, CodeRow>)

  function IsUnusedCodeOf(t: MfaTables, user: UserId, id: CodeId): bool {
    id in t.codes && t.codes[id].userId == user && !t.codes[id].used
  }

  function UnusedCodesOf(t: MfaTables, user: UserId): set<CodeId> {
    set id | id in t.codes && IsUnusedCodeOf(t, user, id)
  }

  // ----- compare-and-set updates, each one statement -----

  predicate Activates(t: MfaTables, user: UserId, enrolment: EnrolmentId) {
    user in t.totp && t.totp[user].enrolmentId == enrolment && !t.totp[user].verified
  }

  function Activated(t: MfaTables, user: UserId, enrolment: EnrolmentId, timestep: int): MfaTables {
    if !Activates(t, user, enrolment) then t
    else t.(totp := t.totp[user := t.totp[user].(verified := true, lastUsedTimestep := timestep)])
  }

  predicate ConsumesTimestep(t: MfaTables, user: UserId, timestep: int) {
    user in t.totp && t.totp[user].verified && t.totp[user].lastUsedTimestep < timestep
  }

  function TimestepConsumed(t: MfaTables, user: UserId, timestep: int): MfaTables {
    if !ConsumesTimestep(t, user, timestep) then t
    else t.(totp := t.totp[user := t.totp[user].(lastUsedTimestep := timestep)])
  }

  function CodeConsumed(t: MfaTables, user: UserId, id: CodeId): MfaTables {
    if !IsUnusedCodeOf(t, user, id) then t
    else t.(codes := t.codes[id := t.codes[id].(used := true)])
  }

  // ----- enrolment and its end, each one transaction -----

  datatype NewCode = NewCode(id: CodeId, sealed: Sealed)

  function WithCodes(codes: map<CodeId, CodeRow>, user: UserId, added: seq<NewCode>): map<CodeId, CodeRow> {
    if added == [] then codes
    else WithCodes(codes, user, added[..|added| - 1])[added[|added| - 1].id := CodeRow(user, added[|added| - 1].sealed, false)]
  }

  predicate DistinctIds(added: seq<NewCode>) {
    forall i, j :: 0 <= i < j < |added| ==> added[i].id != added[j].id
  }

  function CodeIds(added: seq<NewCode>): set<CodeId> {
    set c | c in added :: c.id
  }

  lemma {:induction false} WithCodesKeys(codes: map<CodeId, CodeRow>, user: UserId, added: seq<NewCode>)
    ensures WithCodes(codes, user, added).Keys == codes.Keys + CodeIds(added)
  {
    if added != [] {
      var init, last := added[..|added| - 1], added[|added| - 1];
      WithCodesKeys(codes, user, init);
      assert forall c :: c in added <==> c in init || c == last;
      assert CodeIds(added) == CodeIds(init) + {last.id};
    }
  }

  /** An id holds what was added under it, or else what it held before. */
  lemma {:induction false} WithCodesAt(codes: map<CodeId, CodeRow>, user: UserId, added: seq<NewCode>, id: CodeId)
    requires id in WithCodes(codes, user, added)
    ensures if id in CodeIds(added) then exists c :: c in added && c.id == id && WithCodes(codes, user, added)[id] == CodeRow(user, c.sealed, false)
            else id in codes && WithCodes(codes, user, added)[id] == codes[id]
  {
    if added != [] {
      var init, last := added[..|added| - 1], added[|added| - 1];
      assert forall c :: c in added <==> c in init || c == last;
      if last.id == id {
        assert last in added;
      } else {
        WithCodesAt(codes, user, init, id);
        assert id in CodeIds(added) <==> id in CodeIds(init);
      }
    }
  }

  function Enrolled(t: MfaTables, user: UserId, enrolment: EnrolmentId, secret: Sealed, added: seq<NewCode>): MfaTables {
    if user in t.totp then t
    else MfaTables(t.totp[user := TotpRow(enrolment, secret, false, 0)], WithCodes(t.codes, user, added))
  }

  function Unenrolled(t: MfaTables, user: UserId): MfaTables {
    MfaTables(t.totp - {user}, map id | id in t.codes && t.codes[id].userId != user :: t.codes[id])
  }

  /** `ids` is what the query for a user's unused codes returns. */
  ghost predicate IsListing(t: MfaTables, user: UserId, ids: seq<CodeId>) {
    Enumerates(ids, UnusedCodesOf(t, user)) && Sorted(ids, ByUnits())
  }

  /** The repository, statement by statement. */
  class MfaTotpRepository {
    var totp: map<UserId, TotpRow>
    var codes: map<CodeId, CodeRow>

    function Tables(): MfaTables
      reads this
    {
      MfaTables(totp, codes)
    }

    constructor (t: MfaTables)
      ensures Tables() == t
    {
      totp, codes := t.totp, t.codes;
    }

    method FindMfaTotp(user: UserId) returns (row: Option<TotpRow>)
      ensures row == if user in Tables().totp then Some(Tables().totp[user]) else None
    {
      return if user in totp then Some(totp[user]) else None;
    }

    /** INSERT ... ON CONFLICT DO NOTHING. */
    method InsertMfaTotpEnrollment(user: UserId, enrolment: EnrolmentId, secret: Sealed) returns (inserted: bool)
      modifies this
      ensures inserted == (user !in old(Tables()).totp)
      ensures Tables() == Enrolled(old(Tables()), user, enrolment, secret, [])
    {
      if user in totp {
        return false;
      }
      totp := totp[user := TotpRow(enrolment, secret, false, 0)];
      return true;
    }

    /** The ids come fresh from the generator, so no primary key is hit. */
    method InsertRecoveryCodes(user: UserId, added: seq<NewCode>)
      requires DistinctIds(added) && forall c :: c in added ==> c.id !in codes
      modifies this
      ensures totp == old(totp) && codes == WithCodes(old(codes), user, added)
    {
      var i := 0;
      while i < |added|
        invariant 0 <= i <= |added| && totp == old(totp)
        invariant codes == WithCodes(old(codes), user, added[..i])
      {
        assert added[..i + 1][..i] == added[..i];
        codes := codes[added[i].id := CodeRow(user, added[i].sealed, false)];
        i := i + 1;
      }
      assert added[..|added|] == added;
    }

    /** The transaction of src/mfa/totp/enroll-mfa.ts: the codes go in only behind a row that went in. */
    method InsertEnrollment(user: UserId, enrolment: EnrolmentId, secret: Sealed, added: seq<NewCode>) returns (won: bool)
      requires DistinctIds(added) && forall c :: c in added ==> c.id !in codes
      modifies this
      ensures won == (user !in old(Tables()).totp)
      ensures Tables() == Enrolled(old(Tables()), user, enrolment, secret, added)
    {
      won := InsertMfaTotpEnrollment(user, enrolment, secret);
      if won {
        InsertRecoveryCodes(user, added);
      }
    }

    method ListUnusedRecoveryCodes(user: UserId) returns (ids: seq<CodeId>)
      ensures IsListing(Tables(), user, ids)
    {
      ids := [];
      var rest := codes.Keys;
      ghost var seen: set<CodeId> := {};
      while rest != {}
        invariant seen + rest == codes.Keys && seen !! rest && NoDuplicates(ids)
        invariant Elements(ids) == set id | id in seen && IsUnusedCodeOf(Tables(), user, id)
        decreases rest
      {
        var id :| id in rest;
        if codes[id].userId == user && !codes[id].used {
          assert id !in Elements(ids);
          PrependElements(id, ids);
          ids := [id] + ids;
        }
        seen, rest := seen + {id}, rest - {id};
      }
      ids := InOrder(ids);
    }

    method ActivateMfaTotp(user: UserId, enrolment: EnrolmentId, timestep: int) returns (won: bool)
      modifies this
      ensures won == Activates(old(Tables()), user, enrolment)
      ensures Tables() == Activated(old(Tables()), user, enrolment, timestep)
    {
      won := user in totp && totp[user].enrolmentId == enrolment && !totp[user].verified;
      if won {
        totp := totp[user := totp[user].(verified := true, lastUsedTimestep := timestep)];
      }
    }

    method ConsumeTotpTimestep(user: UserId, timestep: int) returns (consumed: bool)
      modifies this
      ensures consumed == ConsumesTimestep(old(Tables()), user, timestep)
      ensures Tables() == TimestepConsumed(old(Tables()), user, timestep)
    {
      consumed := user in totp && totp[user].verified && totp[user].lastUsedTimestep < timestep;
      if consumed {
        totp := totp[user := totp[user].(lastUsedTimestep := timestep)];
      }
    }

    method ConsumeRecoveryCode(user: UserId, id: CodeId) returns (consumed: bool)
      modifies this
      ensures consumed == IsUnusedCodeOf(old(Tables()), user, id)
      ensures Tables() == CodeConsumed(old(Tables()), user, id)
    {
      consumed := id in codes && codes[id].userId == user && !codes[id].used;
      if consumed {
        codes := codes[id := codes[id].(used := true)];
      }
    }

    /** Disabling the second factor: both deletions in one transaction. */
    method DeleteEnrollment(user: UserId) returns (rows: nat)
      modifies this
      ensures rows == if user in old(Tables()).totp then 1 else 0
      ensures Tables() == Unenrolled(old(Tables()), user)
    {
      rows := if user in totp then 1 else 0;
      totp := totp - {user};
      codes := map id | id in codes && codes[id].userId != user :: codes[id];
    }
  }
}
