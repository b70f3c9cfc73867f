/**
 * Enrolling a second factor and activating it, as calls that interleave at every read and every write.
 * Sources: src/mfa/totp/enroll-mfa.ts, src/mfa/totp/activate-mfa.ts, db/repositories/mfa-totp.ts.
 */
module Enrolment {
  import opened Prelude
  import opened Sorting
  import opened StringOrder
  import opened MfaRows
  import opened OwnCodes

  type CallId = nat

  /** What an enrolment call hands to the user. */
  datatype Setup = Setup(enrolmentId: EnrolmentId, secret: Secret, codes: seq<string>)

  datatype Why = AlreadyEnabled | NotFound | EnrollmentChanged | WrongCode | NothingLeft | NotEnabled | Broken

  datatype Pc =
    | Finding
    | Inserting
    | FindingWinner
    | Replaying(row: TotpRow)
    | Returned(setup: Setup)
    | Asked(enrolmentId: EnrolmentId, code: string)
    | Deciding(row: TotpRow, code: string)
    | Activating(enrolmentId: EnrolmentId, timestep: int)
    | Activated(enrolmentId: EnrolmentId)
    | Checking(input: Input)
    | Checked(input: Input, row: TotpRow)
    | Consuming(matched: Matched)
    | Done
    | Ended(why: Why)

  datatype Call = Call(user: UserId, pc: Pc)

  // ----- recovery codes and their ids -----

  const RECOVERY_CODES: nat := 10

  function Digit(d: nat): char
    requires d < 10
  {
    '0' + d as char
  }

  /** The index in two digits, a dash, and a random part. */
  function RecoveryCodeId(index: nat, random: string): CodeId
    requires index < 100
  {
    [Digit(index / 10), Digit(index % 10), '-'] + random
  }

  /** Ids sort by index, whatever the random parts. */
  lemma IdsSortByIndex(i: nat, x: string, j: nat, y: string)
    requires i < j < 100
    ensures AtMost(RecoveryCodeId(i, x), RecoveryCodeId(j, y)) && RecoveryCodeId(i, x) != RecoveryCodeId(j, y)
  {
    var a, b := RecoveryCodeId(i, x), RecoveryCodeId(j, y);
    assert a[0] == Digit(i / 10) && b[0] == Digit(j / 10) && a[1] == Digit(i % 10) && b[1] == Digit(j % 10);
    assert i / 10 < j / 10 || (i / 10 == j / 10 && i % 10 < j % 10);
    assert a[1..][0] == a[1] && b[1..][0] == b[1];
  }

  /** What an enrolment call draws at random before it inserts. */
  datatype Draft = Draft(setup: Setup, randoms: seq<string>)

  ghost predicate IsDraft(d: Draft) {
    |d.setup.codes| == RECOVERY_CODES && |d.randoms| == RECOVERY_CODES
  }

  function DraftIds(d: Draft): seq<CodeId>
    requires |d.randoms| == RECOVERY_CODES
  {
    seq(RECOVERY_CODES, i requires 0 <= i < RECOVERY_CODES => RecoveryCodeId(i, d.randoms[i]))
  }

  function SealedCodes(ring: KeyRing, user: UserId, d: Draft): seq<NewCode>
    requires |d.setup.codes| == RECOVERY_CODES && |d.randoms| == RECOVERY_CODES
  {
    seq(RECOVERY_CODES, i requires 0 <= i < RECOVERY_CODES =>
      NewCode(RecoveryCodeId(i, d.randoms[i]), Encrypt(ring, d.setup.codes[i], user)))
  }

  lemma DraftIdsAreSorted(d: Draft)
    requires |d.randoms| == RECOVERY_CODES
    ensures Sorted(DraftIds(d), ByUnits()) && NoDuplicates(DraftIds(d))
  {
    forall i, j | 0 <= i < j < RECOVERY_CODES
      ensures ByUnits()(DraftIds(d)[i], DraftIds(d)[j]) && DraftIds(d)[i] != DraftIds(d)[j]
    {
      IdsSortByIndex(i, d.randoms[i], j, d.randoms[j]);
    }
  }

  // ----- the world -----

  /** An enrolment that won the insertion: what it told its user, and the ids its codes are stored under. */
  datatype Settlement = Settlement(setup: Setup, ids: seq<CodeId>)

  datatype World = World(
    mfa: MfaTables,
    calls: map<CallId, Call>,
    issued: map<EnrolmentId, UserId>,
    issuedCodes: set<CodeId>,
    settled: map<UserId, Settlement>,
    stale: set<CallId>,
    winners: map<EnrolmentId, CallId>,
    spent: map<EnrolmentId, seq<int>>)

  const START := World(MfaTables(map[], map[]), map[], map[], {}, map[], {}, map[], map[])

  datatype Step =
    | Enrol(c: CallId, user: UserId)
    | Find(c: CallId)
    | Insert(c: CallId, ring: KeyRing, draft: Draft)
    | FindWinner(c: CallId)
    | Replay(c: CallId, ring: KeyRing, listing: seq<CodeId>)
    | Activate(c: CallId, user: UserId, enrolmentId: EnrolmentId, code: string)
    | FindPending(c: CallId)
    | Match(c: CallId, ring: KeyRing, now: int, found: Option<int>)
    | Win(c: CallId)
    | Use(c: CallId, user: UserId, input: Input)
    | CheckEnabled(c: CallId)
    | MatchOwn(c: CallId, ring: KeyRing, now: int, matched: Matched)
    | Consume(c: CallId)
    | Break(c: CallId)
    | Unenrol(user: UserId)

  // ----- what a step does to the call that takes it -----

  function FoundRow(t: MfaTables, user: UserId, otherwise: Pc): Pc {
    if user in t.totp then Replaying(t.totp[user]) else otherwise
  }

  predicate WinsInsertion(w: World, s: Step) {
    s.Insert? && s.c in w.calls && w.calls[s.c].pc.Inserting? && w.calls[s.c].user !in w.mfa.totp
  }

  /** The secret and the unused codes, decrypted, in the order of the listing. */
  function Replayed(t: MfaTables, ring: KeyRing, user: UserId, row: TotpRow, listing: seq<CodeId>): Option<Setup> {
    if Decrypt(ring, row.secret, user).None? || exists id :: id in listing && (id !in t.codes || Decrypt(ring, t.codes[id].code, user).None?) then None
    else Some(Setup(row.enrolmentId, Decrypt(ring, row.secret, user).value,
                    seq(|listing|, i requires 0 <= i < |listing| => Decrypt(ring, t.codes[listing[i]].code, user).value)))
  }

  function AfterReplay(t: MfaTables, ring: KeyRing, user: UserId, row: TotpRow, listing: seq<CodeId>): Pc {
    if row.verified then Ended(AlreadyEnabled)
    else match Replayed(t, ring, user, row, listing) case Some(setup) => Returned(setup) case None => Ended(Broken)
  }

  function AfterFindingPending(t: MfaTables, user: UserId, enrolmentId: EnrolmentId, code: string): Pc {
    if user !in t.totp then Ended(NotFound)
    else if t.totp[user].verified then Ended(AlreadyEnabled)
    else if enrolmentId != t.totp[user].enrolmentId then Ended(EnrollmentChanged)
    else Deciding(t.totp[user], code)
  }

  function PcAfter(w: World, q: Call, s: Step): Pc {
    match s
    case Find(_) => FoundRow(w.mfa, q.user, Inserting)
    case Insert(_, _, draft) => if q.user in w.mfa.totp then FindingWinner else Returned(draft.setup)
    case FindWinner(_) => FoundRow(w.mfa, q.user, Ended(NothingLeft))
    case Replay(_, ring, listing) => if q.pc.Replaying? then AfterReplay(w.mfa, ring, q.user, q.pc.row, listing) else q.pc
    case FindPending(_) => if q.pc.Asked? then AfterFindingPending(w.mfa, q.user, q.pc.enrolmentId, q.pc.code) else q.pc
    case Match(_, _, _, found) =>
      if !q.pc.Deciding? then q.pc
      else if found.Some? then Activating(q.pc.row.enrolmentId, found.value) else Ended(WrongCode)
    case Win(_) =>
      if !q.pc.Activating? then q.pc
      else if Activates(w.mfa, q.user, q.pc.enrolmentId) then Activated(q.pc.enrolmentId) else Ended(AlreadyEnabled)
    case CheckEnabled(_) =>
      if !q.pc.Checking? then q.pc
      else if q.user in w.mfa.totp && w.mfa.totp[q.user].verified then Checked(q.pc.input, w.mfa.totp[q.user]) else Ended(NotEnabled)
    case MatchOwn(_, _, _, m) => Consuming(m)
    case Consume(_) => if q.pc.Consuming? && Consumes(w.mfa, q.user, q.pc.matched) then Done else Ended(WrongCode)
    case Break(_) => Ended(Broken)
    case _ => q.pc
  }

  /** The call a step moves; `None` for a new call or no call. */
  function MoverOf(s: Step): Option<CallId> {
    match s
    case Find(c) => Some(c)
    case Insert(c, _, _) => Some(c)
    case FindWinner(c) => Some(c)
    case Replay(c, _, _) => Some(c)
    case FindPending(c) => Some(c)
    case Match(c, _, _, _) => Some(c)
    case Win(c) => Some(c)
    case CheckEnabled(c) => Some(c)
    case MatchOwn(c, _, _, _) => Some(c)
    case Consume(c) => Some(c)
    case Break(c) => Some(c)
    case _ => None
  }

  function CallsAfter(w: World, s: Step): map<CallId, Call> {
    match s
    case Enrol(c, user) => w.calls[c := Call(user, Finding)]
    case Activate(c, user, enrolmentId, code) => w.calls[c := Call(user, Asked(enrolmentId, code))]
    case Use(c, user, input) => w.calls[c := Call(user, Checking(input))]
    case _ =>
      match MoverOf(s)
      case Some(c) => if c in w.calls then w.calls[c := Call(w.calls[c].user, PcAfter(w, w.calls[c], s))] else w.calls
      case None => w.calls
  }

  // ----- what a step does to the tables -----

  predicate WinsActivation(w: World, s: Step) {
    s.Win? && s.c in w.calls && w.calls[s.c].pc.Activating? && Activates(w.mfa, w.calls[s.c].user, w.calls[s.c].pc.enrolmentId)
  }

  predicate Spends(w: World, s: Step) {
    && s.Consume? && s.c in w.calls && w.calls[s.c].pc.Consuming? && w.calls[s.c].pc.matched.Timestep?
    && ConsumesTimestep(w.mfa, w.calls[s.c].user, w.calls[s.c].pc.matched.timestep)
  }

  function TablesAfter(w: World, s: Step): MfaTables {
    match s
    case Insert(c, ring, draft) =>
      if c in w.calls && |draft.setup.codes| == RECOVERY_CODES && |draft.randoms| == RECOVERY_CODES
      then Enrolled(w.mfa, w.calls[c].user, draft.setup.enrolmentId, Encrypt(ring, draft.setup.secret, w.calls[c].user),
                    SealedCodes(ring, w.calls[c].user, draft))
      else w.mfa
    case Win(c) =>
      if c in w.calls && w.calls[c].pc.Activating?
      then MfaRows.Activated(w.mfa, w.calls[c].user, w.calls[c].pc.enrolmentId, w.calls[c].pc.timestep) else w.mfa
    case Consume(c) =>
      if c in w.calls && w.calls[c].pc.Consuming? then Consumed(w.mfa, w.calls[c].user, w.calls[c].pc.matched) else w.mfa
    case Unenrol(user) => Unenrolled(w.mfa, user)
    case _ => w.mfa
  }

  function SpentAfter(w: World, s: Step): map<EnrolmentId, seq<int>> {
    if WinsActivation(w, s) then w.spent[w.calls[s.c].pc.enrolmentId := [w.calls[s.c].pc.timestep]]
    else if Spends(w, s) && w.mfa.totp[w.calls[s.c].user].enrolmentId in w.spent then
      var e := w.mfa.totp[w.calls[s.c].user].enrolmentId;
      w.spent[e := w.spent[e] + [w.calls[s.c].pc.matched.timestep]]
    else w.spent
  }

  /** The calls of a user: those under way or over when the user's second factor is deleted are stale from then on. */
  function CallsOf(w: World, user: UserId): set<CallId> {
    set c | c in w.calls && w.calls[c].user == user
  }

  predicate Over(pc: Pc) {
    pc.Returned? || pc.Activated? || pc.Done? || pc.Ended?
  }

  function Stepped(w: World, s: Step): World {
    World(
      TablesAfter(w, s),
      CallsAfter(w, s),
      if WinsInsertion(w, s) then w.issued[s.draft.setup.enrolmentId := w.calls[s.c].user] else w.issued,
      if WinsInsertion(w, s) && |s.draft.randoms| == RECOVERY_CODES then w.issuedCodes + Elements(DraftIds(s.draft)) else w.issuedCodes,
      if WinsInsertion(w, s) && |s.draft.randoms| == RECOVERY_CODES then w.settled[w.calls[s.c].user := Settlement(s.draft.setup, DraftIds(s.draft))]
      else if s.Unenrol? then w.settled - {s.user} else w.settled,
      if s.Unenrol? then w.stale + CallsOf(w, s.user) else w.stale,
      if WinsActivation(w, s) then w.winners[w.calls[s.c].pc.enrolmentId := s.c] else w.winners,
      SpentAfter(w, s))
  }

  ghost predicate Applies(w: World, s: Step) {
    match s
    case Enrol(c, _) => c !in w.calls
    case Activate(c, _, _, _) => c !in w.calls
    case Use(c, _, _) => c !in w.calls
    case Find(c) => c in w.calls && w.calls[c].pc.Finding?
    case Insert(c, ring, draft) =>
      && c in w.calls && w.calls[c].pc.Inserting? && IsDraft(draft)
      && draft.setup.enrolmentId !in w.issued && Elements(DraftIds(draft)) !! w.issuedCodes
    case FindWinner(c) => c in w.calls && w.calls[c].pc.FindingWinner?
    case Replay(c, ring, listing) => c in w.calls && w.calls[c].pc.Replaying? && IsListing(w.mfa, w.calls[c].user, listing)
    case FindPending(c) => c in w.calls && w.calls[c].pc.Asked?
    case Match(c, _, _, _) => c in w.calls && w.calls[c].pc.Deciding?
    case Win(c) => c in w.calls && w.calls[c].pc.Activating?
    case CheckEnabled(c) => c in w.calls && w.calls[c].pc.Checking?
    case MatchOwn(c, _, _, _) => c in w.calls && w.calls[c].pc.Checked?
    case Consume(c) => c in w.calls && w.calls[c].pc.Consuming?
    case Break(c) => c in w.calls && !Over(w.calls[c].pc)
    case Unenrol(_) => true
  }

  /**
   * Activation needs a code of the enrolment's own secret, as the row it read has it; a use needs a code of
   * the user's that matches, against the row that was read or the codes as they are.
   */
  ghost predicate Enabled(hotp: Hotp, w: World, s: Step) {
    && Applies(w, s)
    && (s.Match? ==>
          var q := w.calls[s.c];
          && Decrypt(s.ring, q.pc.row.secret, q.user).Some?
          && IsTotpMatch(hotp, Decrypt(s.ring, q.pc.row.secret, q.user).value, q.pc.code, s.now, s.found))
    && (s.MatchOwn? ==>
          var q := w.calls[s.c];
          IsMatch(hotp, w.mfa, s.now, s.ring, q.user, q.pc.row, q.pc.input, Some(s.matched)))
  }

  function RunOf(steps: seq<Step>): World {
    if steps == [] then START else Stepped(RunOf(steps[..|steps| - 1]), steps[|steps| - 1])
  }

  ghost predicate Possible(hotp: Hotp, steps: seq<Step>) {
    steps == [] || (Possible(hotp, steps[..|steps| - 1]) && Enabled(hotp, RunOf(steps[..|steps| - 1]), steps[|steps| - 1]))
  }
}
