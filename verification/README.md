# A verified model of the identity service

This project models the account, organisation and second-factor core of an identity provider, and proves
what it promises over whole runs. The service keeps users, companies, memberships, invitations and an audit
log in one database; it keeps login challenges, attempt counters and session indexes in an expiring
key-value store with three implementations; and it hands consumers a session and a member list through an
SDK. Three smaller algorithms with hard specifications are modelled too: the cycle finder of the dependency
checker, the recogniser of IP literals, and the SDK's two ways of asking for a session.

`dafny verify dfyconfig.toml` checks everything. Nothing here runs the service: every statement below is a
proof about the model.

## How it is laid out

**The organisation.** `OrgModel` is one database snapshot and the row writes of the repositories.
`OrgGuards` is the policy and the guards that issue grants. `OrgTransactions` says what each transaction
does to a snapshot, and `OrgDatabase` runs the same transactions the way the program does: a class with
mutable tables, row writes in order, rollback, and hooks that run after the commit. Every transaction
method is proved to be one `Step` of `OrgRuns`, whose runs are arbitrary sequences of committed, failed and
faulting transactions with arbitrarily stale grants. Over those runs, `OrgHistory` proves that the audit log
is the complete history of roles, invitation states and company states; `OrgInvariants` and `OrgRuns` that
every ACTIVE company has an OWNER, that the current company is exact, that deleted companies stay empty and
that nobody who ever joined is left without a company; `OrgProgress` that nothing closed ever reopens and
that sessions are ended once per deleted account; and `OrgLineage` that every OWNER was made by an OWNER.
`OrgEffects` and the transaction methods say in rows what every transaction comes to: exactly when it succeeds,
with which failure it stops, and every table afterwards.
`InvitationCreate` is the lookup, the spend and the insertion of an invitation as the three calls they are,
with anybody's transactions in between.

Where a property needs more of a grant than that it exists, the model says so: `Timely` asks of an invitation
that its company is ACTIVE when the row goes in, which `InviteTidyIffActive` shows to be the exact condition,
and of an acceptance that its grant describes the row it is used on. `OrgIssued` discharges the latter:
in runs whose accept grants were issued by the guard in any earlier state, every acceptance is so.

**The key-value store.** `KvSpec` is a map with expiries. `KvStores` holds the three implementations as
classes: the in-memory map with lazy deletion, the Durable Object with its alarm behind a namespace of
objects, and the Postgres table. Each is proved to answer every clocked sequence of calls as `KvSpec` does
for the way it reads a counter, JavaScript's `Number` or Postgres' `bigint`, alarms firing at any time
included; when the two ways come to the same is a theorem too. `SessionIndex` and `SessionIndexRuns` are the
session index kept in it.

**Attempt budgets and the second factor.** `AttemptBudget` is the sliding counter, with the rate bound and
the hour-bucketed invitation budget. `MfaRows` is the second-factor repository with its compare-and-set
updates, `OwnCodes` matches and consumes codes, and `DisableMfa` is the disabling of the factor behind its
budget. `LoginChallenge` is the login protocol as a state machine in which any number of requests interleave
at every store and database call, calls fail, lose their answer or take effect late, and enrolments come and
go. `LoginAttempts` bounds the guesses, `LoginSessions` shows what every session has used up,
`LoginLiveness` that a fresh code within the limits does sign in. `LoginProgram` runs the completion call after
call over the store and the repository; between any two calls other requests make theirs, challenges are
opened, enrolments come and go and time passes, and any call may fail: every such execution is a path of the
machine, and one with nothing in between and every call working gets the answer that the challenge, the count
and the code decide. `Enrolment` and `EnrolmentRuns` are the machine of enrolling, activating and using a second factor;
`EnrolmentActivation` traces every activation to a right code in the steps of the run, and `EnrolmentRace` and
`EnrolmentFresh` show where settlement ends and what restores it.

**Small algorithms.** `CycleFinder`; `Splitting`, `IpGrammar`, `IpLiteral` and `RequestContext`; `SdkGuard`.
`Prelude`, `Sorting` and `StringOrder` are shared vocabulary.

## Results that differ from what one would first write down

- The end of a merged session index lies at or after the clock and every expiry in it, by less than a second
  (`TtlCoversEveryEntry`). Measured against the latest expiry alone, "by less than a second" holds exactly when
  that entry has not been expired for a second already (`TtlWithinASecondIff`), because the TTL never goes
  below zero while a written entry is kept even when it has expired (`WrittenExpired`).
- The two SDK paths agree exactly when the caller's current company, if set, is one of their own
  or there is no token (`PathsAgreeIff`, `PathsCanDisagree`). In every reachable database they agree
  (`PathsAgreeInEveryRun`).
- The attempts counted on the counter of a company and hour stay within every limit exactly when each arrives
  less than an hour after the one before (`HourBoundIff`): the counter lives for an hour from the last attempt,
  not for the hour it is named after. Attempts counted within their own UTC hour always do (`HourBound`); one
  counted later can find the counter gone (`CountedLate`).
- The three stores go through a run in step exactly when every increment of a live entry finds a text that
  `Number` and `bigint` read as the same whole number, or both refuse (`StoresAgreeIff`). `"1.5"` is read
  differently (`OneAndAHalf`), and the difference shows at the next read (`DisagreementShows`).
- A pending enrolment is replayed as it was settled exactly as long as none of its recovery codes has been used
  (`ReplayIsSettledIff`). Before activation only a call that was there when the previous enrolment was deleted
  can use one (`OnlyStaleCallsUse`), because `consumeRecoveryCode` does not look at `verifiedAt`; it needs a
  recovery code that was given before it was drawn. Without such a guess all enrolment calls since the last
  deletion return the same setup (`SettledWhenUnguessed`); with one, two of them can differ (`SettledTwice`).
- Inserting an invitation keeps the closed-company invariants exactly when its company is ACTIVE at that
  moment (`InviteTidyIffActive`); the guard alone, run earlier, does not ensure it (`GuardedTooEarly`).

## Model

| member | source | states |
|---|---|---|
| OrgHistory.ReplayAppend | db/repositories/audit-log.ts:1-40 | folding a longer log is folding the rest onto the fold of its prefix |
| OrgHistory.DeleteAccountFaithful | src/account/delete-account.ts:11-20 | after a deleted account and its cascades, folding the log still gives the roles, invitation records and activations |
| OrgHistory.OrphansFaithful | src/company/delete.ts:49-55 | the same after any list of orphan deletions |
| OrgHistory.CreateCompanyFaithful | src/company/create.ts:17-47 | creating a company with its owner keeps the log a faithful history |
| OrgHistory.ChangeRoleFaithful | src/membership/change-role.ts:8-33 | a role change keeps the log faithful, even when the grant's role before is stale |
| OrgHistory.TransferFaithful | src/membership/transfer-ownership.ts:8-23 | an ownership transfer keeps the log faithful |
| OrgHistory.RemoveMemberFaithful | src/membership/remove.ts:9-25 | a removal, with the account deletion it may lead to, keeps the log faithful |
| OrgHistory.InviteFaithful | src/invitation/create.ts:45-72 | an invitation keeps the log faithful |
| OrgHistory.RevokeFaithful | src/invitation/revoke.ts:9-28 | a revocation keeps the log faithful |
| OrgHistory.AcceptFaithful | src/invitation/accept.ts:35-62 | an acceptance keeps the log faithful |
| OrgHistory.DeleteCompanyFaithful | src/company/delete.ts:22-70 | the company deletion, with all it revokes, removes and orphans, keeps the log faithful |
| OrgRuns.AuditLogIsHistory | src/company/delete.ts:33-66 | after every run, with stale grants and rolled-back transactions, folding the log from empty gives exactly the role map, the invitation records, the activations and the ended sessions |
| OrgInvariants.DeleteUnlessLastOwnerSound | src/account/delete-account.ts:22-34 | deleting one's own account leaves every ACTIVE company an OWNER |
| OrgInvariants.OrphanSound | src/account/orphan.ts:8-20 | deleting an orphan leaves every ACTIVE company an OWNER |
| OrgInvariants.ChangeRoleSound | src/membership/apply-change.ts:26-32 | a role change that commits leaves every ACTIVE company an OWNER |
| OrgInvariants.TransferSound | src/membership/apply-change.ts:60-69 | so does a transfer |
| OrgInvariants.RemoveMemberSound | src/membership/apply-change.ts:44-47 | so does a removal with its cascade |
| OrgInvariants.DeleteCompanySound | src/company/delete.ts:14-72 | so does a company deletion |
| OrgInvariants.LeavePointer | db/repositories/user.ts:83-101 | whoever leaves a company that was current gets the membership of an ACTIVE company least by joined_at and id, or none if there is none |
| OrgInvariants.RemoveMemberTidy | src/membership/remove.ts:14-24 | a removal keeps closed companies closed, current companies exact and joiners in a company |
| OrgInvariants.DeleteCompanyTidy | src/company/delete.ts:24-57 | a company deletion keeps all three |
| OrgInvariants.SwitchTidy | src/membership/current-company.ts:30-56 | switching keeps all three |
| OrgInvariants.AcceptTidy | src/invitation/accept.ts:35-62 | an acceptance keeps all three when the grant describes the row it is used on |
| OrgInvariants.InviteTidyIffActive | src/invitation/create.ts:45-72 | inserting an invitation keeps all three if and only if its company is ACTIVE |
| OrgInvariants.InviteAsOneStepTidy | src/membership/guard/invite.ts:17-31 | with guard and insertion as one step it always does |
| OrgRuns.EveryActiveCompanyHasAnOwner | src/membership/apply-change.ts:15-24 | in every reachable state, whatever stale grants were used, every ACTIVE company has an OWNER |
| OrgRuns.CurrentCompanyIsExact | src/gen/auth/v1/auth_pb.ts:62-73 | in every reachable state a set pointer names an ACTIVE company of the user, and an empty one means the user has none |
| OrgRuns.DeletedCompaniesStayEmpty | src/company/delete.ts:24-57 | in every reachable state a DELETED company has no members and nothing pending |
| OrgRuns.NoOrphanedMembers | src/account/orphan.ts:8-20 | who has joined, by the log, exists and belongs to an ACTIVE company |
| OrgRuns.SweepDeletesOnlyNeverJoined | src/account/sweep-abandoned-signups.ts:27-32 | a sweep, however stale its candidates, deletes only users who never joined a company |
| OrgIssued.IssuedRunIsTimely | src/membership/guard/invitation-accept.ts:19-38 | a run whose accept grants were issued by the guard in any earlier state is one the theorems on runs speak of |
| OrgIssued.IssuedRunIsTidy | src/invitation/accept.ts:28-73 | and keeps every OWNER, closed company, current company and joiner as they promise |
| OrgProgress.RunForward | db/repositories/invitation.ts:111-151 | over any run DELETED stays DELETED, and an invitation leaves PENDING at most once, with its stamps, and changes nothing else |
| OrgProgress.AcceptGrantStaysLinked | src/membership/guard/invitation-accept.ts:19-38 | an accept grant, however old, still describes the row it would be used on |
| OrgProgress.HooksMatchDeletions | src/transaction.ts:54-67 | a step ends exactly the sessions of the users whose rows it dropped, once each; a rolled-back one ends none |
| OrgProgress.SessionsEndOnce | src/account/delete-account.ts:11-20 | over any run nobody's sessions are ended twice, nor while the account exists |
| OrgProgress.JoinedPersists | src/audit/append.ts:9-10 | who joined and still has an account is still among the joined by the log |
| OrgProgress.OnceAMemberNeverOrphaned | src/membership/remove.ts:14-24 | who held a membership at any time and still exists belongs to an ACTIVE company |
| OrgLineage.RequestDecided | src/membership/policy.ts:13-32 | with guard and transaction as one step, a request makes OWNERs only by creation or by an OWNER's authority, and undoes OWNERs only by themselves or by an OWNER |
| OrgLineage.OwnershipLineage | src/invitation/accept.ts:39-51 | over whole runs everybody who is an OWNER has been one since they created the company, or since a request made on the authority of somebody who was OWNER of it at that moment, who has such a lineage too |
| OrgLineage.NoOwnerUndoneByOthers | src/membership/guard/removal.ts:15-31 | over whole runs no OWNER is demoted or removed by another user who is not an OWNER |
| OrgExamples.SigningUp | src/company/create.ts:49-65 | a concrete run: signing up and founding a company reaches the expected tables and log |
| OrgExamples.Dissolving | src/company/delete.ts:14-72 | a concrete run: dissolving it deletes the founder's account, ends the sessions and leaves only the closed company |
| OrgExamples.GuardedTooEarly | src/membership/guard/invite.ts:17-31 | a concrete run in which a grant issued while the company was ACTIVE leaves a pending invitation to a DELETED one |
| OrgDatabase.Database.Finish | src/transaction.ts:13-67 | rollback restores the tables; commit runs the registered hooks once, in order |
| OrgDatabase.Database.ReassignLastUsedCompanyAfterLeaving | db/repositories/user.ts:83-101 | exactly the named users whose pointer was the company get the oldest remaining ACTIVE one |
| OrgDatabase.Database.OldestActiveCompany | db/repositories/user.ts:92-98 | the scan finds the membership least by joined_at and id |
| OrgDatabase.Database.DeleteUserRow | db/repositories/user.ts:26-32 | the row goes with its memberships and the invitations it sent, or nothing changes |
| OrgDatabase.Database.RemoveMembershipsOfCompany | db/repositories/membership.ts:76-81 | all memberships of the company go and are reported once each with their role |
| OrgDatabase.Database.RevokePendingInvitationsOfCompany | db/repositories/invitation.ts:142-151 | exactly the pending ones are revoked, stamped and reported |
| OrgDatabase.Database.DeleteIfOrphaned | src/account/orphan.ts:8-20 | kept with an ACTIVE membership, else deleted with audit row and hook |
| OrgDatabase.Database.DeleteAccountUnlessLastOwnerTx | src/account/delete-account.ts:22-34 | fails for the only OWNER of an ACTIVE company and for a user who does not exist; otherwise the account goes with its rows, a log row and the end of its sessions |
| OrgDatabase.Database.SweepAbandonedSignups | src/account/sweep-abandoned-signups.ts:12-38 | the candidates are the accounts created before the threshold that belong to no ACTIVE company, once each; executing deletes each in a transaction of its own |
| OrgDatabase.Database.CheckAnOwnerRemains | src/membership/apply-change.ts:15-24 | succeeds exactly when somebody is an OWNER of the company, and otherwise reports the last owner |
| OrgDatabase.Database.ChangeRoleTx | src/membership/change-role.ts:8-33 | the membership gets the role asked for and the log says so; fails exactly for a stranger, and when nobody would be OWNER |
| OrgDatabase.Database.TransferOwnershipTx | src/membership/transfer-ownership.ts:8-23 | the one becomes OWNER and the other ADMIN; fails exactly when one of them is no member, or nobody would be OWNER |
| OrgDatabase.Database.RemoveMemberTx | src/membership/remove.ts:9-25 | commits exactly the removal that `RemovalRows` describes, or nothing |
| OrgDatabase.Database.SwitchCurrentCompanyTx | src/membership/current-company.ts:30-56 | for a member the company is current afterwards, with a log row when it was not before; for anybody else nothing changes |
| OrgDatabase.Database.CreateSignupCompanyTx | src/company/create.ts:49-65 | as `AddCompanyTx`, and refused to whoever belongs to an ACTIVE company |
| OrgDatabase.Database.AddCompanyTx | src/company/create.ts:67-70 | the company is ACTIVE, its founder OWNER of it, and it is current; fails exactly when an id is taken or the user does not exist |
| OrgDatabase.Database.DeleteCompanyTx | src/company/delete.ts:14-72 | commits exactly the deletion that `DissolutionRows` describes, for some orders of the rows the database reports, or nothing |
| OrgDatabase.Database.FindActivePendingInvitation | db/repositories/invitation.ts:48-66 | finds an unexpired pending invitation of the company for the address exactly when there is one |
| OrgDatabase.Database.InsertInvitationTx | src/invitation/create.ts:45-72 | the invitation is pending for a day, without stamps; fails exactly when its id is taken or the company or the inviter does not exist |
| OrgDatabase.Database.Execute | src/transaction.ts:13-67 | whichever transaction is carried out is one possible step of the run model |
| OrgDatabase.Database.ExecuteAll | src/transaction.ts:13-67 | any transactions one after another are a feasible run of it |
| InvitationCreate.InvitationKeysApart | src/invitation/attempt-budget.ts:9-15 | two companies, or two hours, never share a counter |
| InvitationCreate.FindOrInsertInvitation | src/invitation/create.ts:28-75 | an unexpired pending invitation is reused without spending; otherwise the hour's counter decides, and after anybody's transactions the insertion is one step, also when the attempt could not be counted; every answer is determined |
| OrgDatabase.Database.RevokeInvitationTx | src/invitation/revoke.ts:9-28 | succeeds exactly for a pending invitation of the company, which is revoked and stamped |
| OrgDatabase.Database.AcceptInvitationTx | src/invitation/accept.ts:28-73 | refused as expired, with its reason logged, exactly when the row is not pending or an OWNER invitation was sent by somebody who is no OWNER; otherwise the user joins in the role of the row, unless the membership row cannot go in |
| OrgEffects.ChangeRoleRows | src/membership/apply-change.ts:26-32 | the whole outcome of a role change, decided by the rows |
| OrgEffects.TransferRows | src/membership/apply-change.ts:60-69 | the whole outcome of a transfer |
| OrgEffects.CloseAccountRows | src/account/delete-account.ts:22-34 | the whole outcome of closing one's account |
| OrgEffects.OrphanRows | src/account/orphan.ts:8-20 | an account is an orphan exactly when it exists and belongs to no ACTIVE company |
| OrgEffects.OrphansRows | src/company/delete.ts:49-55 | of any list of users exactly the orphans are deleted, with all that goes along, in the order of the list |
| OrgEffects.RemovalRows | src/membership/remove.ts:9-25 | the whole outcome of a removal: the membership goes, the pointer moves to the ACTIVE company joined first, and the account goes exactly when there is no other |
| OrgEffects.CreateCompanyRows | src/company/create.ts:17-47 | the whole outcome of founding a company |
| OrgEffects.SignupCompanyRows | src/company/create.ts:49-65 | the same for a sign-up |
| OrgEffects.AcceptRows | src/invitation/accept.ts:28-62 | the whole outcome of an acceptance, and the log row of a refused one |
| OrgEffects.DissolutionRows | src/company/delete.ts:14-72 | the whole outcome of a company deletion: what is revoked, removed, moved and closed, and that exactly the members with no other ACTIVE company lose their accounts |
| OrgGuards.InviteAdmits | src/membership/guard/invite.ts:17-31 | an OWNER invites to any role, an ADMIN to any but OWNER, nobody else to none |
| OrgGuards.RemovalAdmits | src/membership/guard/removal.ts:15-31 | everybody may leave; a MEMBER removes nobody else, and only an OWNER another OWNER |
| OrgGuards.RoleChangeAdmits | src/membership/guard/role-change.ts:16-32 | an OWNER changes every role, an ADMIN none from or to OWNER |
| OrgGuards.TransferAdmits | src/membership/guard/transfer-ownership.ts:13-27 | an OWNER transfers to another member who is no OWNER |
| OrgGuards.AcceptAdmits | src/membership/guard/invitation-accept.ts:19-38 | a grant to join goes exactly to the address invited, for the row as it is, pending and not expired, unless the user is a member already |
| Sorting.SortSorted | src/session-index.ts:26-26 | sorting gives a sorted list |
| Sorting.SortMembers | src/session-index.ts:26-26 | with the same elements as often |
| Sorting.SortStable | src/session-index.ts:26-26 | and keeps the order of elements that may stand either way |
| SessionIndex.MergeKeepsOrder | src/session-index.ts:16-32 | the merged list is sorted by expiry and names each token once |
| SessionIndex.MergeMembers | src/session-index.ts:21-26 | it holds exactly what is written, and what was stored under other tokens and has not expired |
| SessionIndex.TtlCoversEveryEntry | src/session-index.ts:27-31 | its end lies at or after the clock and every expiry, by less than a second |
| SessionIndex.TtlWithinASecondIff | src/session-index.ts:27-31 | against the latest expiry alone, exactly when that is less than a second past |
| SessionIndex.WrittenExpired | src/session-index.ts:21-31 | an entry written a second after its expiry is kept, and the end misses it by a whole second |
| SessionIndexRuns.NoLiveSessionLost | src/session-index.ts:16-32 | after any merges, deletions and waiting, the unexpired entries a reader sees are those of the last-write-wins map, sorted and without duplicates |
| SessionIndexRuns.StoredInEveryStore | src/kv-store.do.ts:39-43 | as writes to one key of any of the stores, whichever way it reads counters, the index is the same |
| KvStores.MemoryKvStore.Answer | src/kv-store.memory.ts:6-48 | each call answers and leaves the key as the specification says, and no other key changes |
| KvStores.MemoryKvStore.Keys | src/kv-store.memory.ts:50-52 | the live keys with the prefix; no reader can tell the lazy deletions |
| KvStores.MemoryKvStore.Ttl | src/kv-store.memory.ts:54-59 | -2, -1, or the seconds left rounded up, never zero |
| KvStores.RunOnMemory | src/kv-store.memory.ts:6-48 | every clocked sequence of calls gets the specification's replies, counters read by `Number` |
| KvStores.PostgresTtlStore.Answer | db/testing/ttl-store.ts:25-72 | each statement answers and leaves the row as the specification says |
| KvStores.RunOnPostgres | db/testing/ttl-store.ts:19-77 | every clocked sequence of calls gets the specification's replies, counters read by `bigint` |
| KvStores.KvStore.Write | src/kv-store.do.ts:15-19 | the entry and its alarm are set together |
| KvStores.KvStore.AlarmFires | src/kv-store.do.ts:52-56 | an alarm at any time changes no answer and leaves a live entry with its alarm |
| KvStores.KvStore.Answer | src/kv-store.do.ts:21-50 | each call answers as the specification says, and an entry that expires has its alarm at the expiry |
| KvStores.KvStoreNamespace.Answer | infra/stages.ts:76-76 | one object per key: a call on one key leaves the others alone |
| KvStores.RunOnDurableObjects | src/kv-store.do.ts:8-57 | with alarms firing whenever they please, every clocked sequence of calls gets the specification's replies, counters read by `Number` |
| KvSpec.StoresAgreeIff | db/testing/ttl-store.ts:57-72 | the stores reply and hold the same all through a run if and only if every increment of a live entry finds a text both ways of reading take for the same whole number, or both refuse |
| KvSpec.DisagreementShows | src/kv-store.memory.ts:43-48 | where they read differently, the entry answers differently at once |
| KvSpec.OneAndAHalf | src/kv-store.do.ts:45-50 | after `set(k, "1.5")` an increment counts two and a half in one store and fails in the other |
| KvSpec.LastWriteIsRead | src/kv-store.memory.ts:9-36 | whatever happens to other keys, what a key was last set to is read until its time is over and not longer, and nothing is read of one deleted or taken |
| AttemptBudget.Spend | src/attempt-budget.ts:70-91 | admitted with what is left, exhausted, or unavailable when it could not be counted; only the counter changes |
| AttemptBudget.SpendDecides | src/attempt-budget.ts:70-91 | an attempt is admitted exactly below the limit, with what is left after it, and one that arrives counts for a window of its own |
| AttemptBudget.WindowsCover | src/attempt-budget.ts:18-18 | the number of windows of a length is its ceiling over the window |
| AttemptBudget.AdmittedAndRoom | src/attempt-budget.ts:70-91 | an admitted attempt and what its window still has room for stay within the limit, and the window starts over from the attempt |
| AttemptBudget.RateBound | src/attempt-budget.ts:70-94 | any half-open stretch of time admits at most the limit for every window that covers it and for every reset in it |
| AttemptBudget.OutlivesItsHour | src/invitation/attempt-budget.ts:4-15 | a counter written in its hour is still there when the hour ends |
| AttemptBudget.HourBoundIff | src/invitation/attempt-budget.ts:4-15 | the attempts on one counter stay within every limit if and only if each arrives less than an hour after the one before |
| AttemptBudget.HourBound | src/invitation/attempt-budget.ts:4-15 | attempts of a company counted within their own hour never exceed the limit |
| AttemptBudget.CountedLate | src/invitation/attempt-budget.ts:9-15 | one counted an hour later finds the counter gone: two admitted with a limit of one |
| MfaRows.WithCodesAt | db/repositories/mfa-totp.ts:120-126 | after inserting codes an id holds what was added under it, or else what it held |
| MfaRows.MfaTotpRepository.InsertEnrollment | src/mfa/totp/enroll-mfa.ts:57-82 | codes go in only behind a row that went in, and a second enrolment changes nothing |
| MfaRows.MfaTotpRepository.ListUnusedRecoveryCodes | db/repositories/mfa-totp.ts:135-149 | every unused code of the user once, in id order |
| MfaRows.MfaTotpRepository.ActivateMfaTotp | db/repositories/mfa-totp.ts:70-87 | succeeds exactly for the pending enrolment named, and then marks it and its time step |
| MfaRows.MfaTotpRepository.ConsumeTotpTimestep | db/repositories/mfa-totp.ts:89-102 | succeeds exactly for a later time step of a verified row |
| MfaRows.MfaTotpRepository.ConsumeRecoveryCode | db/repositories/mfa-totp.ts:151-164 | succeeds exactly for an unused code of the user |
| MfaRows.MfaTotpRepository.DeleteEnrollment | src/mfa/totp/disable-mfa.ts:16-26 | the user's row and codes go, nobody else's |
| StringOrder.OneListing | db/repositories/mfa-totp.ts:148-148 | an ordered listing is determined by which ids there are |
| OwnCodes.MatchTotpCode | src/mfa/totp/totp-engine.ts:30-39 | a step of the window whose HOTP is the code, or nothing when there is none |
| OwnCodes.MatchRecoveryCode | src/mfa/totp/verify-code.ts:28-33 | the first unused code in id order that decrypts to the input, or nothing when there is none |
| OwnCodes.MatchOwnedCode | src/mfa/totp/verify-code.ts:11-34 | the match of either kind, against the row that was read |
| OwnCodes.ConsumeMatchedCode | src/mfa/totp/verify-code.ts:36-46 | the compare-and-set of the matched code, and whether it won |
| OwnCodes.CodesDecide | src/mfa/totp/verify-code.ts:11-46 | a right code is matched and can be consumed, a wrong one matches nothing, and a TOTP code of steps already used is matched and not consumed again |
| LoginChallenge.KeysApart | src/mfa/totp/login-challenge.ts:21-24 | challenges and counters never share a key |
| LoginAttempts.AttemptsKept | src/mfa/totp/login-challenge.ts:77-109 | over every run cells, requests and counts keep their invariants |
| LoginAttempts.CounterStep | src/attempt-budget.ts:70-91 | the counter of a living challenge never goes down and goes up with every spend |
| LoginAttempts.GuessingTakesAdmission | src/mfa/totp/complete-login-challenge.ts:21-28 | whoever tries a code has been admitted |
| LoginAttempts.OneGuessEach | src/mfa/totp/complete-login-challenge.ts:21-28 | a request tries a code at most once |
| LoginAttempts.AtMostFiveGuesses | src/mfa/totp/login-challenge.ts:18-19 | in any interleaving and with any faults, at most five codes are tried on a challenge by requests admitted while it was alive |
| LoginSessions.SessionsKeptOverRuns | src/mfa/totp/login-challenge.ts:77-81 | over every run, who took a challenge took it alive and alone, and who has a factor owns its consumption |
| LoginSessions.ConsumesAnew | db/repositories/mfa-totp.ts:89-102 | a consumption is of a factor not consumed before and made for the user who consumes it |
| LoginSessions.TablesStep | db/repositories/mfa-totp.ts:58-175 | every change of the tables keeps what has been consumed from being consumed again |
| LoginSessions.SessionsArePaidFor | src/mfa/totp/complete-login-challenge.ts:14-42 | a session was bought with a challenge opened for its user and now gone, by an attempt admitted in time, and with a factor of the same user that its own request consumed |
| LoginSessions.SessionsAreApart | src/mfa/totp/complete-login-challenge.ts:29-32 | no two sessions come from one challenge, one time step of an enrolment or one recovery code |
| LoginSessions.LateNeverSignsIn | src/mfa/totp/complete-login-challenge.ts:29-29 | an attempt admitted after the challenge's time never signs anyone in |
| LoginLiveness.FreshCodeSignsIn | src/mfa/totp/complete-login-challenge.ts:14-42 | from any reachable world, with a living challenge, an attempt left and a code for a step later than the last one used, a request can go all the way to a session for the challenge's user |
| LoginProgram.PeekLoginChallenge | src/mfa/totp/login-challenge.ts:69-75 | what is read is what the machine's store holds, parsed |
| LoginProgram.SpendLoginChallengeAttempt | src/mfa/totp/login-challenge.ts:96-109 | counts as the machine counts |
| LoginProgram.ConsumeLoginChallenge | src/mfa/totp/login-challenge.ts:77-81 | takes the challenge as the machine does |
| LoginProgram.Service.Peek | src/mfa/totp/complete-login-challenge.ts:18-19 | one call, failing or not, is one step of the machine, and leaves the request where it says |
| LoginProgram.Service.SpendAttempt | src/mfa/totp/complete-login-challenge.ts:21-21 | so is the spend of an attempt |
| LoginProgram.Service.FindRow | src/mfa/totp/verify-code.ts:18-19 | so is the lookup of the second factor |
| LoginProgram.Service.Match | src/mfa/totp/complete-login-challenge.ts:23-28 | so is the matching of the code, with the branch after a wrong one |
| LoginProgram.Service.TakeChallenge | src/mfa/totp/complete-login-challenge.ts:29-29 | so is the taking of the challenge |
| LoginProgram.Service.TakeFactor | src/mfa/totp/complete-login-challenge.ts:30-30 | so is the consumption of the code; one that fails after it took effect stays consumed and signs nobody in |
| LoginProgram.Service.Issue | src/mfa/totp/complete-login-challenge.ts:32-32 | so is the issuing of the session, which may fail or lose its answer |
| LoginProgram.Service.Meanwhile | src/mfa/totp/complete-login-challenge.ts:14-42 | whatever others do is steps of the machine too, and leaves a request where it stands |
| LoginProgram.Service.CompleteLoginChallenge | src/mfa/totp/complete-login-challenge.ts:14-42 | the whole completion stays on the machine and ends as it reports; with nothing in between and every call working a right code signs in, a used or wrong one is refused, the last wrong one and any after it end the challenge; and whatever goes on in between, only a failing call or something that does not decrypt breaks it |
| LoginProgram.FromTheStart | src/mfa/totp/complete-login-challenge.ts:14-42 | so every execution ends where some run of the machine ends, and what is proved of those runs holds of it |
| Enrolment.IdsSortByIndex | db/repositories/mfa-totp.ts:9-10 | recovery-code ids sort by their index, whatever the random parts |
| EnrolmentRuns.InsertionSettles | src/mfa/totp/enroll-mfa.ts:57-89 | the winning insertion stores exactly the codes it returns, in the order in which they will be listed |
| EnrolmentRuns.ReplayIsSettledIff | src/mfa/totp/enroll-mfa.ts:14-35 | replaying a pending enrolment gives back what the winner returned if and only if none of its recovery codes has been used |
| EnrolmentRuns.EnrolmentIsSettledOnce | src/mfa/totp/enroll-mfa.ts:37-94 | all enrolment calls of a user that succeeded since the last deletion have returned the same id, secret and codes in the same order, as long as no code has been used |
| EnrolmentRuns.OnlyStaleCallsUse | db/repositories/mfa-totp.ts:151-164 | before activation only a call that was there when the previous enrolment was deleted consumes anything |
| EnrolmentRuns.SettledUntilActivation | src/mfa/totp/enroll-mfa.ts:37-94 | so they are the same until activation, unless such a call has consumed something |
| EnrolmentRuns.StaleMeansDeletedSince | src/mfa/totp/disable-mfa.ts:16-26 | a call counts as begun before the last deletion exactly when the user's second factor was deleted while it was there |
| EnrolmentFresh.SettledWhenUnguessed | src/mfa/totp/enroll-mfa.ts:37-94 | they are the same until activation, whatever was under way at the deletion, if no code was given before it was drawn |
| EnrolmentRace.SettledTwice | src/mfa/totp/disable-mfa.ts:39-58 | with one that was, a run in which two of them return ten codes and nine |
| EnrolmentRuns.ActivationIsWonOnce | src/mfa/totp/activate-mfa.ts:32-37 | no enrolment is activated by two calls |
| EnrolmentRuns.VerifiedMeansWon | db/repositories/mfa-totp.ts:70-87 | an enrolment is verified exactly when a call has activated it |
| EnrolmentActivation.ActivatedByItsCode | src/mfa/totp/activate-mfa.ts:14-37 | a call that activated an enrolment came with six digits that are the HOTP of that enrolment's own secret at a step in the window, the first one spent |
| EnrolmentActivation.VerifiedByItsCode | src/mfa/totp/activate-mfa.ts:14-37 | so was every verified row activated, by a call of its own user |
| EnrolmentRuns.ReplayDecides | src/mfa/totp/enroll-mfa.ts:14-35 | who is verified is turned away; until then, with no code used and all of it readable, the settled enrolment comes back |
| EnrolmentRace.Enrolling | src/mfa/totp/enroll-mfa.ts:37-94 | from any reachable state a user without a second factor can enrol and gets what was drawn |
| EnrolmentRace.Activating | src/mfa/totp/activate-mfa.ts:14-40 | and can activate it with a code of its secret |
| EnrolmentRuns.SpentOnlyGoesUp | db/repositories/mfa-totp.ts:89-102 | from the activating one on, spent time steps strictly increase, and none of them can be consumed again |
| DisableMfa.Disable | src/mfa/totp/disable-mfa.ts:39-58 | an admitted attempt with a right code disables the factor, all of it, and a wrong or used one does not; nothing else does, otherwise the tables stay and the attempt stays counted |
| DisableMfa.ResetDisableAttempts | src/mfa/disable-attempt-budget.ts:19-26 | a reset deletes the counter; a failed one changes nothing |
| DisableMfa.GuessesPerQuarterHour | src/mfa/disable-attempt-budget.ts:12-17 | any fifteen minutes admit at most five guesses, and five more for every reset |
| CycleFinder.RanksGoDown | src/__tests__/web-domain-structure-helpers.ts:169-179 | along a path of finished nodes the order of finishing goes down |
| CycleFinder.Closes | src/__tests__/web-domain-structure-helpers.ts:165-168 | meeting an active node again closes a real cycle |
| CycleFinder.Search.Visit | src/__tests__/web-domain-structure-helpers.ts:164-180 | ends with a cycle of the graph, or with the node finished and the active path as it was |
| CycleFinder.FindCycle | src/__tests__/web-domain-structure-helpers.ts:159-187 | terminates; a returned list is a closed path along edges, and there is one exactly when the graph has a cycle |
| Splitting.SplitAround | src/request-context.ts:78-78 | splitting the two sides of a separator apart |
| IpGrammar.DecOctetIsDecimal | src/request-context.ts:16-16 | an octet is a number below 256 in decimal without leading zeros |
| IpLiteral.Ipv4IffGrammar | src/request-context.ts:16-22 | the regular expression accepts exactly IPv4address of section 3.2.2 of RFC 3986 |
| IpLiteral.TailForm | src/request-context.ts:31-43 | groups ending in two groups or an IPv4 address, in terms of the parts between colons |
| IpLiteral.GrammarByCounts | src/request-context.ts:44-44 | the nine alternatives of IPv6address come down to eight groups, or fewer around one "::" |
| IpLiteral.HalvesIffGrammar | src/request-context.ts:24-45 | the verdict on the two halves is the grammar's on the string |
| IpLiteral.CountGroups | src/request-context.ts:31-42 | the inner loop counts the groups of a half, or rejects it |
| IpLiteral.IsIpv6Literal | src/request-context.ts:24-45 | accepts exactly IPv6address of section 3.2.2 of RFC 3986, for every string |
| RequestContext.ParseIpLiteral | src/request-context.ts:52-59 | only IP literals come out |
| RequestContext.ReadsBare | src/request-context.ts:52-59 | every address is read as itself, with space around it |
| RequestContext.ReadsPort | src/request-context.ts:47-50 | every IPv4 address with a port is read without it |
| RequestContext.ReadsBracketed | src/request-context.ts:18-18 | every address in brackets is read without brackets and port |
| RequestContext.PrefixMakesNoDifference | src/request-context.ts:70-85 | whatever stands in front of as many entries as there are trusted hops makes no difference, and with fewer entries there is no answer |
| RequestContext.ReadsIff | src/request-context.ts:52-59 | an address is read exactly from the values that carry it: bare, an IPv4 address with a port, or in brackets, with space around |
| RequestContext.ResolvedIff | src/request-context.ts:70-85 | an address is the answer exactly when the entry at the trusted hop carries it and, behind a single proxy, `x-real-ip` carries no other |
| RequestContext.ResolvedWithoutChain | src/request-context.ts:70-76 | without a chain only a single proxy's `x-real-ip` is, and without a trusted proxy nothing |
| SdkGuard.MembersInOrderMembers | db/repositories/membership.ts:92-109 | the ordered member list has exactly the company's members |
| SdkGuard.FromVerifyThenList | packages/auth-client/src/guard.ts:143-160 | however the server changes between the calls, a list that is returned is of the session's company |
| SdkGuard.PathsAgreeIff | packages/auth-client/src/guard.ts:116-160 | in an unchanged server the two paths agree exactly when there is no token or a set current company has the caller among its members |
| SdkGuard.PathsCanDisagree | packages/auth-client/src/guard.ts:143-160 | a server in which they do not: one lists nobody, the other fails |
| SdkGuard.PathsAgreeInEveryRun | src/rpc/auth-handler.ts:77-142 | in every reachable database they agree |
| SdkGuard.OneCallIsConsistent | src/rpc/auth-handler.ts:125-142 | even when memberships change between its reads, the one-call path returns the caller's company with the caller in it, in the session's role, or no company at all |
| SdkGuard.ShownAsItIs | src/rpc/auth-handler.ts:77-142 | a usable session is shown both ways with its user, the current company and the user's own role in it, and every member once, in their role, who joined first coming first |
| SdkGuard.RefusedOtherwise | src/rpc/auth-handler.ts:77-142 | any other is refused both ways for the reason that applies |

## Left out

- Database locks and isolation: each transaction body is one atomic step, which is what the row and advisory locks are there for.
- Identifiers of rows are numbers here, fresh by a set of what has been issued; their order stands for the order of the ids.
- E-mail addresses stand for their lower-cased form, and an invitation token for the row it selects.
- `updateCompany`, organisation codes, membership creation and update times, and the session, sign-in and second-factor rows of the audit log: they touch nothing the invariants speak of.
- The role written in the `membership_removed` and `role_changed` rows of a single removal or change is the grant's, as in the source; the replay uses the fact of the event and the role after it, so a stale role before does no harm.
- better-auth, HTTP, cookies, signatures and e-mail: a cookie counts as signed exactly when its challenge was opened with an answer; issuing a session is one step that may fail or lose its answer.
- Sessions revoked while activating or disabling: only whether that succeeded is a parameter.
- AES-GCM is a pair where decryption inverts encryption for the same key version and owner; HOTP is a parameter; random parts of ids and codes are parameters, fresh where the source draws them fresh.
- OwnCodes.MatchTotpCode: the order in which the library tries the steps of the window is not specified; the loop tries them upwards, and the machine allows any.
- Time is whole milliseconds. A hop count beyond 2^53 and an expiry that is not a whole number are not modelled. What `Number` and `bigint` make of a text is given with the text; a fraction is a real number, without rounding, and the largest `bigint` is not modelled.
- KvStores.MemoryKvStore.Keys: gives the set of keys; the source gives them as an array in the order in which they were first set.
- The rows one transaction appends to the audit log share their creation time and have random ids; that they stand in the order in which they were written is an assumption of the model.
- AttemptBudget.HourBound: the bucket is the number of the UTC hour, not its ISO text, and a fractional configured limit counts as its floor.
- Postgres' `now()` and the client's clock are one clock.
- Sorting.SortSorted: the sort is an insertion sort with the promises of JavaScript's stable sort; only its result matters to callers.
- Strings are sequences of Unicode scalar values, ordered by them; JavaScript orders code units, which differs only outside the basic plane.
- Enrolment calls are steps of a machine and not methods; the repository statements they make are methods of `MfaRows`.
- `parseProxyTrust`, the environment, and the joining of repeated headers.
- SdkGuard.PathsAgreeIff: names, images and update times of users are not carried, and tokens are looked up in a map of the sessions better-auth still knows.
- The timeouts and retries around store calls: a call works, loses its answer, never arrives, or takes effect later.
