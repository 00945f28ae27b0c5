# A verified model of the transactional store

The repository is a Percolator-style transactional key-value store. Values, locks and commit records
live in three byte-ordered partitions; a coordinator runs two-phase commit over them and resolves
locks it meets; a hybrid logical clock issues timestamps; a region table is split at median keys; a
Raft log is kept in memory and shadowed on disk. This project models that behaviour in Dafny and
proves what the store guarantees over every run of it.

How the parts fit:

- `Bytes.dfy`, `Mvcc.dfy`: byte order, the order-inverting key codec, the byte forms of locks and records.
- `Store.dfy`, `Txn.dfy`: the store as a value, the ordered scans, and for each coordinator call a
  function that gives its answer and the batches it commits, in order.
- `Engine.dfy`, `Coordinator.dfy`, `Node.dfy`: the same calls as methods on byte partitions, with the
  source's loops and branches. `Engine.Holds` ties the bytes to the store: every lock and record
  decodes to the store's. Each method is proved to answer and to change the store as its function says.
- `Protocol.dfy`, `Runs.dfy`, `Resolver.dfy`, `Calls.dfy`: the protocol as a state machine over batches. `Enabled` is
  what the code guarantees of each batch, `Rule` is what clients must add, and `Calls` proves that
  every call made under a rule commits only legal batches. Calls may be cut off between batches
  (`Interrupted`), and a call on several keys is a run of calls on one key each.
- `Answers.dfy`, `Scans.dfy`: what each call answers and the store it leaves, said by locks, records, values and
  milliseconds alone.
- `Theorems.dfy`, `Written.dfy`, `GcRuns.dfy`: the guarantees over all runs; the last over runs with garbage
  collections between the calls. `Discipline.dfy`, `Limits.dfy` and `Witnesses.dfy`: where the code falls
  short of a guarantee, the exact condition for a single call, and a concrete run that fails.
- `Batch.dfy`, `RangeScan.dfy`, `Gc.dfy`, `Regions.dfy`, `Router.dfy`, `Hlc.dfy`, `RaftLog.dfy`: batched calls, range scans, garbage
  collection, region statistics and medians, the region table, the clock, the Raft log.

What the proofs assume, always as a named hypothesis:

- Timestamps are distinct, and a transaction commits at one timestamp above its start (`Protocol.Distinct`).
- The user keys are separate: none is a prefix of another, unless followed there by eight bytes 0xff
  (`KeyEncoder.Separate`, which prefix-free keys are). This is exactly the condition under which every
  scan is right in every store (`Store.ScansRightExactly`); on other keys `Store.LookupExactly` and
  `Store.ReadExactly` say when a scan is right, and `Witnesses.ExtensionLosesCommit` is a run on which one
  is wrong.
- The rules of `Protocol.Rule`: `AnyClient` adds nothing; `PrimaryFirst(t)` is the discipline around the one
  transaction `t`, asked only of calls that touch it; `FreshLocks` forbids rolling a lock forward past one's own
  start; `StoredOps` forbids committing a stored Delete as a Put without value, and `TrueOps` with any other
  operation than its own; `SnapshotAt(t)` says that no transaction begins to commit at or below `t`.
  `Calls.Permitted` spells them out call by call. A rule speaks of what a call does in the store it meets: a
  call that commits no batch is permitted under every rule. An accepted prewrite, and a commit or rollback that is
  not cut off, may list the primary in any place.
- The wall clock is an argument: two readings for each lock resolved (`Txn.Readings`), in a call on several
  keys a function of the key (`Txn.Clock`). Unsigned arithmetic wraps, as in a release build.
- A batch takes effect as a whole and always succeeds. An iterator yields what was stored when it was opened.

Where the code and its comments or intent disagree, the model follows the code:

- The collector's comment speaks of the newest committed version; the code counts rollbacks too, and
  can lose a value below a rollback it keeps (`Witnesses.CollectionLosesValue`) or the value of a commit it keeps
  (`Witnesses.CollectionCorruptsRead`); exact conditions in `Gc.GcPreservesReadsExactly` and
  `GcRuns.GcKeepsValuesExactly`.
- A blocked read resolves the lock as a Put with a time to live of 3000, whatever is stored
  (`Witnesses.InventedPutCorruptsRead`, exact condition in `Limits.GetCorruptsExactly`).
- A prewrite does not repeat its conflict check after rolling a lock forward
  (`Witnesses.RollForwardLosesUpdate`, `Limits.PrewriteKeepsFirstCommitterExactly`, `Limits.CommitsApartExactly`).
- A secondary can be rolled back while its primary lives (`Witnesses.ExpiredSecondaryBreaksAtomicity`,
  `Theorems.ResolveKeepsAtomicityExactly`).
- Neither commit nor batched commit checks the primary, a rollback writes its record even after a commit,
  and a status check can answer RolledBack without one (`Witnesses.CommitWithoutPrimaryBreaksAtomicity`,
  `Witnesses.BatchCommitBreaksAtomicity`, `Witnesses.RollbackAfterCommitBreaksAtomicity`,
  `Witnesses.SecondaryFirstBreaksAtomicity`; exact conditions in `Discipline.KeepsPrimaryExactly`,
  `Discipline.PrewriteKeepsPrimaryExactly` and `Discipline.OwnPrewriteKeepsPrimaryExactly`).
- Scans stop at the first foreign key, which may lie between versions of the key scanned for
  (`Store.ExtensionHides`, `Witnesses.ExtensionLosesCommit`).
- A scan walks the commit records, so it never looks at a key that is locked and has no record yet, and can return
  one part of a committed transaction without the other (`Witnesses.ScanMissesLockedKey`; `Scans.ScanExactly` says
  which keys a scan asks for).
- A lock's length field cuts a primary key of 2^32 bytes or more (`Records.LockReadsBack`).
- A reload of the Raft log reads back stale entries once an append has cut the log
  (`RaftLog.CutEntryComesBack`, exact condition in `RaftLog.LogSurvivesReloadExactly`).
- The region id counter wraps; a split with an id in use breaks the table
  (`Routing.SplitKeepsTilingExactly`).
- The clock promises strictly increasing stamps; a tick raises the stamp exactly as long as the low sixteen bits
  of the counter, or the low forty-eight of the wall time, do not wrap (`Hlc.TickRaisesStampExactly`).

## Model

| member | source | states |
|---|---|---|
| `KeyEncoder.DecodeEncode` | crates/storage/src/mvcc/key.rs:14-32 | decoding an encoded key gives back the user key and timestamp, for every key and timestamp |
| `KeyEncoder.EncodeDecode` | crates/storage/src/mvcc/key.rs:22-32 | every byte string that decodes is the encoding of what it decodes to |
| `KeyEncoder.NewestFirst` | crates/storage/src/mvcc/key.rs:12-19 | versions of one key sort newest first, both directions |
| `KeyEncoder.PrecedesExactly` | crates/storage/src/mvcc/key.rs:14-19 | all versions of the smaller of two keys come before all of the larger exactly when it is no prefix of it or is followed there by eight bytes 0xff |
| `KeyEncoder.PrefixFreeIsSeparate` | crates/storage/src/mvcc/key.rs:14-19 | prefix-free keys are separate, so the guarantees hold on them |
| `Records.RecordRoundTrip` | crates/storage/src/mvcc/mod.rs:25-44 | every record reads back as written |
| `Records.LockReadsBack` | crates/storage/src/lock.rs:28-67 | every lock but a rollback reads back with its start, time to live and operation, and with the front of its primary that the 32-bit length tells |
| `Records.LockRoundTrip` | crates/storage/src/lock.rs:28-67 | a lock reads back as written exactly when it is no rollback and its primary key is shorter than 2^32 bytes |
| `Records.RecordDecodesExactly` | crates/storage/src/mvcc/mod.rs:32-44 | bytes decode to a record exactly when they hold a known operation, numbered 0 to 2, and eight bytes more, and encode back to their first nine |
| `Records.LockDecodesExactly` | crates/storage/src/lock.rs:38-67 | bytes decode to a lock exactly when they hold 0 or 1, both numbers and as many bytes as the length says, and encode back to those |
| `Store.LookupExactly` | crates/storage/src/mvcc/reader.rs:44-73 | on any keys, a walk of the sorted bytes that stops at the first foreign key stops at a record exactly when it is the newest one that passes the test and no version of another key comes before it |
| `Store.LookupIsNewest` | crates/storage/src/mvcc/reader.rs:44-73 | on separate keys it finds exactly the newest record that passes, and nothing exactly when there is none |
| `Store.ScansRightExactly` | crates/storage/src/mvcc/key.rs:14-19 | scans find the newest match in every store over a set of keys exactly when the keys are separate |
| `Store.ExtensionHides` | crates/txn-coordinator/src/lock_resolver.rs:45-67 | any version of a key extended by a zero byte hides from status and conflict scans all versions of the key below 2^56 |
| `Store.ReadExactly` | crates/storage/src/mvcc/reader.rs:44-75 | on any keys, a read answers what the newest non-rollback record at or below its timestamp denotes when the scan reaches that record, and nothing otherwise |
| `Store.ReadIsNewestCommit` | crates/storage/src/mvcc/reader.rs:44-75 | on separate keys the scan always reaches it |
| `Engine.EditHolds` | crates/txn-coordinator/src/coordinator.rs:232-246 | each batch keeps every stored lock and record decodable and changes the store as its edit says, a long primary key cut as its lock reads back |
| `Engine.EditsHold` | crates/txn-coordinator/src/coordinator.rs:378-393 | the same for many edits staged in one batch |
| `Engine.RangeIsScan` | crates/storage/src/mvcc/reader.rs:44-51 | iterating the bytes of the write partition from a seek key yields exactly the encodings of the stored versions from there on, in order |
| `Engine.FreshHoldsEmpty` | crates/storage/src/engine.rs:30-57 | fresh partitions hold the empty store |
| `Engine.HeldStoreIsUnique` | crates/storage/src/engine.rs:30-57 | the bytes of the partitions determine the store they hold |
| `Engine.StorageEngine.constructor` | crates/storage/src/engine.rs:30-57 | opening partitions that hold a store, fresh or not, serves that store |
| `Engine.StorageEngine.CommitBatch` | crates/storage/src/engine.rs:80-83 | a batch takes effect as a whole, and the bytes hold the store it is meant to lead to |
| `Engine.StorageEngine.GcKeysOlderThan` | crates/storage/src/engine.rs:87-124 | the loop removes from the bytes exactly the collected versions and the values they refer to, and counts them |
| `Engine.StorageEngine.GetKeysInRange` | crates/storage/src/engine.rs:127-158 | lists the distinct stored user keys in range, ascending |
| `Engine.StorageEngine.CalculateRegionStats` | crates/storage/src/engine.rs:161-192 | answers the key count and the bytes of the range, modulo 2^64 |
| `Engine.StorageEngine.FindMedianKey` | crates/storage/src/engine.rs:195-207 | answers the middle key, and none exactly when there are fewer than two |
| `Engine.MvccReader.Get` | crates/storage/src/mvcc/reader.rs:28-76 | the byte-level read answers as the read of the typed store, errors included |
| `Coordinator.LockResolver.CheckTxnStatus` | crates/txn-coordinator/src/lock_resolver.rs:36-98 | answers and changes the store as the status function, and never fails to decode |
| `Coordinator.LockResolver.ResolveLock` | crates/txn-coordinator/src/lock_resolver.rs:101-145 | rolls forward, rolls back or refuses as the resolve function, for any two clock readings |
| `Coordinator.TransactionCoordinator.constructor` | crates/txn-coordinator/src/coordinator.rs:56-63 | the coordinator and its resolver share one engine |
| `Coordinator.TransactionCoordinator.Heartbeat` | crates/txn-coordinator/src/coordinator.rs:81-101 | extends the lock if the transaction holds it, and refuses otherwise |
| `Coordinator.TransactionCoordinator.Get` | crates/txn-coordinator/src/coordinator.rs:104-125 | reads, resolves a lock in the way with the invented lock, and reads again, for any clock readings |
| `Coordinator.TransactionCoordinator.ScanKeys` | crates/txn-coordinator/src/coordinator.rs:128-171 | the scan loop answers and changes the store as the scan function, for any clock readings of its gets |
| `Coordinator.TransactionCoordinator.FindConflict` | crates/txn-coordinator/src/coordinator.rs:192-211 | the conflict loop reports the newest blocking record, or none |
| `Coordinator.TransactionCoordinator.PrewriteOne` | crates/txn-coordinator/src/coordinator.rs:189-247 | one round of the prewrite loop, for any primary key: conflict check, lock resolution, value and lock in one batch |
| `Coordinator.TransactionCoordinator.Prewrite` | crates/txn-coordinator/src/coordinator.rs:174-250 | the whole loop answers and changes the store as the prewrite function, stopping at the first refusal |
| `Coordinator.TransactionCoordinator.Commit` | crates/txn-coordinator/src/coordinator.rs:253-301 | refuses unless the first key is held, then commits it and every other key still held |
| `Coordinator.TransactionCoordinator.Rollback` | crates/txn-coordinator/src/coordinator.rs:304-324 | writes a rollback record for every key, dropping the locks of the transaction |
| `Coordinator.TransactionCoordinator.BatchPrewrite` | crates/txn-coordinator/src/coordinator.rs:327-395 | clears locks one by one and lays everything in one batch, or nothing on refusal |
| `Coordinator.TransactionCoordinator.BatchCommit` | crates/txn-coordinator/src/coordinator.rs:398-427 | commits in one batch every listed key the transaction holds |
| `Protocol.SoundStep` | crates/txn-coordinator/src/coordinator.rs:192-320 | every enabled batch keeps each record at its transaction's commit or start timestamp, and no key both locked by a transaction and recorded for it |
| `Protocol.PrimaryDecidesStep` | crates/txn-coordinator/src/lock_resolver.rs:101-145 | every batch legal under PrimaryFirst of a transaction keeps all its records in line with its primary's, its locks' primary accounted for, and the primary not both committed and rolled back |
| `Protocol.FirstCommitterStep` | crates/txn-coordinator/src/coordinator.rs:192-298 | every batch legal under FreshLocks keeps commits on a key apart and every lock holder above the commits on its key |
| `Protocol.FateStep` | crates/txn-coordinator/src/coordinator.rs:200-207 | a key once touched by a transaction stays touched, and one with its rollback and no commit never gets the commit |
| `Runs.SnapshotRun` | crates/storage/src/mvcc/reader.rs:44-75 | over every legal run under SnapshotAt, what was committed on a quiet key at or below the snapshot, and its values, stay the same |
| `Resolver.StatusScan` | crates/txn-coordinator/src/lock_resolver.rs:44-67 | on a sound store the status scan finds a record of the transaction exactly when it committed or rolled back there, the commit first |
| `Resolver.ConflictScan` | crates/txn-coordinator/src/coordinator.rs:192-211 | a prewrite passes the conflict check exactly when every record on the key is older than it, is told it was rolled back exactly when its own rollback is the newest record, and of a write conflict exactly when a record is newer, or as old and not its own rollback |
| `Resolver.ResolveDecides` | crates/txn-coordinator/src/lock_resolver.rs:101-145 | resolving a lock is a case split on the primary's commit, rollback, lock and expiry, with no scan |
| `Resolver.ExpiredExactly` | crates/txn-coordinator/src/lock_resolver.rs:72-79 | a lock has expired exactly when the wall clock is past the physical part of its start plus its time to live, less 2^64 where that does not fit |
| `Resolver.DeadlineOfStamp` | crates/txn-coordinator/src/hlc.rs:12-21 | a lock taken at a stamp of the clock lives until the stamp's physical time plus its time to live, to the millisecond |
| `Answers.StatusExactly` | crates/txn-coordinator/src/lock_resolver.rs:36-98 | a status check answers the commit if there is one, the time to live of a held lock exactly up to its deadline, and RolledBack otherwise; it changes only a lock past its deadline, into a rollback record |
| `Answers.ResolveExactly` | crates/txn-coordinator/src/lock_resolver.rs:101-145 | a lock is left alone exactly when its primary is held and neither is past its deadline; otherwise it becomes the primary's commit or a rollback, together with a primary past its deadline, and nothing else changes |
| `Answers.GetExactly` | crates/txn-coordinator/src/coordinator.rs:104-125 | a get answers KeyLocked exactly when the lock in its way, given 3000 milliseconds, is alive, and then changes nothing; otherwise it resolves that lock as a Put and answers what the newest commit at or below its timestamp denotes in the store left behind |
| `Answers.GetAnswersExactly` | crates/txn-coordinator/src/coordinator.rs:104-125 | with all values present, a get answers KeyLocked exactly when that lock is alive, CorruptedState exactly when it commits a stored Delete as a Put that is then the newest visible record, and a value or nothing in every other case |
| `Answers.PrewriteKeyExactly` | crates/txn-coordinator/src/coordinator.rs:189-247 | a prewrite of a key is refused with WriteConflict exactly when a record is newer, or as old and not its own rollback, with TransactionRolledBack exactly when its own rollback is the newest, and with KeyLocked exactly when all records are older and a foreign lock is alive, and then changes nothing; otherwise value and lock come over the store with the foreign lock resolved |
| `Answers.PrewriteStops` | crates/txn-coordinator/src/coordinator.rs:189-229 | a refused prewrite stops at one mutation, with that one's refusal, in the store the ones before it leave |
| `Answers.PrewriteRounds` | crates/txn-coordinator/src/coordinator.rs:189-247 | in an accepted prewrite every round is accepted in the store it meets |
| `Answers.BatchStops` | crates/txn-coordinator/src/coordinator.rs:343-376 | a refused batched prewrite stops at one mutation, with that one's refusal, in the store with the locks before it cleared |
| `Answers.CommitExactly` | crates/txn-coordinator/src/coordinator.rs:253-301 | on any store, a commit is accepted exactly when it lists nothing or its first key is held, and then turns exactly the held keys of the list into commit records; otherwise it answers TransactionRolledBack and changes nothing |
| `Answers.CommitAnswers` | crates/txn-coordinator/src/coordinator.rs:253-301 | on stores of the protocol: accepted leaves the first key committed and no listed key held, refused finds the first key not held |
| `Answers.BatchCommitExactly` | crates/txn-coordinator/src/coordinator.rs:398-427 | a batched commit turns exactly the held keys of the list into commit records |
| `Answers.RollbackExactly` | crates/txn-coordinator/src/coordinator.rs:304-324 | a rollback leaves its record on every listed key, drops the transaction's locks there, and changes nothing else |
| `Scans.ScanExactly` | crates/txn-coordinator/src/coordinator.rs:128-171 | a scan is a run of gets, in key order, of keys in range that a record leads to; it answers their first error or the pairs they find, stops with that error or a full page, and otherwise has asked for every such key |
| `Scans.ScanIsGets` | crates/txn-coordinator/src/coordinator.rs:145-168 | on any keys, a scan leaves the store that a run of gets at its snapshot leaves and answers their page, so the guarantees cover scans |
| `Calls.CallLegal` | crates/txn-coordinator/src/coordinator.rs:70-427 | every call permitted under a rule, complete or cut off between batches, amounts to a sequence of batches each legal under the rule |
| `Calls.TraceAgrees` | crates/txn-coordinator/src/coordinator.rs:174-427 | that sequence leaves the store the call leaves: batched calls leave the store of their one-by-one forms, and within a call that is not cut off the place of the primary in the list does not matter |
| `Calls.RunLegal` | crates/txn-coordinator/src/coordinator.rs:70-427 | over every run of permitted calls soundness and the rule's invariant are kept |
| `Calls.SinglesAgree` | crates/txn-coordinator/src/coordinator.rs:189-324 | an accepted prewrite or commit, and any rollback, leaves the store that the same calls made key by key leave |
| `Theorems.Atomicity` | crates/txn-coordinator/src/coordinator.rs:174-324 | over every run in which the calls that touch a transaction keep PrimaryFirst for it: if it has any commit record, it is at its one commit timestamp, none of its keys is rolled back, and every key it prewrote is committed there or still locked |
| `Theorems.ResolveKeepsAtomicityExactly` | crates/txn-coordinator/src/lock_resolver.rs:101-145 | resolving a lock keeps the primary in charge exactly when the lock is its own primary's, the primary's lock is gone or expired, or the lock itself has not expired |
| `Theorems.LockConservation` | crates/txn-coordinator/src/coordinator.rs:192-320 | over every run, a prewritten key is locked by its transaction or holds its record, and never both |
| `Theorems.CommittedForever` | crates/txn-coordinator/src/lock_resolver.rs:44-98 | once a status check answers Committed at a timestamp, it always will, even after client rollbacks |
| `Theorems.RolledBackForever` | crates/txn-coordinator/src/lock_resolver.rs:44-98 | once a key holds a rollback and no commit of a transaction, it is never again locked or committed by it |
| `Theorems.NoOrphans` | crates/txn-coordinator/src/lock_resolver.rs:69-98 | over every such run, a lock of the transaction has its primary locked or recorded, so resolution never rests on a missing record |
| `Theorems.FirstCommitterWins` | crates/txn-coordinator/src/coordinator.rs:192-298 | over every run under FreshLocks, of two commits on a key the later one started after the earlier one committed |
| `Theorems.RepeatableRead` | crates/txn-coordinator/src/coordinator.rs:104-125 | two answered gets at one snapshot agree, whatever permitted calls come between |
| `Theorems.NeverCorrupted` | crates/storage/src/mvcc/reader.rs:55-63 | over every run under StoredOps, no read finds a commit record without its value |
| `Theorems.PrewriteLays` | crates/txn-coordinator/src/coordinator.rs:231-246 | an accepted prewrite leaves on each key the lock and value of the last mutation on it |
| `Theorems.HeartbeatKeepsAlive` | crates/txn-coordinator/src/coordinator.rs:81-101 | a heartbeat is accepted exactly when the transaction holds the lock; a status check then answers Locked with the new time to live exactly up to the physical time of the start plus that, in 64 bits, and no other lock changes |
| `Theorems.RollbackReleases` | crates/txn-coordinator/src/coordinator.rs:304-324 | every named key ends with the rollback record and without the transaction's lock; locks of others and all values stay |
| `Written.WrittenIsRead` | crates/txn-coordinator/src/coordinator.rs:174-301 | after an accepted prewrite and any further calls under TrueOps that do not prewrite the key again: once the key is committed, by whomever, an unblocked read at the commit timestamp answers the last value put, or nothing after a delete |
| `Written.CommittedIsRead` | crates/txn-coordinator/src/coordinator.rs:174-301 | in particular after an accepted commit of a key still held, with any such calls before and after it |
| `GcRuns.EventsKeep` | crates/storage/src/engine.rs:87-124 | over every run of calls and collections, soundness and the rule's invariant are kept, for every rule; the collections must take no kept commit's value under StoredOps, and stay at or below the transaction's start under PrimaryFirst |
| `GcRuns.GcKeepsValuesExactly` | crates/storage/src/engine.rs:105-114 | a collection leaves every commit its value exactly when no kept Put shares its transaction with a collected record |
| `GcRuns.FirstCommitterWinsWithGc` | crates/storage/src/engine.rs:87-124 | first committer wins over runs with collections anywhere |
| `GcRuns.NeverCorruptedWithGc` | crates/storage/src/engine.rs:87-124 | no read finds a commit without its value over runs whose collections take no kept commit's value |
| `GcRuns.NeverBothWithGc` | crates/storage/src/engine.rs:87-124 | no key is both locked by a transaction and recorded for it, with collections anywhere |
| `GcRuns.AtomicityWithGc` | crates/storage/src/engine.rs:87-124 | atomicity of a transaction over runs with collections whose safe points do not exceed its start |
| `GcRuns.NoOrphansWithGc` | crates/storage/src/engine.rs:87-124 | its locks' primary stays accounted for over the same runs |
| `GcRuns.VerdictForeverWithGc` | crates/txn-coordinator/src/lock_resolver.rs:44-98 | a Committed answer, and a RolledBack one that rests on a record, is final over runs of any clients with such collections |
| `GcRuns.RepeatableReadWithGc` | crates/storage/src/engine.rs:87-124 | two answered gets at one snapshot agree, with calls between them and collections at or below the snapshot that are safe for the key where they happen |
| `Discipline.KeepsPrimaryExactly` | crates/txn-coordinator/src/coordinator.rs:253-427 | a complete commit, batched commit, rollback, heartbeat, status check, resolution or read keeps a transaction's primary in charge exactly when it has no effect or: a commit finds the primary committed, or lists and finds it held; a rollback finds it rolled back, or lists it and finds it not committed; a status check is of the primary or finds it rolled back; a resolution or read finds the lock covered by its primary |
| `Discipline.PrewriteKeepsPrimaryExactly` | crates/txn-coordinator/src/coordinator.rs:189-247 | an accepted prewrite of a key keeps a transaction's primary in charge exactly when, if it is the transaction's own, it names the planned primary and is on it or finds it touched, and, if it clears the transaction's lock, that lock is covered |
| `Discipline.OwnPrewriteKeepsPrimaryExactly` | crates/txn-coordinator/src/coordinator.rs:174-250 | an accepted prewrite of a list keeps its own transaction's primary in charge exactly when it names the planned primary, and that is on the list or already touched |
| `Limits.PrewriteKeepsFirstCommitterExactly` | crates/txn-coordinator/src/coordinator.rs:217-229 | an accepted prewrite keeps the first-committer invariant, locks included, exactly when the lock in its way is not committed at or above its start |
| `Limits.CommitsApartExactly` | crates/txn-coordinator/src/coordinator.rs:217-246 | once an accepted prewrite's key is committed, all commits obey first-committer-wins exactly when it did not roll forward, past its own start, a lock taken before its commit timestamp |
| `Limits.GetCorruptsExactly` | crates/txn-coordinator/src/coordinator.rs:108-122 | with all values present, a get answers CorruptedState exactly when it commits a stored Delete as a Put that is then the newest visible record |
| `Witnesses.TwoPhaseCommitKeepsAllRules` | crates/txn-coordinator/src/coordinator.rs:174-301 | a prewrite and commit of two keys is permitted under every rule and commits both, so the hypotheses of the guarantees can be met |
| `Witnesses.ExpiredSecondaryBreaksAtomicity` | crates/txn-coordinator/src/lock_resolver.rs:125-137 | prewrite, heartbeat, resolve, commit: one key ends committed and the other rolled back |
| `Witnesses.RollbackAfterCommitBreaksAtomicity` | crates/txn-coordinator/src/coordinator.rs:304-324 | prewrite, commit, rollback: the primary ends both committed and rolled back |
| `Witnesses.CommitWithoutPrimaryBreaksAtomicity` | crates/txn-coordinator/src/coordinator.rs:253-281 | a commit of the secondary alone, then a rollback of the primary: committed and rolled back in part |
| `Witnesses.BatchCommitBreaksAtomicity` | crates/txn-coordinator/src/coordinator.rs:412-423 | the primary expires and is rolled back, and a batched commit still commits the secondary |
| `Witnesses.SecondaryFirstBreaksAtomicity` | crates/txn-coordinator/src/lock_resolver.rs:96-97 | a secondary prewritten first is reported rolled back without a record, resolved on that, and its primary commits |
| `Witnesses.RollForwardLosesUpdate` | crates/txn-coordinator/src/coordinator.rs:217-229 | a run from the empty store that ends with two commits on a key of which the later started before the earlier committed |
| `Witnesses.InventedPutCorruptsRead` | crates/txn-coordinator/src/coordinator.rs:112-119 | a run from the empty store after which a get turns a committed Delete into a Put and answers CorruptedState |
| `Witnesses.ExtensionLosesCommit` | crates/txn-coordinator/src/lock_resolver.rs:45-67 | a run that commits a key and then its extension: the first transaction is reported rolled back, and an older prewrite passes the conflict check |
| `Witnesses.CollectionCorruptsRead` | crates/storage/src/engine.rs:105-114 | prewrite, commit, rollback, collection: the read of the committed value turns into CorruptedState |
| `Witnesses.CollectionLosesValue` | crates/storage/src/engine.rs:105-114 | prewrite, commit, rollback by a later transaction, collection: the read of the committed value turns into nothing |
| `Witnesses.ScanMissesLockedKey` | crates/txn-coordinator/src/coordinator.rs:145-168 | a run after which, at the commit timestamp of a transaction that wrote two keys, a get of the second answers its value and a scan of everything returns the first alone |
| `Batch.BatchPrewriteRefines` | crates/txn-coordinator/src/coordinator.rs:327-395 | on every store and list, under the same clock, the batched prewrite answers as the plain one, and a success leaves the same store |
| `Batch.RefusedBatchLeavesNothing` | crates/txn-coordinator/src/coordinator.rs:343-376 | a refused batched prewrite leaves the locks and values of its own start timestamp exactly as they were |
| `Batch.BatchCommitRefines` | crates/txn-coordinator/src/coordinator.rs:398-427 | batched and plain commit leave the same store exactly when the list is empty, its first key is held, or no listed key is held; duplicates included |
| `RangeScan.ScanIsPage` | crates/txn-coordinator/src/coordinator.rs:128-171 | when no key in range that has a record answers an error, a scan is the ascending limit-prefix of the pointwise reads with a value, and changes nothing |
| `RangeScan.PageUnique` | crates/txn-coordinator/src/coordinator.rs:128-171 | that page is determined by the store |
| `Gc.CollectedAreShadowed` | crates/storage/src/engine.rs:93-117 | on any keys, only versions with a newer version of the same key below the safe point are collected |
| `Gc.ShadowedAreCollected` | crates/storage/src/engine.rs:93-117 | on separate keys all such versions are |
| `Gc.GcPreservesReadsExactly` | crates/storage/src/engine.rs:87-124 | reads of a key from just below the safe point on are unchanged exactly when a kept rollback covers no value and no kept Put shares its transaction with a collected record |
| `Gc.GcPreservesReads` | crates/storage/src/engine.rs:87-124 | on reachable stores, with no rollback newest below the safe point and no transaction both committed and rolled back on the key, those reads are unchanged |
| `Gc.GcKeepsLockedValues` | crates/storage/src/engine.rs:109-113 | the value under a live lock survives every collection, whatever the safe point |
| `Gc.GcKeepsStatus` | crates/storage/src/engine.rs:87-124 | with the safe point at or below a lock's start, the status of its primary is unchanged |
| `Gc.GcKeepsSound` | crates/storage/src/engine.rs:87-124 | a collection keeps the store sound and removes exactly the shadowed versions and their values |
| `Gc.GcCounts` | crates/storage/src/engine.rs:87-124 | on any keys, the count a collection answers is the number of records gone |
| `Gc.GcLosesValueUnderRollback` | crates/storage/src/engine.rs:105-114 | for every key and timestamps: a rollback above the last commit, both below the safe point, is kept and the value beneath it lost |
| `Gc.GcLosesValueUnderCommit` | crates/storage/src/engine.rs:105-114 | for every key and timestamps: on a key its transaction both committed and rolled back, the collection takes the rollback and with it the value of the commit it keeps |
| `Regions.StatsAddUp` | crates/storage/src/engine.rs:161-192 | byte totals add up across every split, and key counts do for separate keys, where they count distinct keys |
| `Regions.BytesAreTotal` | crates/storage/src/engine.rs:161-192 | the bytes of a range are the sum over its stored versions of the key's length and 17 |
| `Regions.MedianSplitsEvenly` | crates/storage/src/engine.rs:195-207 | a median exists exactly when there are two keys; it lies strictly inside the range, with half the keys, rounded down, below it |
| `Routing.ExactlyOne` | crates/raft-engine/src/router.rs:46-49 | in a gapless table every key lies in exactly one region |
| `Routing.RouteIsUnique` | crates/raft-engine/src/router.rs:79-87 | routing returns that region |
| `Routing.MedianIsAccepted` | crates/node/src/service.rs:158-184 | a split at the median is never refused |
| `Routing.SplitKeepsTilingExactly` | crates/raft-engine/src/router.rs:103-134 | a split leaves a table that tiles the key space exactly when its new id is not in use |
| `Routing.EarlyIdsAreFresh` | crates/node/src/server.rs:76-82 | the first 2^64 - 2 requests all get unused ids |
| `Routing.RouterPartitions` | crates/raft-engine/src/router.rs:79-137 | after any run of split requests on a new node in which every split gets an unused id, both indexes hold the same regions, every key lies in exactly one, routing returns it, and there is one region more than the epochs count splits |
| `Routing.SplitExactly` | crates/raft-engine/src/router.rs:107-134 | the left half keeps the id and counts one split more, the right one takes the new id and version 1, both keep peers and configuration version, and no other region changes in either index |
| `Routing.VersionsCountSplits` | crates/raft-engine/src/router.rs:109-129 | after any run of split requests on a new node, every region has the node's peers, and its version is one more than the times it was split |
| `Routing.SplitRefusedExactly` | crates/raft-engine/src/router.rs:98-105 | a split is refused for the region exactly when the id is unknown, and for the key exactly when it is not strictly inside |
| `Routing.RegionRouter.constructor` | crates/raft-engine/src/router.rs:61-66 | a new router holds no region in either index |
| `Routing.RegionRouter.InsertRegion` | crates/raft-engine/src/router.rs:68-73 | both indexes receive the region |
| `Routing.RegionRouter.RouteKey` | crates/raft-engine/src/router.rs:79-87 | the reverse loop answers as the routing function |
| `Routing.RegionRouter.SplitRegion` | crates/raft-engine/src/router.rs:89-137 | refuses with the right error and no change, or replaces the region by its two halves in both indexes |
| `NodeServer.AnswerIsAccepted` | crates/node/src/service.rs:158-184 | a request is answered with two halves exactly when it is accepted; they meet at the key asked for, or at one strictly inside; without a key, exactly when the region holds two keys |
| `NodeServer.RefusedExactly` | crates/node/src/service.rs:139-184 | each refusal exactly when: unknown region, no key asked for and fewer than two stored, or the key asked for not strictly inside; only the last uses up an id |
| `NodeServer.NodeState.constructor` | crates/node/src/server.rs:46-78 | a new node holds one region over the whole key space, served by a Raft node, and hands out ids from 2 |
| `NodeServer.NodeState.AllocRegionId` | crates/node/src/server.rs:80-82 | hands out the counter and advances it, wrapping |
| `NodeServer.NodeState.RequestSplit` | crates/node/src/service.rs:139-218 | splits at the asked or the median key, takes an id only once a key is chosen, answers the two halves or why not, and registers the new Raft node, so that all regions stay served while nodes start |
| `Hlc.DecodeEncodeExactly` | crates/txn-coordinator/src/hlc.rs:12-21 | a stamp decodes to its pair exactly when physical fits 48 bits and logical 16 |
| `Hlc.EncodeOrder` | crates/txn-coordinator/src/hlc.rs:12-14 | on stamps that fit, integer order is the order of the pairs |
| `Hlc.HybridLogicalClock.constructor` | crates/txn-coordinator/src/hlc.rs:35-47 | a new clock shows the wall time with counter 0 |
| `Hlc.HybridLogicalClock.Tick` | crates/txn-coordinator/src/hlc.rs:50-69 | advances the clock and returns its stamp |
| `Hlc.HybridLogicalClock.Receive` | crates/txn-coordinator/src/hlc.rs:72-93 | merges a remote stamp into the clock |
| `Hlc.NowIsLeastExactly` | crates/txn-coordinator/src/hlc.rs:50-69 | a tick shows the least reading after the last one and not behind the wall clock, exactly unless the counter is full and the wall clock has not moved on |
| `Hlc.UpdateIsLeastExactly` | crates/txn-coordinator/src/hlc.rs:72-93 | a merge shows the least reading after the last one and the remote stamp and not behind the wall clock, exactly unless the counter is full and neither of those has moved on |
| `Hlc.Causality` | crates/txn-coordinator/src/hlc.rs:50-93 | over every run with any wall-clock readings, while the fields fit, stamps strictly increase and everything after the receipt of a remote stamp exceeds it |
| `Hlc.TickRaisesStampExactly` | crates/txn-coordinator/src/hlc.rs:50-69 | without the bounds: a tick raises the stamp exactly when the counter's low sixteen bits, or the wall time's low forty-eight, do not wrap |
| `EntryKeys.EntryOrder` | crates/raft-engine/src/store.rs:29-31 | the keys of a region's entries sort by index, both directions, over all of u64 |
| `EntryKeys.RegionsApart` | crates/raft-engine/src/store.rs:21-35 | an entry key has a region's prefix exactly when it is that region's, and state keys never do |
| `EntryKeys.StateKeysApart` | crates/raft-engine/src/store.rs:21-27 | the names of hard and configuration states differ from each other and between regions |
| `RaftLog.AppendGapFreeExactly` | crates/raft-engine/src/store.rs:83-102 | an append leaves no gap exactly when the new entries have none and start no later than right after the last |
| `RaftLog.AppendIsTruncateThenExtend` | crates/raft-engine/src/store.rs:83-102 | below the first new index the log is unchanged, from there on it is the new entries, and nothing follows |
| `RaftLog.ReadsAgree` | crates/raft-engine/src/store.rs:147-185 | range reads and terms agree with the log index by index and fail exactly outside it |
| `RaftLog.EntriesRefusedExactly` | crates/raft-engine/src/store.rs:157-164 | a range read is refused as compacted exactly when it starts below every entry, and otherwise as unavailable exactly when it ends beyond the last, the bound wrapping at 2^64 |
| `RaftLog.TermExactly` | crates/raft-engine/src/store.rs:171-185 | a term is refused as compacted exactly below every entry and as unavailable exactly beyond every entry, and is otherwise that of the entry with the index |
| `RaftLog.FreshLogReads` | crates/raft-engine/src/store.rs:38-70 | a region without entries answers term 0 at index 0 and Unavailable beyond it; one never written has its states at zero |
| `RaftLog.ReloadReadsAll` | crates/raft-engine/src/store.rs:51-63 | a reload's key-ordered scan reads every index ever written, in order, past all other data of the partition |
| `RaftLog.LogSurvivesReloadExactly` | crates/raft-engine/src/store.rs:51-113 | over every run on a fresh region, with restarts and any other writes between, the vector has no gap, the disk holds every entry, and a reload gives the log back exactly when its end is the highest index ever written |
| `RaftLog.CutEntryComesBack` | crates/raft-engine/src/store.rs:95-110 | a run of two appends after which a restart brings a cut entry back |
| `RaftLog.ExtendingSurvivesReload` | crates/raft-engine/src/store.rs:51-113 | a run in which no append cuts the log survives a reload |
| `RaftLog.LoadEntries` | crates/raft-engine/src/store.rs:51-70 | the loop that opens a log computes the reload |
| `RaftLog.RaftStorage.constructor` | crates/raft-engine/src/store.rs:38-81 | opens with the reloaded entries and the stored hard and configuration state |
| `RaftLog.RaftStorage.Append` | crates/raft-engine/src/store.rs:83-113 | refuses below the base with no change; otherwise the vector and the disk change as specified |
| `RaftLog.RaftStorage.SetHardState` | crates/raft-engine/src/store.rs:115-124 | the hard state is kept in memory and is what a reopening reads, and no other stored state changes |
| `RaftLog.RaftStorage.SetConfState` | crates/raft-engine/src/store.rs:126-135 | the configuration state is kept in memory and is what a reopening reads, and no other stored state changes |
| `RaftLog.RaftStorage.Entries` | crates/raft-engine/src/store.rs:147-169 | answers the range of the vector or the right error, on every log and range on which the source does not panic |
| `RaftLog.RaftStorage.Term` | crates/raft-engine/src/store.rs:171-185 | answers the term at an index or the right error |
| `RaftLog.RaftStorage.FirstIndex` | crates/raft-engine/src/store.rs:187-190 | the readable log goes exactly from this index to the last one, below the 64-bit end |
| `RaftLog.RaftStorage.LastIndex` | crates/raft-engine/src/store.rs:192-195 | the last index is in the log and none above it is |

## Left out

- Fjall itself, journaling and I/O errors: a partition is a finite map with ordered iteration, a batch always succeeds.
- Threads inside one call: other calls may come between the keys of a call, but not into the work on one key.
- Records and locks that fail to decode: the branches are in the methods, but no call writes such bytes, so the typed store has none.
- Routing.RouterPartitions: epoch versions are unbounded; the 64-bit versions of the source would wrap only after 2^64 splits of one region.
- Collisions in the default partition between user values and Raft keys: the coordinator model treats whatever decodes as a version as its value, and the Raft model requires that nobody else writes under a region's prefix.
- Atomicity and final verdicts of a transaction over runs with collections above its start: such a collection removes the very records they speak of; what it keeps is in `Gc`.
- TransactionCoordinator.begin: one call of the clock.
- The Raft consensus algorithm, snapshots and the multi-Raft node: they live in an external library or only call it.
- Protobuf encodings: parsing and writing are an inverse pair.
- The older region module under crates/raft-engine/src/region, which the crate does not export.
- gRPC services other than the split request, the client, the batch collector, configuration, logging and benchmarks: plumbing.
