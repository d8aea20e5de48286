# A model of the serverless database runtime

This project models the Rust core of a database server that keeps one SQLite database per project
on local disk and makes it durable in an object store. It proves, for all runs and all inputs, what
the design relies on:

- **The durable write path.** One writer per project runs a batch of jobs, ships the new WAL bytes as a
  segment object, overwrites one manifest object, and only then answers. Now and then it compacts. The
  steps between store operations form a state machine (`Protocol`) in which a crash may follow any step
  and any PUT may fail. `ProtocolSteps` proves its invariant step by step, `ProtocolTheorems` what
  follows, and `WriteRuntime` is the imperative code, each of whose store operations is one step of the
  machine. `WriterLoop` is the thread that feeds it, `Answers` what its clients are told.
- **Reads by bookmark** on replicas and stale runtimes, while the primary moves on (`Reads`), and one read
  after another (`RepeatedReads`).
- **Exactly once:** when a key's mutation and its idempotency row are in the log together (`Database`,
  `ExactlyOnce`).
- **The writer lease**, created, renewed or taken over by any number of runtimes, one store operation at a
  time (`Leases`, `LeaseRuntime`).
- **Queries and policies** compiled to SQL text, read back by a parser with SQL's precedence and evaluated
  with three-valued logic (`Sql`, `Policy`, `PolicyProofs`, `Postgrest`, `QueryParams`); what each rule and
  each parameter says is stated once more in terms of its text alone (`PolicyMeaning`, `QueryTexts`).
- **Refresh-token sessions** over two tables (`AuthTables`, `AuthStoreRuntime`).
- **Smaller exact pieces:** the sliding-window rate limiter, ordered keys and the restore that depends on
  them, calendar arithmetic, the read URI, and the forwarding retry loop.

`dafny verify dfyconfig.toml` checks everything.

## Assumptions

- On the write path a PUT takes effect and returns Ok, or fails without effect; a crash may follow any
  effect. A prefix delete may stop half way. Reads may fail at any time. In a lease race a PUT may also fail
  with effect, and a runtime may stop anywhere.
- The WAL only grows within a generation (auto-checkpoint is off, rust-core/src/runtime.rs:3870). SQLite is
  an append-only log of transactions on top of a base snapshot; recovery reads whole transactions.
- SHA-256 is injective.
- Writers form one lineage: each opens from the latest manifest.
- A job that changed rows says so (`HonestJob`). `AuthTables.FlagIsHonest` proves this for the session
  operations; for plain table writes it is SQLite's affected-row count. A job that is
  rejected may have changed rows all the same: an object delete commits them before the object store's delete
  can fail (rust-core/src/runtime.rs:3307-3316).
- Runtimes that race for a lease have their own ids and clocks less than one TTL apart, and each reads its
  clock once. Fencing tokens stay below the largest 64-bit number.
- In the rate limiter and the session store the clock does not go back.

## Where the code does less than it seems to promise

- The sequence is advanced before the flush manifest is stored (rust-core/src/runtime.rs:3535), so after a
  failed manifest PUT a retry can be answered Ok for a write that a crash then loses. `FailedManifestReplays`
  gives the exact condition, `LostWriteExists` the run.
- The other way round, a failed segment PUT followed by a compaction leaves a write durable whose retry is
  refused with 425 until the next good flush (`RefusedRetry`, `DurableRowIsRefused`).
- A filter whose top node is an OR of two or more parts is joined to the policy without parentheses
  (rust-core/src/runtime.rs:3703-3707). `OpenOrEscapesPolicy` gives the exact condition; by
  `ParseQueryParams` it takes a query whose only filter is an `or` with a comma.
- The two forms of a policy differ on nulls and booleans: SQL takes null as equal to nothing and stores
  booleans as integers. `TestVerdicts`, `RuleVerdicts` and `PoliciesAgree` give the exact rows, in both
  directions.
- A keyed job that fails after it changed rows leaves them without an idempotency row, so its retry runs
  again. `ExecKeepsExactlyOnce` gives the exact condition, `TornWriteIsDurable` the runs.
- A lease race can end with two runtimes answered Ok, or with none. `OneWinnerIffClaimsStand` is the exact
  condition; the failing families are collected claims (`CollectionAllowsTwoWinners`,
  `CollectionFailsARuntime`), a runtime's own claim from an attempt that stopped
  (`OwnClaimAllowsTwoWinners`), a renewal beside a takeover (`RenewalAllowsTwoWinners`) and four expired claims
  in a row (`FourClaimsStopEverybody`).
- A read answers with a bookmark that a later read may reach without seeing as much: `ReadsAreMonotone` is the
  exact condition, `CompactionRepeatsNumber` one way to miss it.
- Once the 64-bit sequence saturates, a version can carry a bookmark and lack its write.
  `BookmarkIsTrustworthy` is the exact condition, `SaturatedBookmarkMisses` a run.
- Reusing a session id breaks the chain of a session's tokens (`IssueKeepsInv`), and leaves two usable tokens
  exactly when the session had one (`IssueKeepsOneToken`); the server draws fresh ids.
- An empty OR compiles to `1=1`, so it accepts every row; the model follows the code.

## Model

| member | source | states |
|---|---|---|
| Database.VacuumKeepsLog | rust-core/src/runtime.rs:3428-3431 | a snapshot file holds exactly the transactions of the live log |
| Database.CommittedConcat | rust-core/src/runtime.rs:3507-3522 | what recovery reads from appended WAL bytes is what it reads from the parts, one after the other |
| Database.ExecAppends | rust-core/src/runtime.rs:2461-2489 | the WAL bytes of one job hold its row changes and then its idempotency row, and nothing when it does not run |
| Database.ExecKeepsAccounts | rust-core/src/runtime.rs:2461-2553 | whatever job runs on a database, rejected ones included, every key keeps at most one row, with its mutation there exactly when the row says so, beside those of jobs that failed after changing rows |
| Database.ExecKeepsExactlyOnce | rust-core/src/runtime.rs:2461-2553 | a key that has its mutation and row together and once keeps them so if and only if the job is not one of that key which changes rows and is then answered with an error |
| Database.RetryIsReplayed | rust-core/src/runtime.rs:2491-2531 | a retry with the stored key and hash changes nothing and gets the stored response, unchanged |
| Database.StoredKeyRefuses | rust-core/src/runtime.rs:2513-2529 | a stored key sent with another request's hash gets 409, and a row that is ahead of the counter 425; neither adds anything |
| Database.KeysInPlain | rust-core/src/runtime.rs:3898-3924 | a key that is not 1 to 256 letters, digits and `-_.:` around which blanks are dropped, or whose hash is not 64 hex digits, gets 400 and adds nothing; every other one is accepted |
| Database.WithBookmarkCarries | rust-core/src/runtime_utils.rs:44-52 | however often it is added, the answer is the value's own fields, or the value under `value`, with exactly that bookmark |
| Storage.RestoreFailsClosed | rust-core/src/runtime.rs:1355-1425 | for any store, however damaged, restore succeeds exactly when the manifest is contiguous and everything it names is intact, and then it yields exactly the shipped bytes, as many as the manifest says |
| Storage.RestoreTail | rust-core/src/runtime.rs:1366-1425 | from any segment on, the restore loop succeeds exactly when the rest of the chain is intact and in order |
| Storage.ObjectStore.Put | rust-core/src/object_store.rs:132-151 | a PUT stores the object or changes nothing |
| Storage.ObjectStore.DeleteWalPrefix | rust-core/src/object_store.rs:215-221 | deleting the WAL prefix may stop half way and removes nothing but segments |
| ProtocolSteps.ManifestRestores | rust-core/src/runtime.rs:1355-1425 | a stored manifest that meets the invariant always restores, to the log the writer shipped |
| ProtocolSteps.RunJobsOk | rust-core/src/runtime.rs:2391-2402 | running a batch on the live database keeps keys exactly-once, adds only after the old log, and leaves every committed slot's transactions where the slot says |
| ProtocolSteps.ExecuteKeeps | rust-core/src/runtime.rs:2391-2402 | committing a batch locally keeps the invariant of the write path |
| ProtocolSteps.ShipKeeps | rust-core/src/runtime.rs:3514-3535 | storing the new bytes under the next segment id, or failing to, keeps the invariant, although the key may hold an orphan |
| ProtocolSteps.PutManifestKeeps | rust-core/src/runtime.rs:3536-3536 | publishing the counters after the segment, or failing to, keeps the invariant |
| ProtocolSteps.SnapshotKeeps | rust-core/src/runtime.rs:3428-3441 | uploading the next generation's snapshot touches nothing the manifest names |
| ProtocolSteps.SwitchKeeps | rust-core/src/runtime.rs:3442-3461 | the manifest with the new snapshot and an empty chain names the same log as before |
| ProtocolSteps.SwapKeeps | rust-core/src/runtime.rs:3463-3478 | replacing the local files and resetting the counters keeps the live log |
| ProtocolSteps.DeleteKeeps | rust-core/src/runtime.rs:3479-3481 | deleting any part of the old segments takes nothing away from the new manifest |
| ProtocolSteps.OpenKeeps | rust-core/src/runtime.rs:1516-1592 | a project opened from the manifest meets the invariant: counters, next segment id and log fit the store |
| ProtocolSteps.StepKeepsInv | rust-core/src/runtime.rs:2360-2439 | every single step of the write path, of compaction, of an open, and a crash at any point, keeps the invariant |
| ProtocolSteps.RunKeepsInv | rust-core/src/runtime.rs:2360-2439 | so it holds in every state of every run |
| ProtocolTheorems.AckedWritesSurvive | rust-core/src/runtime.rs:2360-2439 | in every run, recovery from the stored manifest succeeds and contains every job ever answered Ok, with all its transactions, at its place |
| ProtocolTheorems.RecoveryFindsDurableLog | rust-core/src/runtime.rs:1516-1592 | recovery from the stored manifest yields exactly the log published last |
| ProtocolTheorems.ReopenRestores | rust-core/src/runtime.rs:1516-1592 | a crash followed by an open gives a project that holds exactly the durable log and its sequence number |
| ProtocolTheorems.CrashPoints | rust-core/src/bin/crash_matrix.rs:141-216 | a crash before the flush manifest recovers exactly what was published, and every committed job of the batch lies past its end; from that PUT on, and from a compaction's manifest on, it recovers the whole live log |
| ProtocolTheorems.LiveFacts | rust-core/src/runtime.rs:2360-2439 | in every phase the durable log is a part of the live one, whose keys are exactly-once and whose rows never run more than one flush ahead |
| ProtocolTheorems.DurableLogGrows | rust-core/src/runtime.rs:2360-2439 | over any run nothing published or acknowledged is taken back, and the durable log only grows |
| ProtocolTheorems.OnlyTargetsChange | rust-core/src/runtime.rs:3419-3536 | a step changes no object but the ones its PUT or delete is aimed at |
| ProtocolTheorems.NamedKeysAreSpared | rust-core/src/runtime.rs:3419-3536 | no PUT or delete is ever aimed at an object the stored manifest names, although segment ids restart at 0 and orphan keys are written again |
| ProtocolTheorems.ReferentialIntegrity | rust-core/src/runtime.rs:3497-3536 | in every reachable state the stored manifest's objects exist with their length and hash, its segments are numbered and placed from 0, and they add up to the durable bytes |
| ExactlyOnce.AlwaysExactlyOnce | rust-core/src/runtime.rs:2461-2553 | in every live and every recovered state of every run a key's mutation and idempotency row are there together and once, exactly unless the log holds the changes of a job of that key that was answered with an error; so in every run without such a job |
| ExactlyOnce.StepKeepsClean | rust-core/src/runtime.rs:2461-2489 | no step but running such a job brings its changes into the live log or a published one |
| ExactlyOnce.TornWriteIsDurable | rust-core/src/runtime.rs:3289-3325 | from any settled state every keyed job that fails after it changed rows leaves them durable without an idempotency row once the batch it is in is flushed, and its retry runs again and changes them again |
| ExactlyOnce.TornWriteExists | rust-core/src/runtime.rs:3307-3316 | so for every such job with a valid key some run from the empty store breaks exactly-once |
| ProtocolTheorems.AckedRetryIsReplayed | rust-core/src/runtime.rs:2392-2438 | a retry of an acknowledged keyed job, after any other jobs of its batch, changes nothing and returns the acknowledged response |
| ProtocolTheorems.ReplaysAreRows | rust-core/src/runtime.rs:2491-2531 | every keyed retry that would be answered Ok without running finds the same row in the durable log, exactly when no row past the durable log is ready to be replayed |
| ProtocolTheorems.ReplayOkIsDurable | rust-core/src/runtime.rs:2491-2531 | in runs where no flush manifest PUT failed every such retry is durable; with a saturated counter, exactly while no row waits for a flush |
| ProtocolTheorems.FailedManifestReplays | rust-core/src/runtime.rs:3535-3536 | after a failed flush manifest PUT every such retry is durable exactly when the unpublished bytes contain no idempotency row |
| ProtocolTheorems.RefusedRetry | rust-core/src/runtime.rs:2506-2531 | a retry gets 425 exactly when its row was written for the next flush |
| ProtocolTheorems.DurableRowIsRefused | rust-core/src/runtime.rs:3514-3522 | after a failed segment PUT and a compaction the row is durable and its retry still gets 425 |
| ProtocolTheorems.ReplayedThenLost | rust-core/src/runtime.rs:3535-3536 | from any idle state in step, a new keyed job whose manifest PUT fails is answered Ok when retried and is gone after a crash and an open |
| ProtocolTheorems.FirstOpenIsReady | rust-core/src/runtime.rs:1594-1641 | the first open of a project ends idle, empty, published once, and in step |
| ProtocolTheorems.LostWriteExists | rust-core/src/runtime.rs:3535-3536 | such a lost replay happens in an actual run from the empty store, for every keyed job that SQLite accepts |
| ProtocolTheorems.GoodFlushAdvances | rust-core/src/runtime.rs:2403-2438 | a batch whose flush goes well publishes one version, acknowledges its job there and advances the sequence by one |
| ProtocolTheorems.EveryMarkIsReached | rust-core/src/runtime.rs:3535-3535 | every 64-bit sequence number is reached by some run |
| WriteRuntime.ProjectRuntime.ExecuteWriteBatch | rust-core/src/runtime.rs:2360-2439 | something went wrong, all clients get one error and nothing is committed; or every job runs and each client is told, job by job: 400, 409 or 425 for its key, the stored response with its own bookmark, SQLite's error, the value as it is when nothing is flushed, the flush error, or the value with the new sequence as its bookmark, which is durable and acknowledged under that sequence. A flush fails only if something went wrong |
| Answers.FailedFlushAnswersErrors | rust-core/src/runtime.rs:2427-2438 | when the flush fails no committed job of the batch is answered Ok |
| Answers.BatchTold | rust-core/src/runtime.rs:2427-2438 | the answers of a batch, told of its jobs, the log before each and the sequence before the batch alone |
| Answers.SlotTold | rust-core/src/runtime.rs:2441-2489 | the same for one job |
| WriteRuntime.ProjectRuntime.FlushBatch | rust-core/src/runtime.rs:2403-2414 | a good flush advances the sequence by one, puts the batch into the durable log and acknowledges it; a failed one acknowledges nobody; the live log stays |
| WriteRuntime.ProjectRuntime.RunBatch | rust-core/src/runtime.rs:2391-2402 | the job loop does what running the jobs one after the other does, and counts the committed ones |
| WriteRuntime.ProjectRuntime.ExecuteIdempotentWriteKind | rust-core/src/runtime.rs:2461-2489 | validation, lookup, execution and record give the answer, flag and WAL bytes of the specification; a committed Ok is the job's value with the next sequence as its bookmark, and the row stored last holds that answer and sequence |
| WriteRuntime.ProjectRuntime.DurabilizeWal | rust-core/src/runtime.rs:3497-3563 | Ok means the manifest names the batch and the sequence went up by one; the live log never changes; if nothing goes wrong it is Ok and the next generation is there exactly when compaction was due |
| WriteRuntime.ProjectRuntime.CompactIfDue | rust-core/src/runtime.rs:3547-3575 | compacts exactly when due by operations or by time; a failed compaction is swallowed |
| WriteRuntime.ProjectRuntime.ShipSegmentBytes | rust-core/src/runtime.rs:3504-3535 | the new bytes become one segment, or none when there are none; the counters move only after the PUT |
| WriteRuntime.ProjectRuntime.ShipAndPublish | rust-core/src/runtime.rs:3504-3537 | Ok means the stored manifest is the one of the counters as they now stand |
| WriteRuntime.NeverShrinks | rust-core/src/runtime.rs:3507-3513 | the branch for a shrunken WAL cannot be reached |
| WriteRuntime.ProjectRuntime.PersistSnapshot | rust-core/src/runtime.rs:3419-3495 | the live log and sequence never change; Ok means the next generation with an empty chain; a failed first snapshot leaves no handle |
| WriteRuntime.ProjectRuntime.PublishSnapshot | rust-core/src/runtime.rs:3434-3461 | first the snapshot, then the manifest that names it; a failure leaves the old generation in charge |
| WriteRuntime.ProjectRuntime.ReplaceCache | rust-core/src/runtime.rs:3463-3495 | the local state becomes the fresh generation's, and deleting old segments may fail |
| WriteRuntime.ProjectRuntime.EnsureWalBudget | rust-core/src/runtime.rs:3577-3592 | within budget nothing happens; else Ok means the WAL is within budget, and 507 that the compaction went wrong; nothing is lost |
| WriteRuntime.ProjectRuntime.PutManifest | rust-core/src/runtime.rs:3624-3651 | a newer stored generation is refused with 409; the check after the PUT cannot fire under one writer |
| WriteRuntime.ProjectRuntime.WriteManifest | rust-core/src/runtime.rs:3594-3622 | the published manifest is the counters and the segment list as they stand, or nothing changed |
| WriteRuntime.ProjectRuntime.RestoreManifestWal | rust-core/src/runtime.rs:1366-1425 | the loop over segments with running offset and id computes the restore function, and fails when a read fails |
| WriteRuntime.ProjectRuntime.ReadVerifiedObject | rust-core/src/runtime.rs:1484-1514 | only bytes with the recorded length and hash come back |
| WriteRuntime.ProjectRuntime.OpenFrom | rust-core/src/runtime.rs:1516-1592 | opening gives exactly the durable log and its sequence; without read faults it cannot fail |
| WriteRuntime.ProjectRuntime.EnsureProject | rust-core/src/runtime.rs:1516-1641 | a published project reopens as exactly its durable log; a new one publishes its first snapshot before anybody gets a handle |
| WriteRuntime.ProjectRuntime.OpenFresh | rust-core/src/runtime.rs:1594-1641 | a new project has a handle only once its first generation is stored |
| WriteRuntime.ProjectRuntime.Hibernate | rust-core/src/runtime.rs:1643-1662 | Ok means the whole live log is durable; the cache goes away either way |
| WriteRuntime.EmptyChainIsDurable | rust-core/src/runtime.rs:1643-1662 | with no WAL the live log is the durable one |
| WriterLoop.ServeQueue | rust-core/src/runtime.rs:2328-2358 | every job that reaches the queue is answered once and in order, and every Ok keeps its meaning: the write is in the durable log and its bookmark is in the answer, or nothing changed, or the answer is the one stored with the key |
| WriterLoop.BatchKept | rust-core/src/runtime.rs:2392-2438 | the same for the jobs of one batch |
| Reads.NewerVersionHasAck | rust-core/src/runtime.rs:3884-3888 | a published version whose sequence has reached an acknowledged bookmark contains that write |
| Reads.VersionsWithAck | rust-core/src/runtime.rs:3884-3888 | the versions that contain an acknowledged write are its own and the later ones |
| Reads.BookmarkIsTrustworthy | rust-core/src/runtime.rs:3535-3535 | every version that has reached a bookmark contains its write if and only if the version before the write had not reached it; below the largest 64-bit number that always holds |
| Reads.SaturatedBookmarkMisses | rust-core/src/runtime.rs:3535-3535 | at that number it fails: a run in which an earlier version carries the acknowledged bookmark and lacks the write |
| Reads.WriterSeesItsWrites | rust-core/src/runtime.rs:822-859 | on the writing runtime every acknowledged write is in the live database, in every phase |
| Reads.VersionSeesAcks | rust-core/src/runtime.rs:822-859 | any version at or past a bookmark shows every write acknowledged up to it |
| Reads.LaterHistory | rust-core/src/runtime.rs:3884-3888 | published sequences never decrease and old versions stay versions |
| Reads.ReadRuntime.RestoreImage | rust-core/src/runtime.rs:1355-1425 | reading objects one by one while the primary compacts and reuses keys gives the manifest's own content or an error |
| Reads.ReadRuntime.RefreshReplicaState | rust-core/src/runtime.rs:891-911 | a replica rehydrates exactly when the manifest is ahead, whatever number was requested; after an Ok refresh its sequence is the larger of the two |
| Reads.ReadRuntime.RehydrateStateFromManifest | rust-core/src/runtime.rs:913-946 | Ok means the manifest's content and sequence; a failure leaves no data and the old sequence |
| Reads.ReadRuntime.Interfere | rust-core/src/runtime.rs:981-1002 | over any number of background refreshes the local sequence never decreases |
| Reads.ReadRuntime.WaitForReplicaBookmark | rust-core/src/runtime.rs:861-880 | the sequence never moves back; an error comes only from a refresh that met a fault or a moving primary; Ok means the number was reached, or time ran out, which is not an error |
| Reads.ReadRuntime.CreateProject | rust-core/src/runtime.rs:1594-1641 | a runtime that may write creates a project nobody has published, under the lease; it has a handle only once the first generation is stored |
| Reads.ReadRuntime.EnsureProject | rust-core/src/runtime.rs:1516-1641 | opens the current version; without one a replica answers 404 and any other runtime creates the project |
| Reads.ReadRuntime.EnsureProjectForRead | rust-core/src/runtime.rs:822-859 | Ok means the local sequence has reached the bookmark; without one a replica, and any handle opened for the read, has reached what was published when the read began; 425 means that even the freshly opened project has not reached the bookmark; with no failed read and a primary at rest nothing that was published is refused |
| Reads.ReadRuntime.ReachBookmark | rust-core/src/runtime.rs:836-858 | the wait on a replica and the second open, with the same promises |
| Reads.ReadRuntime.Read | rust-core/src/runtime.rs:1736-1764 | an Ok read sees one published version: with a bookmark every write acknowledged with it or an earlier one, and everything an earlier read answered with it had seen if that was settled when this read began; without one, on a replica or a fresh handle, every write acknowledged before the read began |
| RepeatedReads.ReadsAreMonotone | rust-core/src/runtime.rs:1736-1764 | what a read saw, on a replica or on the writer, is in every later read that has reached the bookmark it answered, in every run, if and only if none of it was waiting to be published and no version of that number holds less |
| RepeatedReads.SettledInVersions | rust-core/src/runtime.rs:822-859 | a log that is settled for a number is part of every version, now or later, that has reached the number |
| RepeatedReads.SettledStays | rust-core/src/runtime.rs:822-859 | what is settled stays settled while versions are added, so a bookmark may be asked for at any later time |
| RepeatedReads.UnsettledIsLost | rust-core/src/runtime.rs:1736-1764 | from every other state some run leads to a read that has reached the number and misses a part |
| RepeatedReads.CompactionRepeatsNumber | rust-core/src/runtime.rs:3417-3505 | a compaction after a failed flush publishes a longer version under the number of a shorter one, so a read of it is not settled |
| Leases.AtMostOneHolder | rust-core/src/runtime.rs:1162-1302 | in every reachable state of every race without a renewal beside a takeover, an own claim on the way or a collection of a claim in use, stopped runtimes and failed store operations included: at most one runtime holds an Ok, its lease is live by its clock, is the lease object and has a larger token, and no runtime fails over a claim that vanished |
| Leases.TakeoverHasOneWinner | rust-core/src/runtime.rs:1162-1302 | any number of runtimes, any interleaving of their store operations, any collection of claims the race does not depend on: when all have an answer, exactly one Ok with a live lease that is the lease object and has a strictly larger token, all others 423; or all 423 when nobody could take part |
| Leases.OneWinnerIffClaimsStand | rust-core/src/runtime.rs:1101-1302 | that holds in every run if and only if nobody may take over, or: nobody can still renew the old lease, no runtime finds a claim of its own on its way, fewer than four claims are on the way, and none of them can be collected by then, nor the first claim of a runtime while another may still reach it |
| Leases.StepKeepsRace | rust-core/src/runtime.rs:1162-1222 | every store operation of a race keeps: at most one claim at the deciding token, and everybody else behind it or refused |
| Leases.StepsRunOut | rust-core/src/runtime.rs:1162-1222 | every operation brings its runtime closer to the end, so every race ends |
| Leases.CollectKeeps | rust-core/src/runtime.rs:1101-1122 | collecting any other claim keeps the race as it was |
| Leases.StopKeeps | rust-core/src/runtime.rs:1162-1302 | a runtime that stops, or whose store operation fails with or without effect, leaves the race sound |
| Leases.StepKeepsRenewal | rust-core/src/runtime.rs:1273-1278 | while nobody may take over, every operation keeps the lease the old one or the owner's renewal, and lets nobody else get further than a refusal |
| Leases.CollectionAllowsTwoWinners | rust-core/src/runtime.rs:1101-1122 | from every race with two eligible runtimes and such a claim some run ends with both answered Ok, the later one with no larger a token |
| Leases.OwnClaimIsTaken | rust-core/src/runtime.rs:1200-1206 | from every race in which a runtime reaches a claim of its own from an earlier attempt some run answers it Ok for that claim, whose lease is older than a fresh one |
| Leases.OwnClaimAllowsTwoWinners | rust-core/src/runtime.rs:1200-1206 | and with a second eligible runtime some run answers both Ok, the other one with a larger token |
| Leases.RenewalAllowsTwoWinners | rust-core/src/runtime.rs:1273-1278 | from every race in which the owner's clock still reads the lease as live and an eligible runtime's does not some run answers both Ok |
| Leases.FourClaimsStopEverybody | rust-core/src/runtime.rs:1169-1221 | with four expired claims on the way some run refuses everybody although somebody was eligible |
| Leases.CollectionFailsARuntime | rust-core/src/runtime.rs:1157-1160 | from every race with an eligible runtime and a collectable expired claim on its way some run ends with that runtime failing |
| Leases.OldClaimsExist | rust-core/src/runtime.rs:1101-1122 | such a race exists, and is safe until the hour after the claim's end is over |
| Leases.OwnClaimsArise | rust-core/src/runtime.rs:1179-1187 | a runtime that stops between its claim and its lease leaves the start of a race with a claim of its own |
| Leases.LateRenewalsExist | rust-core/src/runtime.rs:1273-1278 | two clocks one millisecond apart give a race with a renewal beside a takeover |
| Leases.FirstLeaseHasOneWinner | rust-core/src/runtime.rs:1224-1263 | of any number of runtimes that find no lease object at most one ever holds an Ok, for the live lease it created, whose token is its clock modulo 2^64; when all have an answer exactly one does and the others got 423 |
| Leases.RecreatedIsNewer | rust-core/src/runtime.rs:1236-1263 | a lease created after another was removed has a larger token exactly when its creator's clock, cut to 64 bits, has passed the old token; so always when the old one was created under an earlier clock and not renewed |
| LeaseRuntime.Race.ClaimExpiredWriterLease | rust-core/src/runtime.rs:1162-1222 | the claim loop, with other runtimes and collections in between and any store operation failing, is a run of the race: it ends, and answers Ok, 423 or an error as the race decides |
| LeaseRuntime.Race.EnsureWriterLease | rust-core/src/runtime.rs:1224-1302 | creation, the second conditional PUT, renewal, refusal or takeover, each store operation on its own and any of them failing, as a run of the race; a created lease has the clock modulo 2^64 as its token, every Ok is for a lease of one's own, and an error means that an operation failed or a claim vanished |
| LeaseRuntime.Race.HoldersAreAlone | rust-core/src/runtime.rs:1162-1302 | whatever the methods have done so far, at most one runtime holds an Ok |
| Sql.ParensBind | rust-core/src/postgrest.rs:327-329 | a clause in parentheses is read as one operand whatever follows it |
| Sql.JoinAnd | rust-core/src/postgrest.rs:331-331 | clauses joined by AND read as the conjunction of what each reads as |
| Sql.JoinOr | rust-core/src/postgrest.rs:345-345 | clauses joined by OR read as the disjunction of what each reads as |
| Sql.JoinBalanced | rust-core/src/policy.rs:193-207 | joining keeps as many placeholders as parameters |
| Sql.CompareInPlain | rust-core/src/postgrest.rs:353-377 | NULL compares to nothing; else equality is sameness and `<` one total order of numbers, then text |
| Sql.LogicInPlain | rust-core/src/postgrest.rs:326-349 | AND is the smaller, OR the larger of false, unknown, true, and NOT turns the order round |
| Sql.LikeInPlain | rust-core/src/postgrest.rs:378-385 | a pattern is read from the left: `%` skips any run, `_` one character, anything else stands for itself in either case |
| Sql.AsTextInPlain | rust-core/src/postgrest.rs:378-385 | LIKE sees an integer as its decimal digits, a minus sign before a negative one's |
| PolicyProofs.JoinClauses | rust-core/src/policy.rs:193-207 | the accumulating loop joins every clause in parentheses and every parameter in order, and refuses an empty list |
| PolicyProofs.CompileAllPolicies | rust-core/src/policy.rs:24-39 | the loop over the rules compiles each and fails with the first that fails |
| PolicyProofs.RuleReads | rust-core/src/policy.rs:66-138 | a compiled rule, however nested, reads back as the rule's expression, with each parameter at its test |
| PolicyProofs.MatchAndMembership | rust-core/src/policy.rs:209-220 | a column matches a converted value without being among the values exactly when it is 1 or 0 and only the boolean is there; the other way round exactly when both are null |
| PolicyProofs.TestVerdicts | rust-core/src/policy.rs:98-138 | one column test: SQL alone accepts exactly when a boolean meets an integer, the evaluator alone exactly when null meets null |
| PolicyProofs.RuleVerdicts | rust-core/src/policy.rs:140-191 | any rule that compiles evaluates; SQL alone accepts the row exactly when a boolean that meets an integer decides the rule, the evaluator alone exactly when a null that meets a null does |
| PolicyProofs.PoliciesAgree | rust-core/src/policy.rs:24-55 | the policy text parsed back, for every policy that compiles: the exact rows on which SQL accepts what the evaluator refuses, and the exact rows the other way round |
| PolicyProofs.PlainPoliciesAgree | rust-core/src/policy.rs:24-55 | a policy that compares with no boolean never has SQL accept a row the evaluator refuses, and one that compares with no null, a missing claim included, never the other way round |
| PolicyProofs.BooleanClaimsDiffer | rust-core/src/policy.rs:209-220 | it does happen: an integer 1 equals true in SQL and not in JSON |
| Policy.IdentifiersInPlain | rust-core/src/policy.rs:16-64 | an identifier is letters, digits and underscores, not a digit first |
| PolicyMeaning.AllowRule | rust-core/src/policy.rs:70-72 | `allow` is its own verdict, in the evaluator and in the SQL text read back |
| PolicyMeaning.RoleRule | rust-core/src/policy.rs:73-79 | `role_in` lets in exactly the actors whose role is in the list, in the evaluator and in the SQL text read back, whatever the row |
| PolicyMeaning.AndRule | rust-core/src/policy.rs:80-88 | `and` lets in exactly what every child lets in, in both forms |
| PolicyMeaning.OrRule | rust-core/src/policy.rs:89-97 | `or` lets in exactly what some child lets in, in both forms |
| PolicyMeaning.EqualsClaimRule | rust-core/src/policy.rs:102-108 | `equals_claim` compares the column with the actor's subject, role or claim, null if there is none: as JSON in the evaluator, as SQL in the database |
| PolicyMeaning.InClaimRule | rust-core/src/policy.rs:109-131 | `in_claim` looks the column's value up in the claimed list, in both forms; a claim that is no list holds nothing |
| PolicyMeaning.EqualsRule | rust-core/src/policy.rs:132-137 | `equals` compares the column with the rule's own value, in both forms |
| PolicyMeaning.TestCompiles | rust-core/src/policy.rs:98-138 | a rule that decides nothing itself compiles exactly when it names an identifier and something to compare with |
| PolicyMeaning.PolicyInPlain | rust-core/src/policy.rs:24-64 | a policy lets in the service role, everybody when it has no rules, and else exactly whom some rule lets in, in both forms |
| Postgrest.CompileFilters | rust-core/src/postgrest.rs:315-349 | the recursive compiler with its loops computes the specification |
| Postgrest.CompileClauses | rust-core/src/postgrest.rs:322-331 | the loop over children gives one parenthesized clause each, parameters in order, and fails with the first child that fails |
| Postgrest.FilterReads | rust-core/src/postgrest.rs:315-349 | the text of any filter reads as its expression; unless it is an open disjunction it can stand to the left of AND |
| Postgrest.FilterEval | rust-core/src/postgrest.rs:351-413 | that expression has the filter's own three-valued meaning on every row |
| Postgrest.FilterRoundTrip | rust-core/src/postgrest.rs:315-413 | compiling any filter tree and reading the text back gives its three-valued meaning on every row, with as many placeholders as parameters |
| Postgrest.DroppedFilters | rust-core/src/postgrest.rs:463-467 | the filter text left out of the WHERE clause is exactly that of a filter with no children |
| Postgrest.WhereMeansBoth | rust-core/src/runtime.rs:3696-3716 | the WHERE clause accepts exactly the rows both filter and policy accept, filter parameters first, unless the filter is an open disjunction |
| Postgrest.SelectedRowsPassTheEvaluator | rust-core/src/postgrest.rs:448-482 | every selected row passes the in-memory evaluator of the same rules, exactly unless a boolean lets it through |
| Postgrest.OpenOrEscapesPolicy | rust-core/src/runtime.rs:3703-3713 | for an open disjunction the policy guards only the last child; a row is treated right exactly when the policy accepts it or no earlier child does |
| Postgrest.OpenOrCounterexample | rust-core/src/runtime.rs:3703-3713 | a two-part OR under a policy that allows nothing still accepts a row |
| Postgrest.CompileColumns | rust-core/src/postgrest.rs:436-446 | fails exactly when a name is no identifier, else gives the list, or a star for none |
| Postgrest.CompileOrder | rust-core/src/postgrest.rs:415-434 | fails exactly when a name is no identifier, else gives each column with its direction and its place for nulls |
| Postgrest.BuildSelect | rust-core/src/postgrest.rs:448-482 | fails exactly when the table, a column, the filter, the policy or the order cannot be compiled, else gives the specified text and parameters |
| Postgrest.SelectBinds | rust-core/src/postgrest.rs:448-482 | the statement read back: its columns, table, order, limit clamped to 1..1000 and offset are those asked for, its condition accepts exactly what filter and policy both accept, and every placeholder has its parameter |
| Postgrest.PageInPlain | rust-core/src/postgrest.rs:460-461 | at least one row and at most a thousand, anything between and any offset below 2^63 as asked for |
| QueryParams.ParseQueryParams | rust-core/src/postgrest.rs:248-313 | whatever order the map is gone through: the same queries fail, all other fields are the same, the filters mean the conjunction of the parameters, and only a lone OR with a comma is an open disjunction |
| QueryParams.AnswersAgree | rust-core/src/postgrest.rs:248-313 | two orders give filters with the same meaning on every row |
| QueryParams.GatheredMeans | rust-core/src/postgrest.rs:303-311 | conditions gathered in any order, with OR put last, mean the conjunction of all parameters |
| QueryTexts.KeyedOperator | rust-core/src/postgrest.rs:152-180 | `column.op=value` is accepted and means that test of the column, for each of the ten operators and on every row, and `column.op=not.value` its negation |
| QueryTexts.ValuedOperator | rust-core/src/postgrest.rs:181-207 | so do `column=op.value` and `column=not.op.value` |
| QueryTexts.EntryAlone | rust-core/src/postgrest.rs:253-301 | a parameter means the same whatever the others are |
| QueryTexts.ListTexts | rust-core/src/postgrest.rs:386-398 | the list of an `in` test is the items between the commas, with or without the parentheses |
| QueryTexts.OrParam | rust-core/src/postgrest.rs:209-246 | `or` means that some part does, each part in any of its spellings |
| QueryTexts.AndParam | rust-core/src/postgrest.rs:280-298 | `and` means that every part does |
| QueryTexts.OrderTexts | rust-core/src/postgrest.rs:109-150 | `order` is read clause by clause: column, direction, place of nulls |
| QueryTexts.SelectTexts | rust-core/src/postgrest.rs:99-108 | `select` lists the columns; empty or a star asks for all |
| QueryTexts.NumberTexts | rust-core/src/postgrest.rs:258-263 | a printed 64-bit number is read as itself; anything not a number leaves the default |
| QueryTexts.CountTexts | rust-core/src/postgrest.rs:268-275 | the three counting modes by name, anything else none |
| QueryTexts.Keywords | rust-core/src/postgrest.rs:253-300 | exactly eight names are no filters |
| QueryTexts.TrimsBlanks | rust-core/src/postgrest.rs:210-210 | blanks around a text are dropped and nothing else |
| AuthTables.StepKeepsInv | rust-core/src/auth_store.rs:257-412 | every operation keeps each session's tokens one chain in order of issue |
| AuthTables.RunKeepsInv | rust-core/src/auth_store.rs:257-412 | so does every run that gives new sessions new ids |
| AuthTables.IssueKeepsInv | rust-core/src/auth_store.rs:257-283 | issuing keeps it exactly when the session id is new or the call fails |
| AuthTables.IssueKeepsOneToken | rust-core/src/auth_store.rs:257-283 | the rule of one unrevoked token a session survives issuing exactly when the call fails or the session has no unrevoked token |
| AuthTables.ChainFacts | rust-core/src/auth_store.rs:285-339 | at most one unrevoked token a session, with the session's expiry; at most one child a token; parents in the same session and user, and revoked |
| AuthTables.ParentsAreAcyclic | rust-core/src/auth_store.rs:285-339 | following parents never leads back |
| AuthTables.InactiveForever | rust-core/src/auth_store.rs:164-190 | a token once inactive is never active again, in any later run at any later time |
| AuthTables.RotateMovesActivity | rust-core/src/auth_store.rs:285-339 | a rotation spends the old token, opens the new one, and changes no other |
| AuthTables.RotateInPlain | rust-core/src/auth_store.rs:285-339 | a rotation works exactly for an active token and a new text; the new token has the same session and user, the old one as parent, and the new end |
| AuthTables.IssueOpensToken | rust-core/src/auth_store.rs:257-283 | issuing works exactly for a user that exists and a token that does not; the token is then active until it expires, unless its session was revoked, and no token of another session is touched |
| AuthTables.ActiveInPlain | rust-core/src/auth_store.rs:164-190 | a token is good for nothing once it or its session has expired or was revoked |
| AuthTables.RevokeRemovesScope | rust-core/src/auth_store.rs:341-412 | a logout takes away exactly the active tokens its scope reaches |
| AuthTables.RevokeSparesOthers | rust-core/src/auth_store.rs:341-412 | no row of another user changes |
| AuthTables.ZeroMeansUnchanged | rust-core/src/auth_store.rs:341-412 | the returned count is zero exactly when neither table changed |
| AuthTables.FlagIsHonest | rust-core/src/runtime.rs:2622-2668 | the write loop's committed flag is set exactly when the tables changed, which is what lets it skip the flush |
| AuthStoreRuntime.AuthStore.GetActiveRefreshToken | rust-core/src/auth_store.rs:164-190 | answers exactly for active tokens, with their session and user |
| AuthStoreRuntime.AuthStore.IssueRefreshToken | rust-core/src/auth_store.rs:257-283 | one transaction: the specified rows, or nothing on a constraint error |
| AuthStoreRuntime.AuthStore.RotateRefreshToken | rust-core/src/auth_store.rs:285-339 | one transaction: the specified rows, or nothing; the chains stay chains |
| AuthStoreRuntime.AuthStore.RevokeRows | rust-core/src/auth_store.rs:350-408 | the two updates of a scope change the specified rows and count the sessions |
| AuthStoreRuntime.AuthStore.RevokeUserSessions | rust-core/src/auth_store.rs:341-412 | the specified rows and count, an error without a session id where one is needed; zero means nothing changed |
| RateLimits.NoBurst | rust-core/src/http.rs:1822-1833 | over any run, no stretch of time as long as the window has more than the allowed number of accepted calls for one key |
| RateLimits.RefusedIffFull | rust-core/src/http.rs:1822-1833 | a call is refused exactly when that many were accepted inside the last window |
| RateLimits.RefusedIffWindowFull | rust-core/src/http.rs:1822-1833 | told in times alone: refused exactly when the window that ends with the call holds the allowed number of accepted ones |
| RateLimits.BucketHoldsAccepted | rust-core/src/http.rs:1827-1827 | dropping old entries loses nothing: the bucket always keeps exactly the accepted calls that still count |
| RateLimiterRuntime.RateLimiter.Check | rust-core/src/http.rs:1822-1833 | the retain loop and the push do one call of the specification, whatever calls came before |
| Keys.BookmarkRoundTrip | rust-core/src/runtime_utils.rs:31-42 | parsing a printed bookmark gives back every 64-bit sequence |
| Keys.BookmarkOrder | rust-core/src/runtime_utils.rs:31-33 | bookmarks sort as text the way sequences do |
| Keys.BookmarkText | rust-core/src/runtime_utils.rs:31-33 | a bookmark is `sdb1-` and twenty digits of the sequence |
| Keys.BookmarksInPlain | rust-core/src/runtime_utils.rs:35-42 | a text is a bookmark exactly when it is `sdb1-` and a 64-bit number but for blanks around it; anything else is 400 |
| Keys.SegmentKeyRoundTrip | rust-core/src/runtime_utils.rs:54-67 | parsing a segment key gives back every 64-bit id, for any project |
| Keys.SegmentKeyOrder | rust-core/src/runtime_utils.rs:58-60 | segment keys sort as text the way ids do |
| Keys.NamesDistinct | rust-core/src/runtime_utils.rs:15-29 | no two objects of a project share a key |
| Keys.KeysHaveOwnTexts | rust-core/src/runtime_utils.rs:15-21 | the keys of the write-path model are stored under texts of their own, and the WAL prefix covers exactly its segments |
| Keys.ObjectTexts | rust-core/src/runtime_utils.rs:15-29 | the text of each object's key |
| Keys.WalPrefixIsSegments | rust-core/src/runtime_utils.rs:54-60 | the WAL prefix covers the segments and nothing else |
| Strings.PadOrder | rust-core/src/runtime_utils.rs:31-33 | zero-padded decimals sort as text the way the numbers do |
| Strings.OrderAtFirstDifference | rust-core/src/runtime_utils.rs:31-33 | text is ordered at the first place where it differs, a proper prefix first |
| Strings.NumberInPlain | rust-core/src/runtime_utils.rs:39-41 | digits, with or without a plus sign, read as their number in base ten, an overflow as nothing |
| Strings.NotANumber | rust-core/src/runtime_utils.rs:39-41 | an empty text, a lone plus sign, or any other character is no number |
| LegacyRestore.RestoreLegacyWal | rust-core/src/runtime.rs:1427-1482 | succeeds exactly when every listed object has a segment key and reads back with its listed length, else fails with the status of the first that does not; bytes in listing order, references sorted and renumbered |
| LegacyRestore.SortSorts | rust-core/src/runtime.rs:1472-1472 | the sort orders by id, keeps the segments, and moves nothing that is in order |
| LegacyRestore.LegacyRestoreAddresses | rust-core/src/runtime.rs:1427-1482 | for a listing in key order of real segment keys, every reference addresses its own bytes |
| LegacyRestore.UnpaddedKeysGoAstray | rust-core/src/runtime.rs:1472-1477 | with unpadded ids it does not: a concrete listing |
| Calendar.IsoFromUnix | rust-core/src/runtime_utils.rs:112-147 | for every non-negative second the loops end in a valid date and time that is that many seconds after 1970 |
| Calendar.DaysToYmd | rust-core/src/http.rs:1981-2008 | for every non-negative day count the loops end in a valid date that many days after 1970 |
| Calendar.UnixToDateTime | rust-core/src/http.rs:1971-1979 | the other copy, with truncating division and narrowing, does the same |
| Calendar.SecondsInOrder | rust-core/src/runtime_utils.rs:112-147 | the count of seconds orders dates as the calendar does and tells any two apart |
| Calendar.ConvertTwice | rust-core/src/http.rs:1971-2008 | the two copies agree |
| Calendar.IsoTextOrder | rust-core/src/runtime_utils.rs:146-146 | printed times of four-digit years sort as text the way they sort in time |
| Calendar.IsoTextInPlain | rust-core/src/runtime_utils.rs:146-146 | a printed time is `yyyy-mm-ddThh:mm:ssZ`, each field at its place |
| Calendar.MonthsInPlain | rust-core/src/runtime_utils.rs:122-140 | the length of each month, in leap years too |
| Calendar.KnownTime | rust-core/src/runtime_utils.rs:112-147 | the evening of a leap day of 2024 has its known count of seconds |
| Uri.PercentEncode | rust-core/src/http.rs:1791-1801 | the byte loop computes the encoding |
| Uri.EncodeRoundTrip | rust-core/src/http.rs:1791-1801 | decoding gives back every byte |
| Uri.EncodeInPlain | rust-core/src/http.rs:1791-1801 | letters, digits and `-_.~` stand for themselves, every other byte is a percent sign and two upper-case hex digits |
| Uri.DecodeInPlain | rust-core/src/http.rs:1791-1801 | read back, a plus sign is a space and a percent sign with two hex digits of either case a byte |
| Uri.EncodeEmitsNoSeparator | rust-core/src/http.rs:1791-1801 | only unreserved characters and percent signs come out |
| Uri.ReadQueryOf | rust-core/src/http.rs:1379-1429 | going through the map in any order gives one and the same query or error |
| Uri.QueryInPlain | rust-core/src/http.rs:1379-1429 | what that query is: filters under `eq.`, the limit or a hundred, the session by name or 400, bookmark and region from the query or else from the first header that is there |
| Uri.EntriesGiveQuery | rust-core/src/http.rs:1747-1781 | parsing the printed entries gives the query back, in any order of the filters |
| Uri.TableReadUri | rust-core/src/http.rs:1747-1789 | parsing the printed URI on a request without bookmark or region headers gives the same query back |
| Uri.ParsedIsValid | rust-core/src/http.rs:1379-1429 | every query that was parsed can be printed |
| Forward.ForwardJson | rust-core/src/http.rs:1454-1533 | the last answer is reported, every earlier one was transient, attempts are bounded, and without a key only GET and HEAD are sent twice |
| Forward.RetriesInPlain | rust-core/src/http.rs:1689-1729 | the statuses that are tried again, and the number of attempts of each kind of request |
| Forward.KeyedRetriesApplyOnce | rust-core/src/runtime.rs:2461-2489 | a keyed request delivered any number of times, going differently each time: each delivery that fails after changing rows changes them, at most one more does, and none after that |
| Forward.TornRetriesRepeat | rust-core/src/runtime.rs:2461-2489 | if every delivery fails after changing rows, every one of them changes rows |
| Forward.ForwardedWriteAppliesOnce | rust-core/src/http.rs:1689-1729 | however the answers fall, a forwarded write changes rows at most once if no attempt fails after changing rows |

## Left out

- SQLite itself: page contents, checksums, VACUUM, checkpoint on close, and statement errors; local file errors.
- Lost updates between several warm runtimes: a runtime that opened early and never wrote has no known token and may take over without rehydrating (rust-core/src/runtime.rs:1279-1293), and segment keys do not carry an owner. The durability results are for one lineage.
- PUTs of the write path that take effect but report an error.
- The open path without a manifest, except its restore and the order of its keys: it does not check that ids are contiguous.
- Manifest JSON: its text, the schema version and project checks, timestamps, and the bookmark inside it; a manifest is a record of the fields recovery uses.
- The change log: its entries are written and never read back; nothing is said of when they are due.
- Storage objects: agreement of object bytes and metadata across crashes.
- The endpoint circuit breaker; placement and health of endpoints; the realtime channel; HTTP routing, CORS, tokens and password hashing; metrics; the S3 client's own retries.
- The writer's queue: its capacity, its waiting times, and how callers wait for an answer.
- Error messages; errors are their status only.
- SQL values other than null, integers and text; column affinity and collations other than LIKE's; JSON numbers that are not integers.
- Row triggers of the write kinds (insert, upsert, update, delete, storage): a job is its tag, its key and its outcome.
- User rows of the session store other than their ids: e-mail and phone uniqueness, and updates of a user.
- WriteRuntime.ProjectRuntime.EnsureWriterLease: may succeed or fail at will, since the lease protocol is proved on its own in Leases.
- Releasing a lease, which deletes its object, during a race: no step of a race removes the object, so the second conditional PUT is modelled and never reached. The check that the object exists and its read are one step.
- The background renewal (`renew_lease`), which writes the lease object over whatever is there after its own read. A collection reads and deletes one claim in one step. Lease and claim objects that do not parse or name another project.
- Leases.OneWinnerIffClaimsStand: does not cover a race in which a live claim stops every eligible runtime, one that begins after the deciding token was claimed, or four claims beside an owner that renews.
- Sql.Column: reads a column that the table does not have as NULL; SQLite reports an error, or takes a quoted name as text.
- Reads.VersionSeesAcks: speaks of bookmarks below the largest 64-bit number, because a saturated counter repeats (Reads.BookmarkIsTrustworthy).
- Reads.ReadRuntime.CreateProject: the lease is granted at will, but not while the primary has the project open; the runtime then only reads.
- Uri.TableReadUri: promises nothing when the path itself contains a question mark; project and table names do not.
- Calendar.IsoFromUnix: promises nothing for seconds before 1970, which the server's clock never gives.
- Keys.NamesDistinct: does not compare two change-log entries with each other; they are never read back.
