# Horizon: a verified model

Horizon ingests the ledgers of a network into a Postgres database and serves that database over HTTP. This project
models the parts of it whose correctness is hardest to see and proves what they promise, in Dafny 4.11:

```
dafny verify dfyconfig.toml
```

| files | what they model |
|---|---|
| `Network.dfy`, `Database.dfy` | the chain of closed ledgers, the state it denotes, the shared database and a transaction on it |
| `Ingestion.dfy` | the ingestion state machine: `start`, `build`, `resume`, `historyRange`, each one transaction on the database |
| `Cluster.dfy`, `LoadTesting.dfy`, `Convergence.dfy` | all interleaved runs of any number of processes, load tests, and a lone process without errors |
| `OrderBook.dfy` | the in-memory order book kept up to date from soft-deleted, compacted tables |
| `StateVerifier.dfy` | the batched comparison of the stored state with a history archive |
| `LedgerRanges.dfy`, `ParallelJobs.dfy`, `ParallelProtocol.dfy`, `Reingestion.dfy`, `Reaping.dfy` | gap detection, job splitting, parallel workers, idempotent reingestion, retention |
| `Submissions.dfy`, `SubmissionProtocol.dfy` | open transaction submissions and their result channels |
| `Decimal.dfy`, `Toid.dfy`, `Paging.dfy`, `Effects.dfy`, `CursorAdjustment.dfy`, `ClaimableBalances.dfy` | cursors, ids, pages and one query rewrite |

## How the model is built

* A `run` of a state machine node is a method on a database session, proved equal to an outcome function, or, when one of
  its calls fails, to leave the committed database alone. A run of a whole cluster is a fold of these outcomes over any
  sequence of actions, and the main theorems are inductions over such sequences.
* `history_ledgers` is a sequence of ledger numbers in insertion order. No uniqueness is assumed, so inserting a stored
  ledger again would show.
* Postgres, the network, clocks, random run ids and failures are parameters. A transaction that holds the row lock on
  the last ingested ledger is atomic with respect to other lock holders (`internal/db2/history/key_value.go:56-74`). The
  archive and the ledger backend are truthful outside load tests; a load test's backend serves any ledgers at all.
* Ledger sequences fit in 31 bits, as the casts in the code require; wrapping 32-bit sums are written out where they occur.
* Ids from the `toid` library pack ledger, transaction and operation as 32, 20 and 12 bits; text of claimable balance
  ids is represented by its rank in the database's collation.

## What turned out to be conditional

* Parallel reingestion leaves out the last ledger of a range exactly when the range's length is one more than a multiple
  of the batch size (`ParallelJobs.JobsTile`), because the queueing loop tests `<` where the comment about both ends being
  part of the batch suggests `<=`. With the batch sizes the command computes, a request for one ledger always returns
  without error and reingests nothing (`ParallelProtocol.SingleLedgerIsNotReingested`, `ParallelJobs.LastLedgerHasNoJob`).
* A valid database stays valid in runs without load tests exactly as long as no historyRange commits past its last
  ingested ledger; a process that saw a newer checkpoint than the one built can do that (`Cluster.LateRangeOverruns`).
* The reaper's next-sequence query has no `ORDER BY`. Reaping never deletes a retained ledger, but it is complete for
  every row order exactly when no batch window is empty in front of a ledger still to be deleted
  (`Reaping.CompleteIffDense`, `Reaping.UnorderedQueryLeavesLedger`).
* Load test fixtures are undone by a restore exactly when a ledger was ingested after them or they changed nothing
  (`LoadTesting.FixturesEscapeRestore`, `LoadTesting.FixtureSurvivesRestore`).
* Upserting a claimable balance keeps the claimants table linked exactly when no stored claimant is left with another
  ledger (`ClaimableBalances.UpsertLinks`, `ClaimableBalances.DroppedClaimantChangesPage`). Since claimants are immutable
  on the network, the link holds in every run (`ClaimableBalances.SubqueryIsAlwaysJoin`).
* Cursor adjustment serves the elder ledger again exactly when the cursor is that ledger's own id
  (`CursorAdjustment.AscendingLedgers`), and refuses the cursor `-0`, which the page itself would accept
  (`CursorAdjustment.NegativeZeroIsRefused`, `CursorAdjustment.NegativeZeroIsServed`).
* Walking all effects from an empty cursor misses exactly an effect whose key is the start cursor itself, a key that no
  operation has (`Effects.FollowAscending`, `Effects.FollowDescending`).

## Model

| member | source | states |
|---|---|---|
| `Ingestion.EvaluateDbState` | internal/ingest/db_state.go:53-69 | exactly when a database is empty, needs a rebuild, is inconsistent, or is valid: at a positive ledger, of the current version, with history empty or ending there |
| `Ingestion.System.RunStart` | internal/ingest/fsm.go:172-284 | the transition and database after `start`; on any failing call the database is untouched and the node starts again, and nothing is committed once a call before the commit failed |
| `Ingestion.System.RunBuild` | internal/ingest/fsm.go:300-424 | `build` replaces the state tables by the checkpoint's archive and sets ledger and version together, or changes nothing, as it must once any call before the commit failed |
| `Ingestion.System.CompleteIngestion` | internal/ingest/fsm.go:904-919 | it commits the transaction with the new last ingested ledger, or commits nothing |
| `Ingestion.System.RunResume` | internal/ingest/fsm.go:438-593 | `resume` ingests one ledger on top of the ledger read under the lock, follows a database that is ahead, or changes nothing, as it must once any call before the commit failed |
| `Ingestion.System.RunHistoryRange` | internal/ingest/fsm_history_range_state.go:30-111 | history is extended by the whole range, by its flushed prefix after a backend error, or not at all |
| `Ingestion.System.FlushRange` | internal/ingest/fsm_history_range_state.go:68-105 | flushing in buffers stores exactly the ledgers up to the last full flush before a backend failure |
| `Ingestion.FlushedEnd` | internal/ingest/fsm_history_range_state.go:68-105 | what is stored is everything, or all full flushes before the failing ledger, which is all but less than one flush |
| `Ingestion.System.Step` | internal/ingest/main.go:812-882 | one state machine iteration is an attempt of the kind cluster runs are made of: its node's outcome, or a fault that leaves the database alone |
| `Ingestion.StopsExactly` | internal/ingest/fsm.go:172-424 | a process leaves the machine exactly on a newer version at start, or after a build that was told to stop |
| `Ingestion.FailsExactly` | internal/ingest/fsm.go:172-680 | a run reports an error exactly when it is refused by a load test, malformed, ahead of the database or out of ledgers |
| `Ingestion.NewerVersionIsLeftAlone` | internal/ingest/fsm.go:188-199 | a process starting on a database of a newer version changes nothing |
| `Ingestion.System.Save` | internal/ingest/loadtest.go:34-71 | a snapshot is recorded only when none is pending and the process has no run id, and then the process owns it |
| `Ingestion.RestoreSnapshot` | internal/ingest/loadtest.go:77-127 | the restored database, or the old one with an error; it refuses exactly when the restore ledger lies ahead, and the snapshot then stays pending |
| `Cluster.RunKeepsInv` | internal/ingest/fsm.go:172-680 | every node's run keeps the invariant that ties tables, version, ledger and pending load test together |
| `Cluster.StepKeepsInv` | internal/ingest/fsm.go:172-680 | every action of a cluster, including saves, restores, reaping and failing runs, keeps the invariant |
| `Cluster.StateAlwaysMatches` | internal/ingest/fsm.go:172-593 | in every interleaved run, a database without pending load test that claims to be current at ledger n > 0 holds the true state of ledger n |
| `Cluster.FreshClusterIsSound` | internal/ingest/main.go:612-614 | any sound database with freshly started processes is a starting point of that theorem |
| `Cluster.ResumeIsExact` | internal/ingest/fsm.go:438-593 | a committing resume continues from the positive last ingested ledger it expected, by exactly the next ledger, from and to true states |
| `Cluster.ResumeFollows` | internal/ingest/fsm.go:471-485 | on a valid database a run of a process that is behind moves it to the last ingested ledger, and a run of one that is there commits the next |
| `Cluster.InvalidUntilRebuild` | internal/ingest/fsm.go:366-376 | only a verifier marks the state invalid, and only a build that commits clears the mark |
| `Cluster.RunExtendsHistory` | internal/ingest/fsm.go:438-593 | a run adds nothing to history or exactly the ledgers right after the latest one |
| `Cluster.HistoryKeepsShape` | internal/ingest/fsm_history_range_state.go:51-110 | in every run no stored ledger is inserted again, and without load tests gap-free history stays gap-free |
| `Cluster.StepKeepsValid` | internal/ingest/fsm.go:356-362 | without load tests, a step leaves a valid database valid exactly when it is no historyRange that ends history elsewhere than at the last ingested ledger, and never moves that ledger back |
| `Cluster.ValidStaysValid` | internal/ingest/fsm.go:300-593 | in every run without such a historyRange a valid database stays valid and its last ingested ledger never decreases |
| `Cluster.LateRangeOverruns` | internal/ingest/fsm_history_range_state.go:51-110 | a possible run from freshly started processes in which a late catch-up makes a database just built inconsistent, so that the next start resets it |
| `LoadTesting.LoadTestExcludes` | internal/ingest/loadtest.go:20-71 | after a save with run id R, a change by start, build or resume is by the holder of R while R is pending, and never by it afterwards |
| `LoadTesting.OwnerIngests` | internal/ingest/main.go:660-727 | the owner of a snapshot of a valid database goes on to ingest what its backend serves |
| `LoadTesting.InvalidIsNotTested` | internal/ingest/main.go:672-678 | on a database that is not valid the load test ends without a run |
| `LoadTesting.SnapshotIsRestored` | internal/ingest/loadtest.go:77-127 | if only the owner's resumes commit in between, restore brings history back exactly, and either everything is as before or the version is 0 and no resume commits on the restored database |
| `LoadTesting.NoResumeUntilRebuild` | internal/ingest/fsm.go:488-503 | at any later point of any run after a restore that undid ledgers, until a build commits the version stays 0 and no process commits a resume |
| `LoadTesting.FixturesEscapeRestore` | internal/ingest/main.go:680-704 | after fixtures and any resumes of the owner, a restore leaves the true state exactly when a ledger was ingested after the fixtures or every fixture repeats a stored row |
| `LoadTesting.FixtureSurvivesRestore` | internal/ingest/main.go:680-704 | a fixture with a new key leaves a database that passes for valid and does not hold the true state |
| `Convergence.Converges` | internal/ingest/fsm.go:172-284 | a lone process without errors reaches `resume` on a valid database within five transitions from any contents, unless it must wait for a checkpoint |
| `Convergence.WaitsForever` | internal/ingest/fsm.go:676-680 | with history past a fixed latest checkpoint and no valid state it never gets past start and wait |
| `Convergence.RebuildConverges` | internal/ingest/fsm_history_range_state.go:60-66 | an empty or outdated database ends up resuming on the checkpoint's true state |
| `Convergence.ResumeAdvances` | internal/ingest/fsm.go:438-593 | from any valid database being resumed, k further transitions ingest exactly the next k ledgers, keep it valid, and keep the true state if it was there |
| `Convergence.ConvergesOnTrack` | internal/ingest/fsm.go:172-284 | from a database that holds the true state if it claims to be current, the resume reached is on the true state |
| `Convergence.ConvergesAndAdvances` | internal/ingest/fsm.go:172-593 | from any contents, unless it must wait, after at most five transitions every further one ingests exactly the next ledger |
| `Convergence.OvertakenCatchesUp` | internal/ingest/fsm.go:471-485 | a process behind a valid database ingests the next ledger after two transitions, one that is not behind after one |
| `Convergence.ConvergesFromAnyNode` | internal/ingest/fsm.go:172-680 | from any node and any contents a process arrives within seven transitions at resume on a valid database or at a start that must wait |
| `Convergence.SuggestedCheckpointIsBuilt` | internal/ingest/fsm.go:219-232 | a suggested checkpoint is the one an empty database is built at |
| `OrderBook.EventKeepsTracks` | internal/db2/history/offers.go:187-203 | forward ingestion and compaction keep what is known about the book of an older ledger |
| `OrderBook.TouchApplies` | internal/db2/history/offers.go:149-183 | ingesting a ledger applies its changes to the live entries and to nothing else |
| `OrderBook.ReplayExactness` | internal/ingest/orderbook.go:98-208 | replaying the rows modified since equals a full reload exactly when compaction lost no entry of the book |
| `OrderBook.CompactionLosesRemoval` | internal/db2/history/offers.go:187-203 | an entry removed and compacted away since is not seen to be gone by an incremental update |
| `OrderBook.ReplayIsReload` | internal/ingest/orderbook.go:104-122 | the compaction guard makes an incremental update equal to a reload |
| `OrderBook.Stream.Update` | internal/ingest/orderbook.go:98-208 | the published graph, ledger, reset and error of an update, including every error path through discard with rows already staged |
| `OrderBook.RefreshIsReload` | internal/ingest/orderbook.go:98-208 | an update without error on a valid, consistent database leaves the graph equal to a full reload at the last ingested ledger, even if the stream was ahead of it or compaction had overtaken the stream |
| `OrderBook.RefreshExactly` | internal/ingest/orderbook.go:98-208 | exactly when an update resets and exactly when it fails, and what a failed or useless update leaves published |
| `OrderBook.FaultlessUpdateReloads` | internal/ingest/orderbook.go:98-208 | without a failing call an update on a valid, consistent store succeeds and publishes what a reload would |
| `OrderBook.StreamAlwaysAgrees` | internal/ingest/orderbook.go:320-376 | across any ledgers, compactions, updates, errors, and updates that meet another store with any of the five alarming statuses, a stream at ledger n > 0 publishes the offers and pools live at ledger n |
| `OrderBook.StreamRecovers` | internal/ingest/orderbook.go:320-376 | after any run, whatever failed in it, one update without a failing call on a valid, consistent store publishes the last ingested ledger |
| `StateVerifier.StateVerifier.GetLedgerEntries` | internal/ingest/verify.go:69-108 | it serves exactly the next entries, remembers them, and refuses while earlier ones are unwritten |
| `StateVerifier.StateVerifier.Write` | internal/ingest/verify.go:115-156 | it accepts exactly the remembered entry and forgets it |
| `StateVerifier.StateVerifier.Verify` | internal/ingest/verify.go:167-186 | it succeeds exactly when nothing is unwritten, reading is done and the counts agree |
| `StateVerifier.StateVerifier.CheckUnreadEntries` | internal/ingest/verify.go:188-206 | it succeeds exactly when nothing is unwritten |
| `StateVerifier.CheckBatch` | internal/ingest/verify.go:371-459 | a batch passes exactly when no stored row contradicts it, leaving exactly the keys the store lacks |
| `StateVerifier.CountDecides` | internal/ingest/verify.go:510-516 | once all entries agree and none is missing, the counts tell exactly whether the store has extra rows |
| `StateVerifier.VerifyState` | internal/ingest/verify.go:354-519 | for distinct archive keys and any batch size it succeeds if and only if stored rows and table-backed archive entries are equal as maps |
| `LedgerRanges.ValidateRanges` | internal/ingest/main.go:752-769 | ranges are accepted exactly when each is non-empty, starts at ledger 1 or later and ends before the next |
| `LedgerRanges.GapsCoverMissing` | internal/db2/history/ledger.go:172-190 | the gap query covers exactly the missing sequences between the oldest and the latest stored ledger |
| `LedgerRanges.GetLedgerGapsInRange` | internal/db2/history/ledger.go:194-247 | the result covers precisely the missing sequences of the range and is accepted by range validation |
| `ParallelJobs.BatchSize` | internal/ingest/parallel.go:119-140 | a positive multiple of 64, at most the maximum when one is set and above 64, and at least a compatible minimum |
| `ParallelJobs.BatchIsShare` | internal/ingest/parallel.go:119-140 | from 64 ledgers up the batch is the share per worker, or the limit it violates, rounded down to 64, so that the workers' batches add up to the request but less than 64 ledgers each |
| `ParallelJobs.TotalRangeSize` | internal/ingest/parallel.go:142-148 | for validated ranges the wrapping sum is the size of their union |
| `ParallelJobs.JobsTile` | internal/ingest/parallel.go:100-115 | the jobs of a range cover it exactly, except its last ledger precisely when its length minus one is a multiple of the batch size |
| `ParallelJobs.JobsAreFull` | internal/ingest/parallel.go:100-115 | every job of a range but the last holds exactly a batch, and that one no more |
| `ParallelJobs.JobsAreValid` | internal/ingest/parallel.go:97-118 | the jobs of validated ranges are non-empty, increasing and disjoint |
| `ParallelJobs.JobsCover` | internal/ingest/parallel.go:97-118 | over all ranges the jobs cover the requested ledgers but those left out |
| `ParallelJobs.Enqueue` | internal/ingest/parallel.go:97-118 | it queues a prefix of the jobs, all unless stopped, and returns the lowest ledger queued |
| `ParallelJobs.QueueRequest` | internal/ingest/parallel.go:150-205 | a request is refused exactly when its ranges are invalid; otherwise the jobs of the batch size computed from the union's size are queued |
| `ParallelJobs.SingleLedgerHasNoJob` | internal/ingest/parallel.go:97-140 | a request for one ledger is split into no job, whatever the workers and limits |
| `ParallelJobs.LastLedgerHasNoJob` | internal/ingest/parallel.go:97-140 | 65 ledgers on one worker without limits make one job of the first 64 |
| `ParallelProtocol.ReturnIsHonest` | internal/ingest/parallel.go:178-216 | in every interleaving a return without error means all jobs succeeded, and every job below the recommended restart ledger was queued and succeeded |
| `ParallelProtocol.CountedAsEnded` | internal/ingest/parallel.go:62-79 | in every run the jobs counted as succeeded and failed are exactly those whose worker ended so |
| `ParallelProtocol.ErrorIsReported` | internal/ingest/parallel.go:178-216 | on return an error is reported exactly when some job failed |
| `ParallelProtocol.NoDeadlock` | internal/ingest/parallel.go:62-79 | until the command returns some goroutine can take a step |
| `ParallelProtocol.RunsAreBounded` | internal/ingest/parallel.go:178-216 | no run is longer than its initial measure, so queueing and waiting end |
| `ParallelProtocol.CleanReturnReingests` | internal/ingest/parallel.go:150-221 | a return without error reingested exactly the requested ledgers but those left out |
| `ParallelProtocol.RequestReingests` | internal/ingest/parallel.go:150-221 | the same with the batch size the command computes for the request |
| `ParallelProtocol.SingleLedgerIsNotReingested` | internal/ingest/parallel.go:150-221 | a request for one ledger returns without a worker's error and no job of it succeeded |
| `Reingestion.Reingester.IngestRange` | internal/ingest/fsm_reingest_history_range_state.go:33-88 | success replaces the range by one row per ledger in order; failure leaves exactly what the failing deletion, fetch or flush had kept |
| `Reingestion.Reingester.Run` | internal/ingest/fsm_reingest_history_range_state.go:112-180 | the same for one run, which without force refuses ranges that reach the last ingested ledger; with force too a failure keeps what was flushed unless the commit fails |
| `Reingestion.AttemptIsErased` | internal/ingest/fsm_reingest_history_range_state.go:39-50 | deleting the range after a failed attempt gives what deleting it at first gives |
| `Reingestion.ReplacedCounts` | internal/ingest/fsm_reingest_history_range_state.go:33-88 | a replaced range holds each ledger once and nothing outside changes |
| `Reingestion.Reingester.ReingestRange` | internal/ingest/main.go:773-802 | after any failed attempts, success leaves each ledger from 2 on exactly once, nothing outside the ranges ever changes, and giving up leaves earlier ranges done and later ones untouched |
| `Reaping.Reaper.ClearBefore` | internal/ingest/reap.go:173-212 | only ledgers of the range are deleted, every deleted one is counted, and success is the batch loop's outcome |
| `Reaping.Reaper.DeleteUnretainedHistory` | internal/ingest/reap.go:76-149 | the newest retained sequences are never deleted, nothing is without the lock or while a reap is pending; with an ordered query success leaves nothing older |
| `Reaping.OrderedIsComplete` | internal/ingest/reap.go:187-209 | with the least larger sequence as answer, no ledger below the target remains |
| `Reaping.CompleteIffDense` | internal/db2/history/ledger.go:158-168 | without an order, reaping is complete for every answer exactly when no empty batch window precedes a ledger to delete |
| `Reaping.UnorderedQueryLeavesLedger` | internal/db2/history/ledger.go:158-168 | a history and an answer allowed by the query for which a ledger below the target remains |
| `Submissions.SubmissionList.Add` | internal/txsub/open_submission_list.go:34-57 | the listener joins its hash's submission, which keeps its time, or opens one now |
| `Submissions.SubmissionList.Finish` | internal/txsub/open_submission_list.go:59-80 | every listener of the hash is sent to and closed, and the submission is gone |
| `Submissions.SubmissionList.Clean` | internal/txsub/open_submission_list.go:82-102 | every submission past its age gets a timeout, and the rest are counted |
| `Submissions.SubmissionList.Pending` | internal/txsub/open_submission_list.go:104-114 | it lists every open hash exactly once |
| `Submissions.System.Submit` | internal/txsub/system.go:72-153 | the new channel waits exactly when core accepted a well-formed transaction that is not stored, and else gets one result and is closed; a result without error is what a lookup found |
| `Submissions.AnsweredWithoutError` | internal/txsub/system.go:97-147 | a submission is answered without error exactly when one of the two lookups finds the transaction, and with what it found |
| `Submissions.AnsweredWithError` | internal/txsub/system.go:97-147 | every other answer carries the error of the call that stopped it |
| `Submissions.System.Tick` | internal/txsub/system.go:243-324 | exactly the submissions with a readable stored transaction or past their timeout leave the list |
| `Submissions.TxMapFinds` | internal/txsub/system.go:289-295 | a hash is found exactly when a loaded transaction has it as outer or inner hash, and then the last such one |
| `SubmissionProtocol.FinishKeepsInv` | internal/txsub/open_submission_list.go:59-80 | finishing a hash blocks on no channel, uses no closed one and settles its listeners |
| `SubmissionProtocol.DeliveredExactlyOnce` | internal/txsub/open_submission_list.go:34-114 | over every interleaving each channel is undecided, waits once under its own hash, or got one result and was closed once; no send blocks; tick's results carry the awaited hash |
| `SubmissionProtocol.ResultsAreFinal` | internal/txsub/open_submission_list.go:74-77 | a delivered result never changes afterwards |
| `SubmissionProtocol.ExpiredAreAnswered` | internal/txsub/open_submission_list.go:82-102 | the clean-up answers every listener of an expired submission with a timeout |
| `SubmissionProtocol.FoundAreAnswered` | internal/txsub/system.go:297-319 | tick answers every listener of a found readable transaction exactly once, with it, without error when it was successful and as failed when it was not |
| `SubmissionProtocol.OthersStayPending` | internal/txsub/system.go:297-319 | a hash without a stored transaction, or with an unreadable one, answers nobody |
| `Effects.TokenRoundTrip` | internal/db2/page_query.go:148-198 | parsing an effect's paging token gives back its operation and order |
| `Effects.PairMeans` | internal/db2/page_query.go:148-198 | a cursor of two parts is accepted exactly when both are numbers and neither is negative |
| `Effects.ClampKeepsRows` | internal/db2/history/effect.go:207-217 | cutting the second part to the column's range matters only for a descending cursor in front of the column's maximum |
| `Decimal.ParseSigned` | internal/db2/page_query.go:132-136 | a number parses with its sign exactly when 64 bits hold it |
| `Effects.SingleNumberSkips` | internal/db2/history/effect.go:207-217 | a one-number cursor skips every effect of that operation |
| `Effects.IdOrder` | internal/db2/history/effect.go:59-61 | lexicographic order of ids is numeric order of the pairs |
| `Effects.PageIsPastCursor` | internal/db2/history/effect.go:75-106 | tuple and expanded conditions both give the rows past the cursor, and the lower bound drops no retained row |
| `Effects.DescendingEffectsAreRetained` | internal/db2/history/effect.go:219-224 | a descending page never serves an effect older than the retained ledgers, even if its row is still there |
| `Paging.ClientLists` | internal/db2/page_query.go:75-106 | if each page starts what its cursor leaves and its last row's token leads to the remainder, enough requests list exactly what the first cursor leaves |
| `Paging.PageSplits` | internal/db2/page_query.go:75-106 | a page and the rows past its last row are together the rows past its cursor, in both directions |
| `Effects.FollowListsRest` | internal/db2/history/effect.go:226-268 | following tokens from any cursor with any positive limit lists every row past it once, in order |
| `Effects.FollowAscending` | internal/db2/history/effect.go:75-106 | from the empty cursor all effects are listed exactly when none has the lowest key, which is otherwise all that is missed |
| `Effects.FollowDescending` | internal/db2/history/effect.go:75-106 | the same downwards, for the highest key |
| `Effects.DirectionsReverse` | internal/db2/history/effect.go:226-268 | the two directions list the same effects in opposite order, whatever the page sizes and query forms |
| `CursorAdjustment.AscendingEffects` | internal/actions/helpers.go:547-568 | adjustment changes an ascending effects page exactly when the cursor is the elder ledger's own id and a row sits there |
| `CursorAdjustment.RefusedExactly` | internal/actions/helpers.go:547-595 | a query is refused as before history exactly when it is descending with a cursor up to the elder ledger's id, and as invalid exactly when the cursor does not parse |
| `CursorAdjustment.AscendingLedgers` | internal/actions/helpers.go:547-568 | adjustment changes an ascending ledgers page exactly when the cursor is the stored elder ledger's own id |
| `CursorAdjustment.ElderLedgerServedAgain` | internal/actions/helpers.go:560-565 | in that case the unadjusted page is empty and the adjusted one repeats the elder ledger |
| `CursorAdjustment.NegativeZeroIsRefused` | internal/actions/helpers.go:572-595 | in either direction a cursor the one-column page accepts is refused as invalid exactly when it contains a dash, and then it denotes zero; ascending pages refuse nothing else |
| `CursorAdjustment.NegativeZeroIsServed` | internal/db2/page_query.go:121-145 | `-0` is such a cursor |
| `CursorAdjustment.RefusedEffectsAreEmpty` | internal/actions/helpers.go:572-595 | a descending effects query refused as before history has an empty page unless a row sits at the elder ledger's own id |
| `CursorAdjustment.RefusedLedgersAreEmpty` | internal/actions/helpers.go:572-595 | a descending ledgers query refused as before history has an empty page |
| `CursorAdjustment.EffectsLoseNothing` | internal/actions/helpers.go:547-595 | for operation ids every served page is the unadjusted one, and only empty descending pages are refused |
| `CursorAdjustment.LedgersPageIsPastCursor` | internal/db2/history/ledger.go:74-85 | a ledgers page is the rows past the cursor, and the lower bound drops no retained row |
| `CursorAdjustment.DescendingLedgersAreRetained` | internal/db2/history/ledger.go:74-85 | a descending page never serves a ledger older than the retained ones, even if its row is still there |
| `ClaimableBalances.SubqueryIsJoin` | internal/db2/history/claimable_balances.go:284-341 | with linked tables the limited subquery form returns the join form's page in the same order |
| `ClaimableBalances.PageIsPastCursor` | internal/db2/history/claimable_balances.go:61-96 | at a set cursor both forms return the claimant's first balances strictly past it, in the order of the page |
| `ClaimableBalances.PageWithoutCursor` | internal/db2/history/claimable_balances.go:61-96 | without a cursor, or with one at ledger 0, both forms return the claimant's first balances |
| `ClaimableBalances.FollowListsHoldings` | internal/db2/history/claimable_balances.go:284-341 | following each page's last row lists every balance of the claimant exactly once, in either direction, form and page size |
| `ClaimableBalances.SubqueryIsAlwaysJoin` | internal/ingest/processors/claimable_balances_change_processor.go:41-136 | over any creations, updates with the same claimants, and removals, the claimants table stays exact and both query forms return the same page |
| `ClaimableBalances.Store.Commit` | internal/ingest/processors/claimable_balances_change_processor.go:97-136 | inserts, updates and removals keep the claimants table exact; it fails exactly when a balance to remove is not stored |
| `ClaimableBalances.CommittedAt` | internal/ingest/processors/claimable_balances_change_processor.go:97-136 | what is stored after a commit: removals win over updates, and updates over creations |
| `ClaimableBalances.DroppedClaimantChangesPage` | internal/db2/history/claimable_balances.go:191-221 | from linked tables, an upsert that drops a claimant unlinks them and puts a different balance on the subquery form's page |
| `ClaimableBalances.UpsertLinks` | internal/db2/history/claimable_balances.go:203-221 | an upsert keeps the tables linked exactly when no stored claimant is left with another ledger |
| `ClaimableBalances.Store.UpsertCBClaimants` | internal/db2/history/claimable_balances.go:203-221 | one row per balance and claimant is upserted |
| `ClaimableBalances.Store.RemoveClaimableBalances` | internal/db2/history/claimable_balances.go:251-273 | removing balances and their claimants keeps the tables linked |

## Left out

- `verifyRangeState`, `stressTestState` and the fake ledger backend: one-shot commands outside the shared-lock protocol.
- `historyRange` in load-test exclusion: it does not check for a pending load test, so exclusion is stated for start, build and resume.
- Mixed-version clusters and external rebuild triggers: every process runs the current version.
- Gap-freeness under load tests: restoring deletes from the middle of history what other processes may have continued.
- The reaper inside a cluster run: an action deletes below a bound in one step; its batches are the subject of `Reaping`.
- Order book runs in which the state is rebuilt between two updates without the stream noticing: the environment ingests forward, compacts, or shows a status that resets the stream.
- The order book's verification of its own graph: a failed comparison is the step that forgets the ledger.
- `checkAssetStats` and `checkContractBalances`: derived statistics, not the entry comparison.
- StateVerifier.VerifyState: it takes the normal form of entries as an idempotent function and the archive's keys as distinct, as the archive reader guarantees.
- ParallelJobs.BatchSize: the worker count is positive and the range size below 2^32, which construction and validation ensure.
- ParallelProtocol: workers exist from the start; failures while creating them and the trade aggregation rebuild are not modelled.
- Reaping.Reaper.ClearBefore: a stored ledger stands for all its rows in the other history tables, so a batch is empty exactly when it holds no ledger; the batch size is below 2^31.
- Submissions.System.Submit: validation and lookups are its inputs; waiting for the account sequence is the outcome of that wait.
- Submissions.SubmissionList.Clean: one clock reading serves all submissions of a pass.
- Page orders other than ascending and descending, and the limits of 1 to 200: refused before any query is built.
- Effects of liquidity pools and offers by sponsor: their limits apply before rows are complete.
- Claimable balance cursors as text, and the asset and sponsor filters: they select rows the same way in both query forms.
- ClaimableBalances.Store.Commit: created ids are new and updates keep the claimants, as the network guarantees; a failed commit is rolled back by its caller.
- ClaimableBalances.FollowListsHoldings: every balance carries a positive ledger, as the network's do; a row at ledger 0 has a token that counts as no cursor.
- ParallelJobs.QueueRequest: the batch size is computed once the ranges are known to be valid; on refused ranges nothing depends on it.
- ClaimableBalances.Store.UpsertClaimableBalances: batches name each balance once, since one statement cannot upsert a row twice.
- HTTP, rendering, streaming, metrics, logging, XDR, archives and the Postgres driver: their results are parameters.
