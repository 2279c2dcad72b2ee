# Steam Hangar: verified models of the cache vault, its agent and its event feed

Steam Hangar keeps a store of Steam depots for a household. `vault-core` (nginx) serves and stores
chunks, `vault-api` (Python, one SQLite file) fills the store with prefill jobs, deletes and
collects from it and counts what was served, and `vault-agent` (Go) runs on the gaming machines.
This project models the parts of that system whose correctness spans several functions, and proves
what they promise.

Verify with `dafny verify dfyconfig.toml`. Every file is one module.

## What is modelled

**Tables and jobs.** `Tables` holds the rows (`apps`, `depot_app_map`, `jobs` with the hand-off
columns) and each transaction as a function of the whole database. `JobTable` is the same module
as it runs: a class whose methods read rows, decide and write rows, each proved to have exactly the
effect of its function. What those functions guarantee is proved over runs. `IntegerTexts` is how a text in a
depot column reads as an integer.

**Deletion.** `Deletion` is the plan, `CacheDelete` one request run on its own (class `Vault`),
`Reclaim` a whole series of requests, `CachedApps` the bulk question which apps hold content.

**The system in time.** `Lifecycle` puts API calls, the phases of any number of `DELETE` requests,
the worker thread, runners, crashes, restarts and the clock into one step function over one
`World`, and `Requests` writes out what single steps leave in the tables; nothing is held between two steps, so every interleaving is a run. API events are possible at
any time and depots of one request may be taken in any order, so the runs include all runs of the
system. `JobLaws`, `JobRuns`, `JobEnds`, `StopRequests`, `QueueMode`, `Removals`, `ForceFlag` and `RaisedFlags` are theorems
about all runs; `Witnesses` are short runs from an empty database to the states where a promise fails.

**Garbage collection.** `Gc` reads stored manifests, `ExtraManifests` picks the extra ids that are read,
`GcPlan` plans, `GcExecute` (class `Collector`) carries a plan out on a disk others change too, `GcJob` is a
whole job, `GcTwice` compares a run with the next one, `GcMeaning` writes out what a plan says on rows and files. The collector keeps a ghost record of every change it
makes itself, so that what it does can be stated whatever others do in between. A decoded manifest is a set of chunk names under the depot and id it claims; decoding itself is a parameter.

**The event feed.** `EventLine` is the line format at both ends, `Tallies` the counting, `Sweep` one
batch, `SweepRuns` (class `Sweeper`) whole histories of writers, sweeps, crashes and truncations.

**Byte formats of the agent.** `HostsText`, `HostsFile` (class `HostsFile`), `HostsConflicts` and `HostsLaws` are the
managed block of a hosts file over byte strings; `KeyValues`, `KeyValuesLaws` and `KeyValuesTexts` Valve's text format.

**Smaller ledgers.** `AgentReports` (class `ReportTable`) is the snapshot chain per client,
`CacheSizes` the size arithmetic, `StorePath` nginx's decision what to store.

`Options`, `Digits`, `Sums`, `StringOrder` and `Newlines` hold what several modules need.

## Where the code and its documentation differ

The model follows the code. Each of these is a theorem with a condition that says exactly when the
promise holds, or a concrete run on which it fails.

- api/README.md:1503-1504 says every transition to a terminal status clears `stop_request`. The start-up
  recovery (api/vault_api/jobs.py:1037-1122) does not: `JobRuns.StopRequestAtTheEnd`,
  `JobRuns.RecoveryKeepsStopRequest`, `Witnesses.FailedWithAStopRequest`.
- api/README.md:1374-1376 says cancelling a queued job never touches `apps.status`. It resets a `running` app
  whose status belongs to another job of the same app: `JobRuns.WaitingCancelMovesStatus`,
  `Witnesses.IdleWhileRunning`.
- api/README.md:944-948 says a restart in queue mode is invisible. A result that has not been written up when
  vault-api stops, or that arrives before the new worker's first poll, leaves the job `running` and blocks its
  app for as long as queue mode stays on: `QueueMode.StrandsExactlyWhen`, `QueueMode.CrashDecides`,
  `QueueMode.StrandedForever`, `Witnesses.SuccessThatStrands`. A start in the other mode fails it:
  `QueueMode.OtherModeFailsStranded`.
- The compare-and-swap of `needs_force` (api/README.md:1163-1185) protects a flag raised during a run that read 0.
  A flag raised during a run that read 1 is lost: `ForceFlag.SurvivesTheSwapExactlyWhenUnread`,
  `ForceFlag.FlagRaisedAgainIsLost`.
- A mapping row with an unusable depot id turns its app's deletion into an error, the app then counts as having
  content, and a depot it shares with an app that has content leaks in some order of deletions, and only then:
  `Reclaim.LeaksExactlyWhen`, `Reclaim.UnusableRowLeaks`.
- api/vault_api/gc_execute.py:914-919 says dedupe never ends with zero copies of a manifest. It compares every
  duplicate with the kept copy first, but someone else can take the kept copy between that comparison and the unlink,
  and only then: `GcExecute.KeptCopyStays`, `GcExecute.LastCopyCanGo`.
- agent/README.md:614 says a block that is already right is not written again. After `apply` over an existing block
  with a foreign interior and mixed line ends the next `apply` does write once more: `HostsLaws.SecondApplyIsQuietExactlyWhen`,
  `HostsLaws.MixedInteriorTakesTwo`; from the second round on it is quiet: `HostsLaws.ThirdApplyIsQuiet`.
- agent/README.md:1782-1793 strips a conditional tag behind a value. Any word in brackets counts as one, a quoted key
  included, so not every tree comes back from the parser: `KeyValuesLaws.RoundTripExactlyWhen`, `KeyValuesLaws.TagLikeKeyIsLost`.
- api/README.md:3501-3504: a replaced event log is noticed exactly when it is shorter than the cursor; one that
  grew past it loses lines: `SweepRuns.SwapIsSeenExactlyWhenShorter`, `SweepRuns.RegrownFileLosesLines`.
- api/README.md:3526-3528: emptying the log and resetting the cursor are a call and a transaction after it. A death
  between them loses lines exactly when the new file is as long as the old cursor by the next sweep:
  `SweepRuns.NothingIsLostExactlyWhen`, `SweepRuns.TornTruncationLosesLines`.
- api/README.md:4415-4416 says extra manifest ids can only add protection. That holds against having none, and between
  lists exactly when at most 32 distinct valid ids are known: `GcPlan.MoreIdsOnlyProtectExactlyWhen`,
  `ExtraManifests.ThirtyThreeDropOne`.
- api/README.md:2248-2249 says a rowid is never recycled. It is, exactly after the client of the newest row is deleted; the
  order the code relies on still holds: `AgentReports.RowidComesBackExactlyWhen`, `AgentReports.RowidsFollowInsertion`.
- core/nginx/nginx.conf:166-170: a request nginx hands on to a second server group, joined by a colon, is not stored
  when that group's only attempt answers 200: `StorePath.StoredExactlyWhen`. The file has one proxied location and no
  `error_page`, so a second group arises only from an internal redirect, such as an upstream answer with
  `X-Accel-Redirect`.

## Model

| member | source | states |
|---|---|---|
| `Deletion.PlanDeletion` | api/vault_api/deletion.py:658-740 | the accumulating loops over the mapping rows give every depot the verdict its set of owners calls for: not mapped, exclusive, remnant, or shared as soon as one owner is unreadable or counts as cached; each depot stands under one heading and every unusable id is listed |
| `Deletion.PlanAgreesWithRecheck` | api/vault_api/deletion.py:1023-1074 | on one database the plan releases exactly the depots the recheck before removal would release, its remnant and shared lists are the recheck's co-owners, and an exclusive depot has none |
| `CacheDelete.LoadCoOwners` | api/vault_api/deletion.py:1023-1074 | the recheck finds a cached owner exactly when some other claim on the depot is unreadable or its app has content; otherwise it lists exactly the readable co-owners |
| `CacheDelete.Vault.DeleteDepot` | api/vault_api/deletion.py:748-980 | one recheck and at most one removal: kept, unchecked, removed with the bytes the disk held for it, none if it was absent, or left behind with what the failed removal left |
| `CacheDelete.Vault.DeleteAppDepots` | api/vault_api/deletion.py:748-980 | the loop reports and removes per depot exactly as if each had been judged on the disk the request started with, deleted ones with the bytes that disk held, and touches no other directory |
| `CacheDelete.Vault.DeleteCachedApp` | api/vault_api/routers/cache.py:146-420 | the whole request: which refusal, leaving everything as it was, or which report, and the tables and disk it leaves; deleted depots with the bytes they had, which without trouble are exactly the bytes the disk lost |
| `CacheDelete.Refusals` | api/vault_api/routers/cache.py:215-320 | which request is refused and how: an app without a row, an app without a mapping row, an app with a queued, running or paused job, an unusable cache root; a refusal changes nothing |
| `CacheDelete.ReportMeans` | api/vault_api/deletion.py:748-980 | a mapped depot stands under deleted, failed or kept, and exactly when; a deleted one is gone and reported with the bytes the disk held for it, nothing if it was absent, and every other directory is as it was but for what a failed removal left |
| `CacheDelete.FreedIsGone` | api/vault_api/routers/cache.py:395-396 | conservation of bytes: what the disk held is what it holds, what is reported as freed and what failed removals took; without failed removals the report is exact |
| `CacheDelete.TablesAfter` | api/vault_api/routers/cache.py:345-393 | the app ends idle, or in error if anything failed or was unreadable, and never filled; its flag is up exactly if it was, or anything was deleted or failed, and so is that of every readable other owner of what was touched; no other app moves |
| `Reclaim.SurvivesExactlyWhen` | api/vault_api/deletion.py:748-980 | over any series of requests, a depot survives exactly when no accepted request for an owner found it unprotected by those still cached at that point |
| `Reclaim.OrderDoesNotMatter` | api/vault_api/deletion.py:997-1020 | with readable depot ids the outcome does not depend on the order: gone exactly when all other claims belong to apps deleted in the series or without content |
| `Reclaim.NothingLeaks` | api/vault_api/deletion.py:1414-1456 | deleting every app once, in any order and for any sharing, leaves no mapped depot on disk and keeps every mapping row |
| `Reclaim.LeaksExactlyWhen` | api/vault_api/deletion.py:1414-1456 | without the readable-row condition: with a depot's owners readable, tracked and idle, some order of deleting them all leaves it on disk, one request each being enough, exactly when two different owners have one an unusable mapping row and the other cache content |
| `Reclaim.UnusableRowLeaks` | api/vault_api/deletion.py:1414-1456 | the readable-row condition is needed: a concrete library where one order of deletions leaks and the other does not |
| `CachedApps.AppidsWithCacheContent` | api/vault_api/deletion.py:1200-1326 | the bulk answer from one read is exactly the apps whose own plan has a deletable depot with bytes |
| `CachedApps.DeletedAppDropsOut` | api/vault_api/deletion.py:1200-1326 | right after a clean deletion the app is not in that answer, and depots its cached co-owners share keep their bytes |
| `CachedApps.SharedDepotPassesOn` | api/vault_api/deletion.py:1200-1326 | a kept shared depot is attributed to its last cached owner from then on |
| `Removals.RemovedOnlyAfterRecheck` | api/vault_api/deletion.py:748-980 | in every interleaving a depot directory disappears only in the removal phase of a DELETE whose own recheck, earlier in the run, found every other owner readable, tracked, idle, unfilled and free of jobs |
| `Removals.EveryRemovalRestsOnARecheck` | api/vault_api/deletion.py:1023-1074 | a request that is about to remove a depot has such a recheck behind it, and has been about to remove it ever since |
| `Removals.UnreadableOwnerProtects` | api/vault_api/deletion.py:1023-1074 | an unreadable claim keeps a depot from being released, always |
| `Removals.WindowAfterTheRecheck` | api/vault_api/deletion.py:748-980 | how far the protection goes: a prefill requested for a co-owner between recheck and removal does not stop the removal |
| `Removals.PlannedCandidates` | api/vault_api/deletion.py:1077-1138 | the candidates a request computes from its own reads are exactly the releasable depots of the tables it read |
| `ForceFlag.OnlyAForcedRunClears` | api/vault_api/jobs.py:333-395 | in every step of the system the flag of an app goes down exactly in the swap of a run of that app that read 1 |
| `ForceFlag.SurvivesTheSwapExactlyWhenUnread` | api/vault_api/jobs.py:333-395 | a raised flag survives the swap exactly when the run had read 0 |
| `ForceFlag.FlagHoldsUntilRead` | api/vault_api/jobs.py:333-395 | no lost flag: with no forced run of the app under way, a raised flag stays up through any further steps until the next run of the app reads it, and that run is forced |
| `ForceFlag.RaisedDuringUnforcedRun` | api/vault_api/jobs.py:333-395 | in particular a flag raised while a run that read 0 is under way survives the end of that run |
| `RaisedFlags.RemovalOwes` | api/vault_api/deletion.py:748-980 | removing a depot, or failing to, owes a flag to the app and to every co-owner the recheck listed |
| `RaisedFlags.OwesStep` | api/vault_api/deletion.py:1414-1456 | each step keeps that debt, pays the app's part with the reset, or is a crash, which forgets the request with the tables as they are |
| `RaisedFlags.OwnersStep` | api/vault_api/deletion.py:1365-1387 | likewise for the co-owners' part, paid by the flagging |
| `RaisedFlags.RemovalTellsEveryone` | api/vault_api/routers/cache.py:345-406 | a request that removed or failed on something and ends without a crash has raised its app's flag and then that of every tracked co-owner of what it touched, whatever else happened in between |
| `ForceFlag.FlagRaisedAgainIsLost` | api/vault_api/jobs.py:333-395 | a reachable run in which a flag raised again during a forced run is gone although the mapped depot is not on disk |
| `JobTable.JobTable.EnqueuePrefill` | api/vault_api/jobs.py:398-435 | the app row is ensured and the oldest in-flight prefill returned, or one queued job appended |
| `JobTable.JobTable.EnqueueGc` | api/vault_api/jobs.py:438-494 | the same for a collection job, told apart by its mode |
| `JobTable.JobTable.ClaimNextJob` | api/vault_api/jobs.py:572-614 | the least queued id starts, and nothing is claimed only when nothing is queued |
| `JobTable.JobTable.FinishJob` | api/vault_api/jobs.py:617-662 | only this row changes; it carries no stop request any more and keeps its hand-off columns, and with an outcome the job counts no more: an app has an active job exactly when some other job of it is active |
| `JobTable.JobTable.CancelJob` | api/vault_api/jobs.py:788-884 | which of the four answers each status gets, and what changes with it: nothing on a refusal, the outcome and the app's reset at once for a waiting job, only a request for a running one |
| `JobTable.JobTable.RequestPause` | api/vault_api/jobs.py:887-967 | only a running prefill job gets a pause request |
| `JobTable.JobTable.ResumeJob` | api/vault_api/jobs.py:970-1025 | only a paused job goes back to the queue, under its old id |
| `JobTable.JobTable.RecoverStaleJobs` | api/vault_api/jobs.py:1037-1122 | the pass over dead running rows fails exactly the orphans and the running apps they belong to, in whatever order rows of one app come |
| `JobTable.JobTable.HandoffRun` | api/vault_api/jobs.py:1165-1214 | only this row changes; a running prefill is then open to any runner and held by none, and its lease counts from its start, whatever an earlier attempt had left in the row |
| `JobTable.JobTable.ClaimRun` | api/vault_api/jobs.py:1217-1267 | the oldest open, unclaimed run goes to the runner that asked, and only such a run |
| `JobTable.JobTable.ApplyObservedMapping` | api/vault_api/prefill.py:559-606 | afterwards the app's integer rows are exactly the observed depots and no other row has moved; an empty observation changes nothing, and so does a mapped depot that does not read as an integer, which raises |
| `Requests.PrefillMeans` | api/vault_api/jobs.py:398-435 | row by row: an unknown app is idle, was never filled and must be filled by force; one job waits at the end unless the app has an open prefill |
| `Requests.CollectMeans` | api/vault_api/jobs.py:438-494 | likewise per app and mode, without an app row |
| `Requests.CancelMeans` | api/vault_api/jobs.py:788-884 | nothing for an unknown or ended job, a stop request for a running one, and for a waiting one the outcome at once and its app idle if it showed running |
| `Requests.PauseAndResumeMean` | api/vault_api/jobs.py:887-1025 | a pause is a stop request for a running prefill and a resume puts a paused job back, and nothing else changes anything |
| `Requests.MappingMeans` | api/vault_api/mapping.py:30-95 | a mapping is written as one row with its depot and app and an app row beside it, and taken away as that one row alone |
| `Requests.PollMeans` | api/vault_api/jobs.py:572-614 | the first queued job runs from that time on and is in the worker's hands; nothing else moves |
| `Requests.MarkMeans` | api/vault_api/jobs.py:264-310 | the claimed job's app shows running; when it was last filled and its flag stay |
| `Requests.ReadMeans` | api/vault_api/jobs.py:311-345 | the run is forced exactly when the app's flag is up or the app has no row |
| `Requests.HandOffMeans` | api/vault_api/jobs.py:1165-1214 | a hand-off starts a fresh attempt with the flag read at the claim |
| `Requests.OutsideMeans` | api/vault_api/worker.py:145-180 | time and arriving files leave the tables alone; a death leaves tables and disk and forgets the worker's place and every request under way |
| `Requests.CollectionMeans` | api/vault_api/jobs.py:617-662 | a collection flags the apps whose depots it touched and ends with its outcome |
| `Requests.StartMeans` | api/vault_api/jobs.py:1037-1122 | a start fails every running job a dead process can have left behind, and every app shown running because of one, and touches nothing else |
| `Requests.IdExactlyWhen` | api/vault_api/deletion.py:168-200 | a stored id is usable exactly when it is a positive number or a text of digits that spells one, and is read as that number |
| `Requests.BeginMeans` | api/vault_api/routers/cache.py:205-240 | a DELETE goes on only for a tracked app with a mapping row, with every row of every depot the app maps |
| `Requests.JobCheckMeans` | api/vault_api/routers/cache.py:236-290 | a queued, running or paused job of the app ends the request there, else it goes on with nothing done yet |
| `Requests.RecheckMeans` | api/vault_api/deletion.py:860-905 | the recheck of one depot: unanswered it has failed, with somebody cached claiming it is kept, else it is to be removed with its readable co-owners noted |
| `Requests.RemoveMeans` | api/vault_api/deletion.py:905-978 | the removal: deleted if it can be removed or is not there, else failed, co-owners to be flagged in each case |
| `Requests.ResetMeans` | api/vault_api/deletion.py:1414-1456 | the reset: idle, or in error if anything failed or was unreadable, never filled, and forced if anything was deleted or failed |
| `Requests.FlagMeans` | api/vault_api/deletion.py:1365-1387 | the flagging raises the flag of exactly the tracked apps noted |
| `IntegerTexts.IntegerExactlyWhen` | api/vault_api/prefill.py:559-606 | a mapped depot stored as text reads as an integer exactly when it is, white space around it apart, a sign or none and runs of digits with single underscores between them |
| `IntegerTexts.UnreadableExactlyWhen` | api/vault_api/prefill.py:559-606 | an app's mapping cannot be compared with an observation exactly when a row of its own has such a depot that reads as no integer |
| `JobLaws.StepIsLawful` | api/vault_api/jobs.py:572-662 | every status change any step can make is one of the transition table, made by the step and worker state the table names |
| `JobLaws.StepFollowsRunLaw` | api/vault_api/jobs.py:1165-1314 | every change of the hand-off columns is a hand-off, a first claim, or a heartbeat or result of the claiming runner |
| `JobLaws.NewJobs` | api/vault_api/jobs.py:398-494 | a step appends at most one job, and never beside one in flight for the same app and kind |
| `JobLaws.OnePerAppKept` | api/vault_api/jobs.py:398-435 | at most one active prefill job per app, kept by every step |
| `JobLaws.SoundAlways` | api/vault_api/worker.py:145-180 | over every run: one active prefill per app, the worker's job is running and its own, and every running job that no runner was told about is in the worker's hands |
| `JobRuns.OneRunningJob` | api/vault_api/worker.py:145-180 | without hand-off at most one job is running in every reachable state, restarts included |
| `JobRuns.OutcomesAreFinal` | api/vault_api/jobs.py:617-662 | the row of a finished job never changes again, whatever any run does |
| `JobEnds.StoppedRunEnds` | api/vault_api/worker.py:643-728 | in both modes a run stopped on request leaves its app not running and nothing else about apps, mapping or flags changed, and its job ends cancelled or paused, whichever was asked for, whatever others do before it is written up |
| `JobEnds.FailedRunEnds` | api/vault_api/worker.py:606-641 | a failed run, an unconfirmed success and one whose mapping cannot be read end in error, app and job; when the app was last filled and its flag stay |
| `JobEnds.SuccessGoesOnToDone` | api/vault_api/worker.py:376-605 | from a confirmed success on, the job is running in the worker's hands or done and nothing else, through any interleaving in which the process lives and no worker step raises |
| `JobEnds.SuccessIsRecorded` | api/vault_api/worker.py:376-605 | the step that records it shows the app done and filled at that time, and keeps the flag |
| `JobEnds.ConfirmedRunEnds` | api/vault_api/worker.py:376-605 | end to end, the worker left to itself: job done, app done and filled at that time, flag down unless the run had read 0, mapping exactly what was observed, or as before if nothing was, and no other app, job or row moved |
| `JobRuns.CancelledInQueueNeverRuns` | api/vault_api/jobs.py:788-884 | a job cancelled while queued is never started |
| `JobRuns.ClaimsFollowIds` | api/vault_api/jobs.py:572-614 | over every run: for as long as a job waits in the queue, a resumed one included, no job with a later id is started, whether it was there already or not |
| `JobRuns.PausedJobsWait` | api/vault_api/jobs.py:970-1025 | only its own resume or cancel moves a paused job, however often the process restarts |
| `JobRuns.StopRequestAtTheEnd` | api/vault_api/jobs.py:1037-1122 | a job reaches its outcome with a stop request exactly when the start-up recovery failed it with one pending |
| `JobRuns.RecoveryKeepsStopRequest` | api/vault_api/jobs.py:1037-1122 | such a request then stays on the finished job for good |
| `Witnesses.FailedWithAStopRequest` | api/vault_api/jobs.py:1037-1122 | a run from an empty database that ends in such a job |
| `JobRuns.WaitingCancelMovesStatus` | api/vault_api/jobs.py:788-884 | cancelling a waiting job changes its app's status exactly when the app shows running |
| `Witnesses.IdleWhileRunning` | api/vault_api/jobs.py:788-884 | a run from an empty database in which a cancelled collection leaves a running prefill's app idle |
| `StopRequests.StepFollowsStopLaw` | api/vault_api/jobs.py:752-1025 | every step: a stop request is set only by a cancel or pause of the running job, a pause only on a prefill, carried through a claim and a restart, and cleared by every other change of status |
| `StopRequests.WaitingJobsHaveNoStop` | api/vault_api/jobs.py:707-721 | over every run no waiting job, a paused one included, has a stop request, so each is claimed with a clean slate |
| `StopRequests.NoStopsAtFirst` | api/vault_api/jobs.py:707-721 | the same for every state reachable from an empty queue |
| `StopRequests.PendingIsLastAsked` | api/vault_api/jobs.py:707-721 | while a job keeps running, what is pending for it is exactly the last cancel or pause asked for since its claim |
| `QueueMode.OneClaimPerHandoff` | api/vault_api/jobs.py:1217-1267 | a claimed hand-off stays with its runner until the same job is handed off again, over every run |
| `QueueMode.QueueSoundAlways` | api/vault_api/worker.py:297-374 | over every queue-mode run the worker waits for the run it handed off with that force value, at most one run is open and a busy worker holds it, and waiting jobs carry no unfinished hand-off |
| `QueueMode.CoherentAlways` | api/vault_api/worker.py:297-374 | the invariants of both modes together, and no hand-off at all in subprocess mode |
| `QueueMode.ReachableIsCoherent` | api/vault_api/worker.py:145-180 | so they hold in every state reachable from an empty queue, in either mode |
| `QueueMode.RestartResumesOpenRuns` | api/vault_api/worker.py:320-374 | a crash and then any events up to the new worker's first poll leave a handed-off run's row and force value alone; that poll waits for it again exactly when no result came in before the crash or since |
| `QueueMode.StrandsExactlyWhen` | api/vault_api/jobs.py:1292-1343 | step by step: a run becomes stranded exactly by a crash of the worker that holds its result, or by the holding runner's result arriving while no worker holds the run |
| `QueueMode.CrashDecides` | api/vault_api/jobs.py:1037-1122 | a crash and then any events up to the first poll leave a running job failed, when it was not handed off, and else open or stranded, by whether a result is in by then |
| `QueueMode.StrandedForever` | api/vault_api/jobs.py:1316-1343 | while queue mode stays on a stranded run stays running through every further run, and its app can neither be deleted nor prefilled again |
| `QueueMode.OtherModeFailsStranded` | api/vault_api/jobs.py:1037-1122 | a start in subprocess mode fails a stranded run, a start in queue mode leaves it |
| `Witnesses.SuccessThatStrands` | api/vault_api/jobs.py:1316-1343 | a run from an empty database in which a reported success is never written up, whatever happens afterwards |
| `QueueMode.RunningWhileIdle` | api/vault_api/worker.py:145-180 | with the worker up and free, every running job is open or stranded |
| `QueueMode.OneLiveRun` | api/vault_api/worker.py:145-180 | while the worker is up, of two running jobs one is stranded |
| `QueueMode.SilentRunnersAreGivenUp` | api/vault_api/prefill_queue.py:110-184 | an open run that no claim, heartbeat or result reaches any more ends in error for good once the worker has polled and looked past the lease, whatever else happened in between, crashes and restarts included |
| `QueueMode.WaitsExactlyWithinLease` | api/vault_api/jobs.py:1346-1394 | the other half: the worker goes on waiting exactly as long as no result is in and the last heartbeat, claim or start, if there is any, lies within the lease |
| `QueueMode.BeatBuysALease` | api/vault_api/jobs.py:1270-1289 | after a heartbeat the worker waits through every poll up to one lease later and gives the run up at the first one after it |
| `QueueMode.OnlyTheHolderReports` | api/vault_api/jobs.py:1270-1313 | heartbeat and result of the runner that holds a running job are recorded with the time and the outcome and change nothing else; anybody else's change nothing at all |
| `QueueMode.ClaimIsASign` | api/vault_api/jobs.py:1217-1267 | a claim goes to the first open run nobody holds and counts as a sign of life at once |
| `Gc.ScanCopies` | api/vault_api/gc.py:449-512 | the scan of one stored id lists exactly its regular files, newest first with ties broken by name |
| `Gc.TryStoredCopies` | api/vault_api/gc.py:752-773 | reading in that order stops at the newest copy that decodes to the id and depot it is filed under |
| `Gc.ReadManifestById` | api/vault_api/gc.py:1024-1062 | the archive first, then the stored copies of that id only |
| `Gc.NewestStoredId` | api/vault_api/gc.py:1180-1195 | the id one of whose copies is later than every copy of every other id, and nothing only if no valid id has a copy |
| `GcPlan.ResolveAppManifest` | api/vault_api/gc.py:1065-1177 | a recorded manifest or nothing; without a record the newest stored one or nothing; never an older one |
| `GcPlan.RequiredChunks` | api/vault_api/gc.py:776-925 | the loop resolves every counting app or says that one failed, and the keep set is the union of what resolved |
| `GcPlan.UnionExtraManifests` | api/vault_api/gc.py:928-1021 | validating, collapsing, sorting and capping the extra ids and reading them one by one adds exactly the chunks of the readable ones among the 32 smallest distinct valid ids |
| `GcPlan.ResolveDepotChunkset` | api/vault_api/gc.py:776-925 | the readiness gate and, when it opens, exactly the kept chunks |
| `GcPlan.DedupeCandidates` | api/vault_api/gc.py:544-557 | one candidate for every valid id stored more than once, keeping its newest copy and listing all others |
| `GcPlan.PlanOneDepot` | api/vault_api/gc.py:1423-1530 | status, keep set, orphans and duplicates of one depot, and an empty plan for a missing directory |
| `GcMeaning.CurrentExactlyWhen` | api/vault_api/gc.py:1065-1195 | written out on the files: the current manifest of an app says these chunks exactly when its recorded id is a valid one and the archive, or else the newest copy that decodes to that depot and id, says them, or, with none recorded, the newest decoding copy of the id stored last does |
| `GcMeaning.StatusExactlyWhen` | api/vault_api/gc.py:776-925 | written out on the rows: why a depot is planned or not - no directory, no row, a row with an unreadable owner, no owner with a recorded manifest or cache content, one of those whose current manifest cannot be read |
| `GcMeaning.OrphanExactlyWhen` | api/vault_api/gc.py:1423-1530 | written out on rows and files: a chunk is planned, with its size, exactly when it is a regular file with a chunk's name in a planned depot that neither a counting owner's current manifest nor an extra manifest that is read lists |
| `GcMeaning.CollapsedExactlyWhen` | api/vault_api/gc.py:544-557 | an id is a candidate exactly when it is valid and stored twice; the copy stored last is kept and all others are its duplicates |
| `GcPlan.PlanGc` | api/vault_api/gc.py:1334-1420 | one plan per mapped depot, each from all claims on that depot |
| `GcPlan.PlanSparesCurrentManifests` | api/vault_api/gc.py:776-925 | a planned depot resolved every counting app and names none of their chunks |
| `GcPlan.EvidenceOnlyProtects` | api/vault_api/gc.py:928-1021 | further mapped apps and further ids among those read only shrink what a plan names |
| `GcPlan.MoreIdsOnlyProtectExactlyWhen` | api/vault_api/gc.py:928-1021 | no depot ever loses protection by knowing more extra ids if and only if at most 32 distinct valid ids are known |
| `ExtraManifests.OrderExtras` | api/vault_api/gc.py:951-965 | the distinct valid ids in string order |
| `StringOrder.LessExactlyWhen` | api/vault_api/gc.py:951-965 | the order ids and names are compared in: a proper prefix first, else the first difference decides |
| `ExtraManifests.OnlyAddsExactlyWhen` | api/vault_api/gc.py:951-967 | every part of a list has only ids that are read with the whole list if and only if the list has at most 32 distinct valid ids |
| `ExtraManifests.ThirtyThreeDropOne` | api/vault_api/gc.py:951-967 | thirty-three concrete ids of which one is read alone and not with the others |
| `GcPlan.UncachedCoOwnerChangesNothing` | api/vault_api/gc.py:776-925 | an extra uncached owner without a recorded manifest leaves gate and orphans as they were |
| `GcExecute.Collector.RemovePlannedChunk` | api/vault_api/gc_execute.py:590-649 | one name: gone with its size, already gone, refused as unsafe, link or directory, or failed; nothing else moves |
| `GcMeaning.RemovalExactlyWhen` | api/vault_api/gc_execute.py:590-649 | which refusal a name meets: by its forty hexadecimal digits and what stands at it |
| `GcMeaning.CopyRemovalExactlyWhen` | api/vault_api/gc_execute.py:590-649 | likewise for a stored manifest copy |
| `GcExecute.Collector.RemoveOrphans` | api/vault_api/gc_execute.py:440-860 | whatever others do meanwhile, each of its own changes removes one regular file the plan names, touches nothing else, and is counted with the size the file had; what is removed was absent at the start or stored at least the grace window ago, unless there is no window; undisturbed, a chunk is gone exactly when the plan names it, it has a chunk's name and is an unlocked file that old |
| `GcExecute.Collector.RemoveDuplicates` | api/vault_api/gc_execute.py:960-1015 | one planned id: the kept copy is verified once, then the others are compared with it and removed one by one; whatever others do between any two of these, each copy it removes was byte for byte the kept one when the two were compared, is a planned duplicate, and is counted with the size it had; undisturbed, exactly the byte-identical unlocked duplicates go |
| `GcExecute.Collector.ExecuteDedupe` | api/vault_api/gc_execute.py:902-1015 | all planned ids: every change it makes is such a removal and every one it counts is such a change, whatever others do between any two copies; undisturbed, every planned id is collapsed and the bytes freed are reported for it |
| `GcExecute.Collector.ExecuteDepot` | api/vault_api/gc_execute.py:756-860 | a depot that was not planned is not touched at all, a planned one only as its plan allows, whatever others do |
| `GcExecute.Collector.RunGc` | api/vault_api/gc_execute.py:1288-1451 | plans are carried out in order until a cancel is seen between two; every change is allowed by the plan of a started depot, whatever others do, and undisturbed the depots never started are as they were |
| `GcJob.CollectGarbage` | api/vault_api/gc_execute.py:1288-1451 | a whole job from its plans on: a dry run changes nothing; whatever others do, none of its changes removes a chunk of a counting app's current manifest; undisturbed, all such chunks are still there and unmapped depots are as they were |
| `GcJob.PlanInOrder` | api/vault_api/gc.py:1334-1420 | one well-formed plan per mapped depot, lowest depot first |
| `GcExecute.CurrentManifestsStayWhole` | api/vault_api/gc_execute.py:756-860 | however the directory changed since the plan, no chunk of a counting app's current manifest is removed |
| `GcExecute.NothingElseIsTouched` | api/vault_api/gc_execute.py:756-860 | disk after is disk before minus planned, released regular files and verified redundant copies |
| `GcExecute.OrphansFate` | api/vault_api/gc_execute.py:440-860 | each planned orphan is gone and counted, reported as already gone, reported as a problem, or held back, and exactly when: by its name, what stands at it and its age against the window |
| `GcExecute.BytesAreAccountedFor` | api/vault_api/gc_execute.py:756-860 | the bytes a run reports as freed are exactly what the depot lost |
| `GcExecute.DuplicateBytesAreAccountedFor` | api/vault_api/gc_execute.py:902-1015 | likewise for duplicate manifests |
| `GcExecute.DuplicatesCarryNoEvidence` | api/vault_api/gc_execute.py:902-1015 | reading a stored id gives the same chunks before and after its duplicates go, and its kept copy stays |
| `GcExecute.KeptCopyStays` | api/vault_api/gc_execute.py:914-919 | no change the collector makes touches a kept copy, and an id is left without any copy only when someone else took the kept one between the comparison and the removal |
| `GcExecute.LastCopyCanGo` | api/vault_api/gc_execute.py:960-1015 | such a removal exists: two equal copies, the kept one gone before the other is unlinked, none left |
| `GcTwice.ResolutionSurvivesDedupe` | api/vault_api/gc.py:1065-1177 | removing verified duplicates changes no app's current manifest |
| `GcTwice.KeepSetSurvives` | api/vault_api/gc.py:776-925 | nor the gate or any keep set |
| `GcTwice.SecondRunRemovesNothing` | api/vault_api/gc_execute.py:1288-1451 | a second run after a clean one, on the same tables and clock, removes no chunk |
| `GcTwice.SecondRunKeepsCopies` | api/vault_api/gc_execute.py:902-1015 | and no manifest copy |
| `EventLine.LineIsReversible` | core/nginx/nginx.conf:353-354 | for every nine byte strings the written line has eight tabs, no newline, and splitting and unescaping give the fields back |
| `EventLine.ParserSeesTheFields` | api/vault_api/event_sweep.py:328-384 | a line vault-core wrote is accepted exactly when it is at most 8192 bytes long and its nine escaped fields are acceptable, and the event then tells exactly those fields |
| `EventLine.AcceptedExactlyWhen` | api/vault_api/event_sweep.py:269-384 | any line is accepted exactly when it is at most 8192 bytes long and splits into nine fields of version 1 with a clean address, one of the three cache states, a depot number or a dash, a byte count, a three-digit status and bounded time and host; the event tells them, numbers by their numerals |
| `EventLine.NineJoined` | api/vault_api/event_sweep.py:340-347 | nine fields joined by tabs, written out |
| `Digits.SpellsIsRead` | api/vault_api/event_sweep.py:269-280 | reading digits undoes writing the number: a text of digits has one value, the number it is a numeral of, leading zeros allowed |
| `EventLine.UnescapeEscape` | core/nginx/nginx.conf:353-354 | unescaping inverts nginx's escaping on every byte string |
| `Tallies.AggregateLines` | api/vault_api/event_sweep.py:734-821 | the counting loop gives the tally of its lines |
| `Tallies.LineCounts` | api/vault_api/event_sweep.py:734-821 | one line of any fields joined by tabs: nine acceptable ones raise the counters of the address they name by one request, one hit, miss, bypass or error and the bytes they spell, and the depot's misses for a 2xx MISS with a depot; every other line is skipped and moves nothing else |
| `Tallies.TallyConcat` | api/vault_api/event_sweep.py:1016-1125 | counting two parts and merging is counting the whole |
| `Tallies.RequestsAddUp` | api/vault_api/event_sweep.py:734-821 | every line is either counted or skipped, and for every client requests are hits, misses, bypasses and errors |
| `Tallies.CountersMean` | api/vault_api/event_sweep.py:734-821 | on the text: each counter of a client is the number of its acceptable lines that say HIT, MISS or BYPASS with a status starting with 2, or have any other status; bytes are summed over the 2xx lines |
| `Tallies.MissesMean` | api/vault_api/event_sweep.py:734-821 | on the text: the misses of a depot are the acceptable 2xx MISS lines whose fifth field spells it, whoever asked, and the parsed lines the acceptable ones |
| `Sweep.ReadBatch` | api/vault_api/event_sweep.py:438-506 | one bounded read: rotation, complete lines up to the last newline, an oversized line, or a stall |
| `Sweep.SkipOversized` | api/vault_api/event_sweep.py:509-563 | finds the first newline behind an oversized stretch block by block, or that there is none |
| `Sweep.BatchCountsWhatItTakes` | api/vault_api/event_sweep.py:438-563 | a batch's counters, its oversized line counted as one skipped line, are one parse of the bytes it consumed, which end at a line boundary |
| `Sweep.PlainBytesDecode` | api/vault_api/event_sweep.py:438-506 | what is asked of the decoder can be met: bytes that stand for themselves are such a decoder |
| `Sweep.OversizedIsOneRejectedLine` | api/vault_api/event_sweep.py:509-563 | an oversized stretch parses as exactly one rejected line |
| `Sweep.ReadsProgress` | api/vault_api/event_sweep.py:438-563 | a read moves the cursor exactly when a complete line waits, and stalls exactly on a full batch with no newline anywhere behind it |
| `SweepRuns.Sweeper.Commit` | api/vault_api/event_sweep.py:1016-1125 | if the counters were one parse of everything consumed before, they are after the commit of a batch of this file, with the cursor behind it |
| `SweepRuns.Sweeper.MaybeTruncate` | api/vault_api/event_sweep.py:1194-1302 | the file is emptied only when all of it is consumed, large enough and permitted, and the cursor reset after it unless a death comes first |
| `SweepRuns.EmptiedExactlyWhen` | api/vault_api/event_sweep.py:1194-1303 | a sweep empties the file exactly when it may, there is a limit, the file has reached it and all of it, what arrived after the read included, has been swept |
| `SweepRuns.Sweeper.SweepOnce` | api/vault_api/event_sweep.py:1354-1521 | one sweep is one step of the history; a death before the commit is none, a death before the cursor is reset leaves an empty file and the old cursor |
| `SweepRuns.EveryLineCountsOnce` | api/vault_api/event_sweep.py:1016-1125 | after any history the committed counters are one parse of everything consumed |
| `SweepRuns.NothingIsLostExactlyWhen` | api/vault_api/event_sweep.py:1194-1302 | unless somebody swaps the file, consumed and unread bytes make up exactly what was written, if and only if no sweep finds a file that was emptied without a reset and has grown to its old length |
| `SweepRuns.SweptIsAPrefix` | api/vault_api/event_sweep.py:438-506 | under that condition what was consumed is a prefix of what was written and the rest is still unread |
| `SweepRuns.CountersAreOneParse` | api/vault_api/event_sweep.py:1016-1125 | and the counters equal one parse of the committed prefix of the whole log |
| `SweepRuns.CaughtUp` | api/vault_api/event_sweep.py:1354-1521 | with no newline left unread they equal one parse of everything written |
| `SweepRuns.SweepsCatchUp` | api/vault_api/event_sweep.py:1354-1521 | enough sweeps without new writes leave no complete line unread |
| `SweepRuns.SwapIsSeenExactlyWhenShorter` | api/vault_api/event_sweep.py:438-506 | a replaced file is read from its start exactly when it is shorter than the cursor |
| `SweepRuns.RegrownFileLosesLines` | api/vault_api/event_sweep.py:438-506 | a concrete history in which a replaced file that grew past the cursor loses a line |
| `SweepRuns.TornTruncationLosesLines` | api/vault_api/event_sweep.py:1257-1294 | a concrete history without a swap in which a death between emptying and reset loses a line |
| `HostsFile.SplitLines` | agent/go/hostsfile/hostsfile.go:276-302 | the scan cuts a byte file into its lines with their own terminators |
| `HostsFile.LinesExactlyWhen` | agent/go/hostsfile/hostsfile.go:276-302 | the lines of a file are the one way to cut it: texts without a line feed, each with CRLF, with LF behind anything but a carriage return, or, the last one, with nothing |
| `HostsFile.LinesCut` | agent/go/hostsfile/hostsfile.go:276-302 | cutting a file at any line and splitting the parts again gives the same lines |
| `HostsFile.DominantEol` | agent/go/hostsfile/hostsfile.go:309-329 | the line end most lines have, CRLF on a tie, the platform's when there is none |
| `HostsFile.FindMarkers` | agent/go/hostsfile/hostsfile.go:413-447 | no block, one block in order, or damage |
| `HostsFile.BlockIsUnique` | agent/go/hostsfile/hostsfile.go:413-447 | a found block has its two markers and no other marker before, inside or behind it |
| `HostsConflicts.FoundExactlyWhen` | agent/go/hostsfile/hostsfile.go:413-447 | no block exactly when no line is a marker, this block exactly when its two lines are the only markers, a begin before an end |
| `HostsConflicts.MarkerExactlyWhen` | agent/go/hostsfile/hostsfile.go:72-107 | a line is a marker exactly when, white space around it apart, it is one of the four begin or end markers, alone or with a blank and a remark behind it |
| `HostsFile.HostsFile.Apply` | agent/go/hostsfile/hostsfile.go:749-783 | which refusal or which bytes, whether anything was written, and that the old bytes were saved first |
| `HostsConflicts.AnswerExactlyWhen` | agent/go/hostsfile/hostsfile.go:522-541 | which of the five answers a file and an address get, and exactly when; a conflict is a line outside the block that names the host behind an address, in a file that passes the checks before it |
| `HostsConflicts.ConflictExactlyWhen` | agent/go/hostsfile/hostsfile.go:357-388 | a line conflicts exactly when it is made of words with any white space between them, perhaps a comment behind, and some word but the first spells the host name |
| `HostsConflicts.HostExactlyWhen` | agent/go/hostsfile/hostsfile.go:371-388 | a word spells the host name exactly when it is its letters, each small or capital or, for an s, the long s, with or without one dot behind |
| `HostsConflicts.AddressExactlyWhen` | agent/go/hostsfile/hostsfile.go:829-861 | an address is taken exactly when it is the dotted numerals of four numbers up to 255, neither all 0 nor all 255, the first not from 224 to 239 |
| `HostsFile.HostsFile.Remove` | agent/go/hostsfile/hostsfile.go:791-820 | likewise for removal, which no foreign entry blocks |
| `HostsConflicts.RemovalExactlyWhen` | agent/go/hostsfile/hostsfile.go:791-820 | removal is refused exactly for text that is not plain or markers that are damaged, and without a block changes nothing |
| `HostsLaws.RemoveUndoesApply` | agent/go/hostsfile/hostsfile.go:564-603 | for every accepted file without a block, removal gives the file back, plus one line end if it lacked one |
| `HostsLaws.LastAddressWins` | agent/go/hostsfile/hostsfile.go:749-783 | without a block, applying a second address gives the same bytes as applying it at once; a repeat changes nothing |
| `HostsLaws.LastAddressWinsExactlyWhen` | agent/go/hostsfile/hostsfile.go:749-783 | over an existing block the same holds exactly when the line end chosen first still dominates without the replaced interior |
| `HostsLaws.AppliedIsPresent` | agent/go/hostsfile/hostsfile.go:474-517 | what apply wrote is judged present and correct, for every file it accepts |
| `HostsLaws.OutsideIsKept` | agent/go/hostsfile/hostsfile.go:564-587 | every byte outside an existing block is kept, mixed line ends included |
| `HostsLaws.SecondApplyIsQuietExactlyWhen` | agent/go/hostsfile/hostsfile.go:749-783 | over an existing block a repeat changes nothing exactly when the line end chosen first still dominates without the replaced interior |
| `HostsLaws.ThirdApplyIsQuiet` | agent/go/hostsfile/hostsfile.go:749-783 | from the second application on a repeat changes nothing, for every accepted file |
| `HostsLaws.MixedInteriorTakesTwo` | agent/go/hostsfile/hostsfile.go:309-329 | a concrete file that is accepted for every valid address, and there is one, and whose second application changes what the first wrote |
| `KeyValues.ScanQuoted` | agent/go/acf/tokenizer.go:77-125 | the quoted-string loop reads one string with its escapes, or finds it unterminated |
| `KeyValues.TokenizeText` | agent/go/acf/tokenizer.go:39-154 | the index loop gives the tokens of the text, or nothing for an unterminated quote |
| `KeyValuesLaws.PrintedTokens` | agent/go/acf/tokenizer.go:39-154 | the tokens of a printed tree are the tree's own, whatever its keys and texts hold |
| `KeyValuesTexts.PiecesTokenize` | agent/go/acf/tokenizer.go:39-154 | any text put together from blanks, comments, braces, quoted strings and barewords, a last comment without line end included, tokenizes to what its pieces say |
| `KeyValuesLaws.BackslashesAreKept` | agent/go/acf/tokenizer.go:77-125 | a text whose backslashes start no known escape is read as it stands |
| `KeyValuesLaws.ParsesToMeaning` | agent/go/acf/parser.go:43-109 | a printed tree without tag-like keys and within the cap parses to its fields set in order: the last value of a key, in the place of its first |
| `KeyValuesLaws.RoundTripExactlyWhen` | agent/go/acf/parser.go:43-138 | a tree with distinct keys comes back from printing and parsing exactly when no later key looks like a tag and it is at most 100 blocks deep |
| `KeyValuesLaws.DeeperIsRefused` | agent/go/acf/parser.go:43-109 | a printed tree nested deeper than 100 is refused, with the depth error unless a stripped key came before |
| `KeyValuesLaws.DeepTextIsRefused` | agent/go/acf/parser.go:43-109 | any text whose braces nest deeper than 100 is refused |
| `KeyValuesLaws.AnyTextParsesWithin` | agent/go/acf/parser.go:43-138 | any text that parses gives a result at most 100 blocks deep, and all its tokens but the stripped tags are those of the fields it met, set in order |
| `KeyValuesLaws.TokensAreAccountedFor` | agent/go/acf/parser.go:43-109 | a parse that succeeds has used exactly the tokens of the fields it met, in order and with repeated keys, and the tags it counts as stripped; its result is those fields set one by one |
| `KeyValuesTexts.TagIsLeftOut` | agent/go/acf/parser.go:10-109 | whatever stands between the brackets, a tag behind a text value is left out and counted |
| `KeyValuesTexts.EachErrorIsNamed` | agent/go/acf/parser.go:43-109 | behind any complete fields an unclosed block, a stray brace, a brace for a key, a key without a value and a brace for a value each have their own error |
| `KeyValuesTexts.OpenQuoteFails` | agent/go/acf/tokenizer.go:77-125 | a quote that is never closed fails, wherever it opens |
| `KeyValuesLaws.TagLikeKeyIsLost` | agent/go/acf/parser.go:10-41 | a concrete tree that does not come back |
| `AgentReports.ReportTable.LatestSnapshot` | api/vault_api/agent_reports.py:192-217 | the newest row of a client by rowid |
| `AgentReports.ReportTable.PruneReports` | api/vault_api/agent_reports.py:220-246 | the rows that remain after pruning one client |
| `AgentReports.ReportTable.StoreReport` | api/vault_api/agent_reports.py:256-335 | against the newest row of the client, readable or not: first without one or with an undecodable one, else added is exactly what is new and removed exactly what is gone; the new row stands last and old ones are pruned |
| `AgentReports.ReportTable.DeleteClient` | api/vault_api/agent_reports.py:382-482 | exactly the client's rows go, and the answer says whether there were any |
| `AgentReports.PruneKeepsNewest` | api/vault_api/agent_reports.py:220-246 | a client keeps its newest snapshots in order and nobody else's history changes |
| `AgentReports.StoredSnapshots` | api/vault_api/agent_reports.py:220-335 | a client keeps its last snapshots, at least two, the new one among them |
| `AgentReports.AnswersFoldToLatest` | api/vault_api/agent_reports.py:256-335 | folding one client's answers gives exactly its newest snapshot, in every run of reports, deletions and damaged rows |
| `AgentReports.ClientsAreIsolated` | api/vault_api/agent_reports.py:256-335 | snapshots and answers of a client are what they would be had nobody else reported |
| `AgentReports.RowidsFollowInsertion` | api/vault_api/agent_reports.py:192-217 | rowid order is insertion order at all times |
| `AgentReports.RowidComesBackExactlyWhen` | api/vault_api/agent_reports.py:382-482 | in every reachable table an act lets a rowid come back exactly when it deletes the client of the newest row |
| `AgentReports.RowidIsReused` | api/vault_api/agent_reports.py:382-482 | a concrete table in which it does |
| `CacheSizes.AppSizeBytes` | api/vault_api/sizes.py:301-336 | the sum over an app's depots on disk, and nothing when there is none |
| `CacheSizes.BuildCacheSummary` | api/vault_api/sizes.py:390-454 | total, sizes per app and the unmapped rest |
| `CacheSizes.SizesAddUp` | api/vault_api/sizes.py:390-454 | per-app sizes plus unmapped bytes are the total plus, for every mapped depot, its bytes once per further owner |
| `StorePath.StoredExactlyWhen` | core/nginx/nginx.conf:166-170 | an object is stored exactly when the last attempt answered 200 and was the only one or a retry within its server group |
| `StorePath.LastAttemptDecides` | core/nginx/nginx.conf:166-170 | for one server group: exactly when the last attempt was a 200 |
| `StorePath.StatusesAreAttempts` | core/nginx/nginx.conf:166-170 | every status nginx writes, a dash included, is an attempt as the two theorems take it |

## Left out

- SteamPrefill, its console output and its process control: a run is one event with an outcome and the depots observed.
- HTTP, SQLite and nginx themselves: a transaction is one atomic step, a served request one log line.
- Path guards, symbolic links, junctions, permissions and platform error codes: removal is removed, already gone, refused or failed.
- Decoding of binary manifests: the parser is a parameter, a manifest the set of its chunk names.
- The report rows about extra manifest ids, unusable ones included: they protect nothing and are sorted behind all others.
- Touched depots of a collection run: the co-owner flags set after it are one event of `Lifecycle`, not computed from the run's report.
- The byte sizes a collection plan reports beside its orphans, and its log text.
- Timestamps that are only shown: `first_seen`, `last_seen`, job times other than the ones leases are measured from.
- Retention of client statistics and depot misses, the miss trigger and bypass detection: counters are compared before any pruning.
- The race between the size check and the truncate call, and the crash window of the in-place hosts-file write: both are residual in the source.
- A transaction that the database refuses, such as the one recording a failure: the job then stays as it was until the next start.
- A change of the prefill mode between two starts: one run keeps one mode, but for `QueueMode.OtherModeFailsStranded`.
- Mapped ids in digits outside ASCII, which Python reads as integers too, and the size summary over ids it cannot read, which raises.
- UTF-8 decoding of the log: the decoder is a parameter that keeps newlines, works line by line and shrinks a line at most fourfold.
- The top ten consumers and their order in the cache summary: the sizes they are cut from are modelled.
- Positions in parse errors, `appmanifest` and `libraryfolders` readers, source addresses of agent reports, `parseStrictUint`.
- Column values that are neither integer nor text: folded into unreadable text ids, which the source treats the same.
- Auth, settings, scheduler, webhooks, Steam relay and the web interface.
- JobLaws.SoundAlways: does not bound the number of running jobs in queue mode, because stranded runs make it unbounded; `QueueMode.OneLiveRun` says what holds.
- JobRuns.OneRunningJob: does not cover queue mode, for the same reason.
- GcExecute.Collector.RemoveDuplicates: one comparison and one removal are a step each, so a file that changes within either is not covered; a name that has become a link since the scan counts as unreadable in the comparison, which in the source reads through it.
- GcExecute.Collector.ExecuteDedupe: does not state the final disk when others act in between, and does not tell apart why a copy was kept.
- GcExecute.Collector.RemoveOrphans: does not state the final disk when others act in between, because then it is theirs to decide; every change the collector makes is stated.
