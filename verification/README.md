# GST automation control plane: a verified model

This project models the control plane of the GST automation platform: how jobs are picked,
how anomalies are limited, how locks are held, how a replay log is written and audited, how
browsers and workspaces are recycled, and how clients are imported. Playwright, the portal,
the database, Redis, the file system and Celery appear only as what they answer: an outcome
that is done, raises or is cancelled, or a map, set or list that a call changes.

Code that changes things step by step is a class or a method here, proved equal to a
function of the old state; what the code promises is then proved about that function over
all inputs and all runs. `dafny verify dfyconfig.toml` checks everything.

## What is in which file

| file | what it models |
|---|---|
| `Collections.dfy`, `Arithmetic.dfy` | stable sorting, optional values, division facts |
| `FairScheduler.dfy`, `SelectionOrder.dfy`, `Scheduling.dfy` | round-robin selection, the order it serves in, and the tick that dispatches it |
| `AnomalyLimiter.dfy` | cooldown and minute cap of anomaly alerts |
| `Locks.dfy` | the database and the Redis lock manager |
| `WorkerRuntime.dfy`, `LockEffects.dfy`, `JobRun.dfy` | interleaved `run_job`s on one lock; what each lock call does; `run_job` itself |
| `ReplayLog.dfy`, `ReplayEffects.dfy`, `ReplayAudit.dfy`, `ReplayAgreement.dfy` | the portal smoke workflow, exactly what it writes, the integrity validator, and their agreement |
| `Browsers.dfy`, `BrowserRuns.dfy` | browser pool and context allocator; what holds over any run |
| `BrowserFaults.dfy`, `Workspaces.dfy` | exactly which failures spoil the gauge, lose a browser or leave a workspace behind |
| `Sessions.dfy` | what opening and closing a session does, and which sessions are open after a run |
| `JobHistory.dfy` | the job state machine |
| `NavigationGraph.dfy` | the graph built from a replay log |
| `Retention.dfy`, `RetentionRuns.dfy`, `RetentionProgress.dfy`, `RetentionIndex.dfy`, `RetentionFiles.dfy` | artifact retention: one pass, its accounts, repeated passes, and the files |
| `Sanitize.dfy`, `BlobStore.dfy` | safe path segments and the local blob store |
| `Workbook.dfy`, `WorkbookRules.dfy`, `WorkbookOutput.dfy` | the client master workbook, what validating it means, and what it says and returns |
| `ClientImport.dfy` | the upsert of clients, configurations and credentials |
| `Backoff.dfy` | retry delays |

## Where the code does not do what is expected of it

Each of these is a theorem that says exactly when the code does meet the expectation.

- **The scheduler may spin.** A client at its cap is skipped without being removed, so the
  loop of `select` comes back if and only if the tick limit is within the capacity of the
  buckets or no bucket can fill its client's cap (`FairScheduler.ExactTermination`). With
  the default cap of one and fewer runnable jobs than the tick limit it never does
  (`DefaultCapSpins`), and neither does the call in the scheduler's own test
  (`Scheduling.OwnTestSpins`).
- **The minute cap on alerts** holds over all runs if and only if the cooldown exceeds 60 s
  or the cap is at most one (`AnomalyLimiter.CapIsExact`). The cheap count keeps one time
  per type; with a shorter cooldown a type that alerts often is counted once. The defaults
  (300 s, 30) are on the safe side.
- **The database lock revives a lapsed lease.** `renew` and `release` compare tokens only.
  The two managers reply alike in exactly the runs where no handle is presented after its
  lease lapsed untaken (`Locks.ManagersAreEquivalent`).
- **Exclusion of workers needs timeliness.** If every critical worker's last grant is always
  at most g old, then at most one worker is critical over all runs if and only if g is less
  than 120 s (`WorkerRuntime.ExclusionExactly`). An acquire whose reply is lost takes the
  lock for nobody, and everybody is denied until it expires (`WorkerRuntime.OrphanedLock`).
- **The browser gauge goes wrong** over a run if and only if a launched browser cannot be
  registered, or Playwright does not stop while a browser is listed
  (`BrowserFaults.GaugeIsTrueExactly`; a run: `UnregisteredBrowserIsNotCounted`).
- **A browser can outlive its entry.** At most one is ever listed, but a close that fails is
  ignored. Every unclosed browser is still listed if and only if that never happened
  (`BrowserFaults.NoneIsLostExactly`), and two are ever unclosed at once if and only if a
  launch came back after that, in the same operation or a later one (`OneUnclosedExactly`; a run:
  `FailedCloseDoubles`).
- **Workspaces leak.** The workspaces on disk are those of the unclosed sessions if and only
  if no allocation of the run got a browser and a new workspace and then failed to make its
  other directories or was cancelled, which is said in terms of how its calls ended
  (`Workspaces.DiskIsOpenSessionsExactly`, with a run in `CancelledRestartLeaks`).
- **Retention can starve.** A row that is never deleted keeps its place among the oldest;
  repeated passes delete everything overdue of a kind if and only if fewer than `limit` such
  rows stand before the last deletable one (`RetentionIndex.EnforcementSettlesExactly`).
- **Storing a blob can take another**: the one stored under its name with `.tmp` appended,
  and only that one. It is deleted unless the name is a directory; then the put fails and
  has overwritten it (`BlobStore.PutSparesExactly`, with `TempNameIsLost` and
  `TempNameIsOverwritten`). Over a run a blob keeps its bytes if and only if no put does
  this to it or stores its own name (`BlobStore.BlobSurvivesExactly`).
- **A blank heading shifts the workbook's columns.** Blank headings are dropped before the
  comparison, but cells are read by position (`WorkbookRules.ColumnsLineUpExactly`; a header:
  `BlankFirstHeadingShifts`).

## Choices of the model

- Times are integers: microseconds where the code uses datetimes, milliseconds in the
  replay log. A UUID is its value as a number, because Python sorts the keys by their
  fixed-width hexadecimal text; where only its text matters it is a string.
- Each lock call is one atomic step. A Redis key is gone as soon as its expiry is reached.
  `SET` with a non-positive expiry is an error reply; `EXPIRE` with one deletes the key,
  which is here a key that has expired. A lock call that raises may or may not have
  reached the server.
- `Scheduling.Scheduler.Select` requires the condition under which `select` comes back. The
  source has no precondition, but a call outside this condition never returns, so there is
  nothing to say about its result; `FairScheduler.NoJobIsLost` covers those runs.
- Writing a replay line does not fail, and the removal of a workspace removes it.
- The answers of the outside world do not change between retention passes at one time: which
  file a path resolves to, which files cannot be unlinked, and which rows cannot be deleted.
- An awaited call is done, raises, or is cancelled; making a directory either works or raises.
  A browser counts as unclosed from the return of its launch to the return of its close.
- Other workers act between any two steps of `run_job` and never draw its token.
- Uppercasing, lowercasing, `int()`, the two regular expressions of the parser, and the
  vault's cipher are parameters. Of the cipher only that decryption undoes encryption is
  assumed; of uppercasing, in one lemma, that it neither makes nor removes spaces; and of
  lowercasing, in one lemma, that it leaves a heading without spaces at its ends.
- The order in which Python visits the set of required columns is unspecified; one order
  is used. No theorem about the parser depends on it.
- An imported row carries its retry policy as the JSON text the code makes of it, and its
  client id as the text of the UUID.
- Jitter is an argument within its bounds, and a fifth of the delay is taken in integers.

## Model

| member | source | states |
|---|---|---|
| FairScheduler.ExactTermination | src/gst_automation/scheduler/fairness.py:46-63 | for all jobs, dictionaries, caps and limits the loop stops if and only if the tick limit is within the total capacity or every bucket fits below its client's cap |
| FairScheduler.WillReturnIsInvariant | src/gst_automation/scheduler/fairness.py:50-62 | a pass neither creates nor destroys the stopping condition, so a spinning loop spins for ever |
| FairScheduler.PassMakesProgress | src/gst_automation/scheduler/fairness.py:50-62 | under that condition each pass shortens the backlog, or keeps it and shortens the wait for the next useful pass |
| FairScheduler.DefaultCapSpins | src/gst_automation/scheduler/fairness.py:53-55 | with a cap of at most one and fewer runnable jobs than the limit the call never returns |
| FairScheduler.BucketSpec | src/gst_automation/scheduler/fairness.py:30-44 | a bucket is a permutation of its client's jobs: queued ones first, then by priority number, then by age, ties in arrival order |
| FairScheduler.NoJobIsLost | src/gst_automation/scheduler/fairness.py:46-63 | at every moment of every run each job is either selected or in its queue, with multiplicity |
| FairScheduler.EveryReturnDelivers | src/gst_automation/scheduler/fairness.py:31-63 | on return each client has a prefix of its sorted bucket, the dictionary grew by that many and not past the cap, and the tick is full or nothing is left |
| FairScheduler.VisitsAreEven | src/gst_automation/scheduler/fairness.py:49-52 | after k passes over n clients a client has had floor or ceiling of k/n visits |
| FairScheduler.RoundRobinShares | src/gst_automation/scheduler/fairness.py:48-62 | until a bucket is removed, a client has min(visits, spare slots) selected jobs |
| FairScheduler.SharesDifferByOne | src/gst_automation/scheduler/fairness.py:48-62 | in those runs two clients with spare slots differ by at most one selected job |
| Collections.StableSortSpec | src/gst_automation/scheduler/fairness.py:36-44 | sorting is ordered, a permutation and stable |
| Scheduling.Scheduler.Partition | src/gst_automation/scheduler/fairness.py:31-34 | the dictionary of buckets holds each client's jobs in order |
| Scheduling.Scheduler.SortBuckets | src/gst_automation/scheduler/fairness.py:36-44 | every bucket is replaced by its stable sort |
| Scheduling.Scheduler.Prepare | src/gst_automation/scheduler/fairness.py:30-49 | the loop starts with the sorted buckets and their distinct client ids, ascending |
| Scheduling.Scheduler.RoundRobin | src/gst_automation/scheduler/fairness.py:46-63 | the loop walks exactly the states of the step relation and stops where they stop |
| Scheduling.Scheduler.Select | src/gst_automation/scheduler/fairness.py:22-63 | a call that comes back delivers: of two jobs of one client the one that is queued, or has the smaller priority number, or is older, stands first and is never left out for the other; equal ones keep their order; the dictionary grows by what was selected |
| Scheduling.TickKeepsCaps | src/gst_automation/watchdog/service.py:113-134 | a tick sends a subsequence of the selection, only runnable jobs, and pushes no client above its cap |
| Scheduling.Tick | src/gst_automation/watchdog/service.py:113-134 | selection and dispatch composed: what is sent is in that order too, and nothing that comes first is missing unless back-pressure holds it |
| SelectionOrder.DeliveryIsInOrder | src/gst_automation/scheduler/fairness.py:36-63 | whatever is delivered is served in order and stably, in terms of the jobs' own fields |
| SelectionOrder.TurnsGoRound | src/gst_automation/scheduler/fairness.py:49-62 | the n-th pass selects from, or removes, only the client whose turn it is among those still listed, and the list begins in ascending order |
| Scheduling.DispatchIsInOrder | src/gst_automation/watchdog/service.py:124-133 | back-pressure keeps the order, and leaves out only what it holds back |
| Scheduling.DispatchedMembers | src/gst_automation/watchdog/service.py:124-133 | a selected job is sent if and only if it is not held back by overload, setting and priority |
| Scheduling.OwnTestSpins | tests/test_fair_scheduler.py:28-41 | the call made by this test does not return |
| AnomalyLimiter.AnomalyService.CountRecentAlerts | src/gst_automation/watchdog/anomaly.py:100-110 | the loop counts the types alerted since the cutoff, each once, in any order of rows |
| AnomalyLimiter.AnomalyService.Record | src/gst_automation/watchdog/anomaly.py:41-98 | one call changes rows, type states and alerts as the step says and reports whether it alerted |
| AnomalyLimiter.CooldownHolds | src/gst_automation/watchdog/anomaly.py:118-121 | over every run two alerts of one type are at least the cooldown apart |
| AnomalyLimiter.EveryCallIsRecorded | src/gst_automation/watchdog/anomaly.py:51-59 | every call leaves its own row, whether it alerted or not |
| AnomalyLimiter.AlertsExactly | src/gst_automation/watchdog/anomaly.py:41-121 | a call alerts if and only if, in the history of alerts, all of its type are at least the cooldown old and fewer types than the cap alerted within 60 s |
| AnomalyLimiter.StatesSummarise | src/gst_automation/watchdog/anomaly.py:61-86 | a type's state row counts its calls and keeps the times of the last call and the last alert |
| AnomalyLimiter.ApproximationIsExact | src/gst_automation/watchdog/anomaly.py:100-110 | with a cooldown above 60 s the count by type is the number of alerts in the last minute |
| AnomalyLimiter.CapHolds | src/gst_automation/watchdog/anomaly.py:44-49 | every closed minute of every run holds at most the configured number of alerts |
| AnomalyLimiter.CapIsExact | src/gst_automation/watchdog/anomaly.py:41-121 | that holds for all runs if and only if the cooldown exceeds 60 s or the cap is at most one |
| Locks.DbLockManager.TryAcquire | src/gst_automation/locks/db_lock.py:20-50 | granted if and only if there is no row or an expired one; a takeover has the new owner, token and times and the old first acquisition time; a denial changes nothing |
| Locks.DbLockManager.TryRenew | src/gst_automation/locks/db_lock.py:52-62 | extends the row of a matching token, expired or not, and changes nothing else of it; any other handle changes nothing |
| Locks.DbLockManager.TryRelease | src/gst_automation/locks/db_lock.py:64-71 | deletes the row of a matching token; any other handle changes nothing |
| Locks.RedisLockManager.TryAcquire | src/gst_automation/locks/redis_lock.py:17-25 | sets the key only if no unexpired one is there |
| Locks.RedisLockManager.TryRenew | src/gst_automation/locks/redis_lock.py:27-37 | extends the key only while it is unexpired and carries the token |
| Locks.RedisLockManager.TryRelease | src/gst_automation/locks/redis_lock.py:39-49 | deletes the key only while it is unexpired and carries the token |
| Locks.MutualExclusion | src/gst_automation/locks/db_lock.py:20-71 | over every run of either manager no two tokens hold unexpired promises for one name |
| Locks.DeniedExactlyWhileHeld | src/gst_automation/locks/db_lock.py:42-50 | an acquire is denied if and only if somebody holds an unexpired promise |
| Locks.NeverCurrentAgain | src/gst_automation/locks/redis_lock.py:17-49 | a displaced or released token never becomes current again in either manager |
| Locks.StepKeepsAgreement | src/gst_automation/locks/redis_lock.py:17-49 | a call not made by a lapsed handle gets the same reply from both and keeps unexpired rows and live keys equal |
| Locks.LapseSeparates | src/gst_automation/locks/db_lock.py:52-62 | on a call by a lapsed, unreplaced handle the database says yes and Redis says no |
| Locks.ManagersAreEquivalent | src/gst_automation/locks/db_lock.py:20-71 | the two managers reply alike over a run if and only if it has no such call |
| Locks.LapsedRenewalDiffers | src/gst_automation/locks/db_lock.py:52-62 | an acquire and a renewal after its lease lapsed get different replies from the two managers |
| WorkerRuntime.OneUnexpiredHolder | src/gst_automation/orchestration/worker_runtime.py:74-84 | in any interleaving at most one worker is critical with an unexpired promise |
| WorkerRuntime.ExclusionWhenTimely | src/gst_automation/orchestration/worker_runtime.py:115-137 | if renewals land before the previous expiry at most one worker is between acquire and release |
| WorkerRuntime.StallBreaksExclusion | src/gst_automation/orchestration/worker_runtime.py:74-84 | a concrete interleaving with a stalled worker has two workers critical at once |
| WorkerRuntime.ExclusionExactly | src/gst_automation/orchestration/worker_runtime.py:74-84 | exclusion over all runs whose grants are at most g apart holds if and only if g is less than the 120 s term |
| WorkerRuntime.OrphanedLock | src/gst_automation/orchestration/worker_runtime.py:115-116 | an acquire that reached the server without coming back leaves a lock that no worker holds and everybody is denied until it expires |
| LockEffects.RenewalIsExact | src/gst_automation/orchestration/worker_runtime.py:74-80 | a renewal that came back while the live key carries the worker's token keeps the key, and promises the worker, exactly 120 s from now; otherwise neither server nor worker changes |
| LockEffects.AcquireIsExact | src/gst_automation/orchestration/worker_runtime.py:115-117 | an acquire that came back is granted for exactly 120 s if and only if no live key is there |
| LockEffects.ReleaseIsExact | src/gst_automation/orchestration/worker_runtime.py:308-317 | a release that came back removes a live key of the worker's token and no other |
| LockEffects.LostCallIsExact | src/gst_automation/orchestration/worker_runtime.py:74-84 | a call that raised or was cancelled did to the server all that a reply would have told, or nothing, and told the worker nothing |
| LockEffects.LockFreesItself | src/gst_automation/locks/redis_lock.py:17-37 | over any run an acquire is granted once 120 s have gone by since the last acquire or renewal that reached the server |
| JobRun.JobRunner.AcquireLock | src/gst_automation/orchestration/worker_runtime.py:115-116 | the handle is set exactly when the reply came back granted; a call that raised or was cancelled leaves none, reached or not |
| JobRun.JobRunner.RenewOnce | src/gst_automation/orchestration/worker_runtime.py:76-84 | a turn of the loop adds exactly its own call to the run: a renewal that came back is one that was sent |
| JobRun.JobRunner.RenewLoop | src/gst_automation/orchestration/worker_runtime.py:74-84 | each renewal of the script is sent, once, in order; those that fail or raise neither end the loop nor lose the handle |
| JobRun.JobRunner.Finish | src/gst_automation/orchestration/worker_runtime.py:308-317 | the finally block releases if and only if there is a handle, and swallows its errors; a renewal under way changes nothing about that |
| JobRun.JobRunner.RunJob | src/gst_automation/orchestration/worker_runtime.py:98-317 | with others acting before and between its steps, a whole run is a run of the interleaving model in which this worker does exactly what its script says, statement by statement; it closes, with the release attempted if and only if the acquire gave a handle, and a release that came back leaves the token not current |
| ReplayLog.PortalSmokeWorkflow.TakeScreenshot | src/gst_automation/validation/portal_smoke.py:251-276 | picture, index row and log line happen in this order or stop where one fails |
| ReplayLog.PortalSmokeWorkflow.DoAction | src/gst_automation/validation/portal_smoke.py:160-249 | an action leaves its start line, its effects, and a done line only if it completed |
| ReplayLog.PortalSmokeWorkflow.DoTurn | src/gst_automation/validation/portal_smoke.py:121-152 | an exception inside the action is logged, one in guard or chaos is not, nor is a cancellation |
| ReplayLog.PortalSmokeWorkflow.Run | src/gst_automation/validation/portal_smoke.py:81-158 | the log and index of a whole run, stopping at the first action that does not complete |
| ReplayEffects.TurnIsExact | src/gst_automation/validation/portal_smoke.py:121-249 | when an action of each kind completes, is cancelled or raises, and the lines and index rows it leaves |
| ReplayEffects.RunIsExact | src/gst_automation/validation/portal_smoke.py:81-158 | a run returns if and only if it opens and every action completes, and its log and index are exactly those of its story, each line with its own reading of the clock |
| ReplayEffects.DecimalReadsBack | src/gst_automation/validation/portal_smoke.py:209-218 | the step number in a default name reads back, so no two steps share one |
| ReplayAudit.ReplayIntegrityValidator.ValidateContext | src/gst_automation/validation/replay_integrity.py:45-115 | the verdict is ok if and only if the log is sound, with all timestamps sorted although only neighbours are compared; missing and empty logs, missing start and completion, the number of unparsed lines, the lines that go back in time and the first 50 unindexed references are each reported exactly; every verdict is recorded |
| ReplayAudit.ReplayIntegrityValidator.Correlate | src/gst_automation/validation/replay_integrity.py:88-109 | the referenced paths that the index lacks are reported, in order |
| ReplayAudit.SummarySnoc | src/gst_automation/validation/replay_integrity.py:59-80 | the scan's five variables describe the lines read so far, line by line |
| ReplayAudit.KnowsSnoc | src/gst_automation/validation/replay_integrity.py:59-80 | line by line the error count is the number of unparsed lines and the list holds exactly the lines stamped before their predecessor |
| ReplayAudit.LinesCountExactly | src/gst_automation/validation/replay_integrity.py:64-99 | each line adds its own stamp and its own reference, the one whether or not it has the other |
| ReplayAgreement.BodyInProgress | src/gst_automation/validation/portal_smoke.py:99-158 | until the last line a run's log is stamped by its clock, has its artifacts indexed and is not completed |
| ReplayAgreement.AuditAgreesWithRun | src/gst_automation/validation/portal_smoke.py:81-158 | in a fresh context the audit passes if and only if the run returned, its log has at most 5000 lines and its clock never went back |
| ReplayAgreement.CrashIsDetected | src/gst_automation/validation/recorder.py:10-24 | a log cut short after any line, or inside one, never passes, whatever the index holds |
| Browsers.BrowserPool.Stop | src/gst_automation/browser/pool.py:49-60 | a cancelled close changes nothing, a failing one is ignored; then lists and counters are empty, and a Playwright that does not stop leaves the pool started and the gauge as it was |
| Browsers.BrowserPool.MaybeRetireCurrent | src/gst_automation/browser/pool.py:103-139 | the browser goes if and only if its age or its contexts reach the limit and its close is not cancelled; a cancelled update of its row ends the call afterwards |
| Browsers.BrowserPool.Launch | src/gst_automation/browser/pool.py:78-101 | launch, one restart on a stale connection, listing, registration, and the outcome that ended them |
| Browsers.BrowserPool.AcquireBrowser | src/gst_automation/browser/pool.py:68-101 | reuse, retirement or launch, and the outcome that ended the call |
| Browsers.ContextIsolationEngine.AllocateSession | src/gst_automation/browser/session.py:45-145 | browser, workspace, context with one retry, record, gauge; the workspace goes on an exception inside the try block and stays on a cancellation there |
| Browsers.ContextIsolationEngine.CloseSession | src/gst_automation/browser/session.py:147-189 | the session goes, the gauge falls by one and its workspace goes, whatever fails, and nothing else changes |
| BrowserRuns.OneBrowserWithinLimit | src/gst_automation/browser/pool.py:44-159 | after any run at most one browser is listed, counters are those of listed browsers, which are unclosed, and none was asked for more than max(1, limit) contexts |
| BrowserFaults.GaugeGoesWrongExactly | src/gst_automation/browser/pool.py:49-101 | the exact two failures that make a true gauge false, call by call |
| BrowserFaults.GaugeIsTrueExactly | src/gst_automation/browser/pool.py:49-139 | the gauge equals the number of listed browsers at every point of a run if and only if no operation hits one of them |
| BrowserFaults.UnregisteredBrowserIsNotCounted | src/gst_automation/browser/pool.py:92-95 | one allocation whose browser cannot be registered leaves the gauge wrong |
| BrowserFaults.GaugeIsRepaired | src/gst_automation/browser/pool.py:49-139 | a wrong gauge is right again after the next stop, retirement or registration that works |
| BrowserFaults.NoneIsLostExactly | src/gst_automation/browser/pool.py:50-55 | after a run every unclosed browser is still listed if and only if no failing close of a listed browser was ignored |
| BrowserFaults.OneUnclosedExactly | src/gst_automation/browser/pool.py:50-97 | at most one browser was ever unclosed at a time if and only if no launch came back after a failing close was ignored, in the same operation or an earlier one |
| BrowserFaults.FailedCloseDoubles | src/gst_automation/browser/pool.py:124-128 | a run of two allocations with a failing close has two unclosed browsers at once |
| Workspaces.DiskIsAccountedFor | src/gst_automation/browser/session.py:56-189 | after any run the workspaces on disk are those of open sessions and of allocations that left theirs behind, none shared, and the context gauge counts the open sessions |
| Workspaces.AcquireEnds | src/gst_automation/browser/pool.py:68-101 | an acquire ends as the first unsuccessful answer it meets, and hands over a browser exactly when there is none |
| Workspaces.LeftBehindExactly | src/gst_automation/browser/session.py:56-145 | an allocation leaves its workspace behind if and only if it got a browser and a new workspace and then could not make its other directories or first failed by a cancellation |
| Workspaces.DiskIsOpenSessionsExactly | src/gst_automation/browser/session.py:56-189 | after a run the disk holds exactly the workspaces of open sessions if and only if no allocation of the run did that |
| Workspaces.CancelledRestartLeaks | src/gst_automation/browser/session.py:81-92 | one allocation cancelled while it restarts the pool for a stale context leaves a workspace without a session |
| Sessions.CloseIsExact | src/gst_automation/browser/session.py:147-189 | in any run a close takes away the session, its workspace and one from the gauge, and leaves every other session and workspace, the pool and what leaked |
| Sessions.AllocationIsExact | src/gst_automation/browser/session.py:45-145 | in any run an allocation opens its session if and only if every call of it succeeds, and otherwise leaves its workspace or nothing |
| Sessions.OpenExactly | src/gst_automation/browser/session.py:45-189 | after a run a session is open if and only if an allocation of the run opened it and no later operation closed it |
| Sessions.HandedExactly | src/gst_automation/browser/pool.py:68-139 | in any run a successful acquire reuses the listed browser if and only if it is younger and less used than the settings allow, and otherwise hands out one it has launched |
| JobHistory.TerminalExactly | src/gst_automation/orchestration/fsm.py:21-46 | completed, dead_lettered and cancelled are absorbing and are the only reachable states that are |
| JobHistory.VerdictExactly | src/gst_automation/orchestration/fsm.py:21-46 | a move is rejected as a no-op if and only if it stays, and otherwise accepted if and only if its source state lists its target |
| JobHistory.CompletedEnds | src/gst_automation/orchestration/fsm.py:21-40 | a completed history ends queued, leased, running, completed |
| JobHistory.LeasesAndRetriesAlternate | src/gst_automation/orchestration/fsm.py:21-40 | visits to leased and retrying strictly alternate, leased first |
| JobHistory.LengthBoundIsTight | src/gst_automation/orchestration/fsm.py:21-40 | a history with k requeues visits at most 5k+7 states, and some history visits that many |
| NavigationGraph.BuildGraphFromReplay | src/gst_automation/gst/observation.py:384-407 | the graph of the visits in the log; an uncaught error if and only if a line is JSON but not an object, or an object whose type is a list or an object |
| NavigationGraph.NormalFormIsUnique | src/gst_automation/gst/observation.py:398-402 | the sequence is the one stutter-free sequence that the log repeats |
| NavigationGraph.SequenceDecidesEquivalence | src/gst_automation/gst/observation.py:398-402 | two logs have the same sequence if and only if they are stutter-equivalent |
| NavigationGraph.GraphSpec | src/gst_automation/gst/observation.py:403-407 | edges move and chain, rebuild a sequence of two or more pages, and the nodes are its pages, each once, in strict order |
| NavigationGraph.VisitsExactly | src/gst_automation/gst/observation.py:384-397 | each line adds its url if it is an object of type nav or auth.state with a textual url, and otherwise nothing |
| NavigationGraph.EdgesAre | src/gst_automation/gst/observation.py:404-406 | edge i leads from page i of the sequence to page i + 1 |
| NavigationGraph.BeforeExactly | src/gst_automation/gst/observation.py:403 | the order of the nodes is the order of Python strings: prefixes first, otherwise by the first different character |
| Retention.RetentionService.EnsureDefaults | src/gst_automation/validation/retention.py:32-45 | the policy table afterwards |
| RetentionIndex.DefaultsAreAdded | src/gst_automation/validation/retention.py:32-45 | stored policies stay as they are, every default kind has a policy, and the kind remains a key |
| RetentionFiles.DefaultsAreThese | src/gst_automation/validation/retention.py:33-44 | the six default kinds are covered, and every added policy is enabled, preserves nothing and has its 7 or 14 days |
| Retention.RetentionService.ExamineRow | src/gst_automation/validation/retention.py:69-128 | one row, case by case: escape, dry run, failed deletion before or after the file is gone, or deletion of file and row, each with its counter and its action |
| Retention.RetentionService.Enforce | src/gst_automation/validation/retention.py:47-140 | index, files, actions and counters of a pass over all policies |
| RetentionRuns.EveryRowIsAccountedFor | src/gst_automation/validation/retention.py:56-128 | deleted + kept + errors equals rows examined and actions written, each counter equal to its actions |
| RetentionRuns.OnlyDueRowsGo | src/gst_automation/validation/retention.py:60-128 | the index loses exactly the deleted rows, all overdue under an enabled, non-preserved policy and inside the root |
| RetentionRuns.DryRunChangesNothing | src/gst_automation/validation/retention.py:86-97 | a dry run changes neither index nor files and deletes nothing |
| RetentionFiles.FilesFollowRows | src/gst_automation/validation/retention.py:56-128 | a pass deletes the file of every row it takes out of the index, and says so; every file it deletes belonged to an indexed, overdue row inside the root; it adds none |
| RetentionFiles.OldestOverdueFirst | src/gst_automation/validation/retention.py:58-68 | the rows queued are those created before now less the policy's days, the oldest first |
| RetentionRuns.QueueSpec | src/gst_automation/validation/retention.py:61-68 | the query yields exactly the overdue rows of the kind, oldest first |
| RetentionIndex.EnforcementPass | src/gst_automation/validation/retention.py:60-128 | one pass over all policies shortens each policy's own queue by its deletable leading rows and disturbs no other |
| RetentionProgress.ClearsExactly | src/gst_automation/validation/retention.py:61-68 | passes clear a queue if and only if fewer than limit undeletable rows stand before its last deletable one, within as many passes as rows |
| RetentionIndex.EnforcementSettlesExactly | src/gst_automation/validation/retention.py:47-140 | the same for the whole index and all policies under repeated execution, whether a row is stuck by its path, its file or the database |
| RetentionIndex.StuckRowStarvesQueue | src/gst_automation/validation/retention.py:69-128 | one undeletable row and a limit of one keep an overdue row for ever |
| RetentionIndex.NothingOverdueIsLeft | src/gst_automation/validation/retention.py:47-140 | without undeletable rows no overdue row is left after as many passes as the index has rows |
| Sanitize.FixedPointsAreSafe | src/gst_automation/storage/sanitize.py:6-15 | the segments left alone are exactly the non-empty strings over the alphabet without a dot, underscore or hyphen at either end |
| Sanitize.AlphabetExactly | src/gst_automation/storage/sanitize.py:6-15 | the same, letter by letter |
| Sanitize.SeparatorsExactly | src/gst_automation/storage/sanitize.py:12-13 | between safe segments each slash of either kind becomes one underscore, and a run of other characters one in all |
| Sanitize.Idempotent | src/gst_automation/storage/sanitize.py:9-15 | sanitizing twice is sanitizing once |
| Sanitize.NoTraversal | src/gst_automation/storage/sanitize.py:9-15 | a result is never a dot name and holds no separator |
| Sanitize.LettersAndDigitsSurvive | src/gst_automation/storage/sanitize.py:9-15 | letters and digits survive in order; without any the result is "unknown" |
| Sanitize.FirstStripIsRedundant | src/gst_automation/storage/sanitize.py:11 | leaving out the first strip changes no result |
| Sanitize.RunsAreForgotten | src/gst_automation/storage/sanitize.py:6-13 | the length and content of a run of other characters never matter |
| Sanitize.SplitOfJoin | src/gst_automation/storage/local_store.py:19 | splitting a join of separator-free parts gives the parts back |
| Sanitize.SegmentsOfPath | src/gst_automation/storage/local_store.py:19 | a slash of either kind separates segments, and empty ones are dropped |
| Sanitize.ResolveSpec | src/gst_automation/storage/local_store.py:18-22 | one safe segment for each non-empty input segment, in order; an error exactly when there is none |
| Sanitize.ResolveIsStable | src/gst_automation/storage/local_store.py:18-22 | resolving a resolved path changes nothing, and the resolutions are exactly the non-empty lists of safe segments |
| BlobStore.LocalBlobStore.PutBytes | src/gst_automation/storage/local_store.py:24-30 | directories, temporary file, replacement, and the errors that leave some of them behind |
| BlobStore.LocalBlobStore.GetPath | src/gst_automation/storage/local_store.py:42-46 | the resolved path if something is stored there, and the two errors |
| BlobStore.PutExactly | src/gst_automation/storage/local_store.py:18-30 | a put succeeds if and only if the path has a segment, no file stands where a directory should be, and neither destination nor temporary name is a directory; what each failure leaves |
| BlobStore.GetExactly | src/gst_automation/storage/local_store.py:42-46 | a get answers if and only if something is stored under the resolved path |
| BlobStore.TempIsBeside | src/gst_automation/storage/local_store.py:27 | whatever suffix the name has, the temporary name is the name and ".tmp", and a possible blob name |
| BlobStore.PutThenGet | src/gst_automation/storage/local_store.py:24-46 | a put that succeeds is found under its name with its bytes and size |
| BlobStore.PutSparesExactly | src/gst_automation/storage/local_store.py:24-30 | in a well-formed tree a put of another name keeps a blob if and only if it is not its temporary name or its destination is a directory, and keeps its bytes if and only if, in the second case, the payload is the same |
| BlobStore.PutReplacesExactly | src/gst_automation/storage/local_store.py:24-30 | a put of a stored blob's own name replaces its bytes unless its temporary name is a directory |
| BlobStore.BlobSurvivesExactly | src/gst_automation/storage/local_store.py:24-30 | a blob keeps its bytes throughout a run of puts if and only if no put of the run harms it in one of these ways |
| BlobStore.NothingLeavesTheRoot | src/gst_automation/storage/local_store.py:18-30 | over any run the tree stays well formed and every path in it is made of safe segments |
| BlobStore.BlobsSurvive | src/gst_automation/storage/local_store.py:24-30 | a blob keeps its bytes through any run that neither writes it nor uses its name as temporary |
| BlobStore.TempNameIsLost | src/gst_automation/storage/local_store.py:27-29 | a successful put of a name deletes the blob of that name with ".tmp" |
| BlobStore.TempNameIsOverwritten | src/gst_automation/storage/local_store.py:27-29 | where the name is a directory the put fails and has overwritten the blob of that name with ".tmp" |
| Workbook.ClientMasterParser.CheckGstin | src/gst_automation/clients/excel_parser.py:206-216 | length, form and repetition errors of a GSTIN, and the set of those seen |
| Workbook.ClientMasterParser.CheckEmails | src/gst_automation/clients/excel_parser.py:226-235 | one error per bad address, or one if there is none at all |
| Workbook.ClientMasterParser.Parse | src/gst_automation/clients/excel_parser.py:139-281 | choice of sheet, header check, and the rows and errors of all data rows |
| WorkbookRules.RowErrorsExactly | src/gst_automation/clients/excel_parser.py:192-256 | a row is free of errors if and only if it meets all field rules and repeats neither GSTIN nor user name |
| WorkbookOutput.ErrorsAreThese | src/gst_automation/clients/excel_parser.py:192-256 | the errors of a row are exactly these, each under its field and with its message |
| WorkbookRules.NoErrorsExactly | src/gst_automation/clients/excel_parser.py:181-269 | no errors if and only if every filled row is valid and GSTINs and user names are pairwise distinct |
| WorkbookRules.DuplicatesAreCounted | src/gst_automation/clients/excel_parser.py:214-224 | duplicate errors number the rows carrying a value less the distinct values, for GSTINs and for user names |
| WorkbookRules.FilledRowsAreReturned | src/gst_automation/clients/excel_parser.py:181-187 | exactly the filled rows are returned, in order, under their numbers, whatever their errors |
| WorkbookRules.AcceptedGstins | src/gst_automation/clients/excel_parser.py:209-263 | the GSTIN returned is the GSTIN checked, although the two are normalized in opposite orders |
| WorkbookOutput.ReturnedValues | src/gst_automation/clients/excel_parser.py:258-268 | the returned values, column by column |
| WorkbookOutput.AddressesReadBack | src/gst_automation/clients/excel_parser.py:131-132 | the list of addresses as returned splits into the addresses that were checked |
| WorkbookOutput.BlankExactly | src/gst_automation/clients/excel_parser.py:182-187 | a row is skipped if and only if its first twelve cells are as good as empty |
| WorkbookRules.ColumnsLineUpExactly | src/gst_automation/clients/excel_parser.py:156-182 | under an accepted header the columns stand under their headings if and only if none of the first twelve is blank |
| WorkbookRules.BlankHeadingIsIgnored | src/gst_automation/clients/excel_parser.py:156-182 | a blank heading anywhere changes neither acceptance nor which cells are read |
| WorkbookRules.BlankFirstHeadingShifts | src/gst_automation/clients/excel_parser.py:156-182 | a blank cell before an accepted header is accepted and puts the columns out of line |
| WorkbookRules.NormalFormsAreFixed | src/gst_automation/clients/excel_parser.py:99-107 | normalizing yields trimmed, single-spaced text, and leaves alone exactly such text |
| WorkbookOutput.NormalIsWords | src/gst_automation/clients/excel_parser.py:99-107 | normalizing a text is joining its words with single spaces; one without words counts as empty |
| WorkbookOutput.HeadingIsWords | src/gst_automation/clients/excel_parser.py:110-117 | a heading is the words of its text in lower case, joined with underscores |
| ClientImport.ClientService.PutClient | src/gst_automation/clients/service.py:55-64 | the client record after creation or overwriting, and which of the two it was |
| ClientImport.ClientService.UpsertFromImport | src/gst_automation/clients/service.py:50-122 | the store after all rows; created is the number of new clients, and created + updated the number of rows |
| ClientImport.ClientService.GetCredentials | src/gst_automation/clients/service.py:124-131 | the user name and the secret under the stored reference, or an error |
| ClientImport.LastRowWins | src/gst_automation/clients/service.py:54-107 | afterwards a client's record, configuration, reference and password are those of its last row, or as before if it has none |
| ClientImport.ImportedExactly | src/gst_automation/clients/service.py:54-107 | field by field, what the tables and the vault hold of a client after its last row |
| ClientImport.OthersAreUntouched | src/gst_automation/clients/service.py:54-107 | a client without a row keeps its record, configuration and reference |
| ClientImport.ReimportChangesNothing | src/gst_automation/clients/service.py:50-122 | importing any rows again creates none and changes nothing that can be read, with any new tokens |
| ClientImport.CredentialsRoundTrip | src/gst_automation/clients/service.py:96-131 | the credentials read back are the user name and password of the last row |
| ClientImport.OthersKeepCredentials | src/gst_automation/clients/service.py:96-131 | a client without a row keeps its credentials |
| ClientImport.SecretKeysAreDistinct | src/gst_automation/clients/service.py:97-107 | different clients never share a secret key |
| Backoff.DelaysGrowAndSaturate | src/gst_automation/retry/engine.py:45-47 | delays never shrink and stay at the cap once there |
| Backoff.DelaysDouble | src/gst_automation/retry/engine.py:45-47 | the next delay is the double, cut at the cap |
| Backoff.TotalExactly | src/gst_automation/retry/engine.py:45-47 | the first n delays sum to base(2^n - 1) if and only if the n-th is within the cap, and to less otherwise |
| Backoff.ScheduledWithin | src/gst_automation/retry/engine.py:16-43 | delay and jitter together never exceed the cap and a fifth of it (at least one), and only the listed classes are retried |
| Backoff.DecisionExactly | src/gst_automation/retry/engine.py:16-47 | which classes are retried, with which first delay, and how far the jitter goes |

## Left out

- Playwright pages, selectors, authentication, CAPTCHA and Telegram flows: foreign input and output; where the core calls them they are outcomes.
- Job, transition, lease, retry and dead-letter services and repositories: in `run_job` they are steps that may return, raise or be cancelled.
- The lease heartbeat loop of `run_job`: it does not touch the lock.
- JobRun.JobRunner.RunJob: says that the release is attempted, not that it reaches the server, because the source swallows its errors.
- Browser contexts that an allocation opened before it failed: they go with their browser.
- Whether stopping Playwright also ends browsers whose close failed: foreign behaviour.
- The race between SELECT and flush in the database `acquire`: each lock call is one step.
- FairScheduler.RoundRobinShares: nothing is claimed after a bucket is removed, because the index then counts into a shorter list.
- The anomaly that `enforce` records when a pass had errors, and the JSON details of its actions.
- Retention.RetentionService.Enforce: rows with equal creation times are taken in stored order, which the query leaves open.
- `put_file`: it copies a source file to the temporary name and goes on like `put_bytes`, except when that name is a directory.
- The unique constraint on GSTINs in the client table, whose violation depends on when the session flushes; folder creation during the import; timestamps.
- `parse_records` and the readiness and score tallies: easy, and its reading of the active flag differs from the validation's.
- Messages of the workbook diagnostics: the sheet names and the list of expected columns are shortened.
- Classification of exceptions in the retry engine: a fixed table.
- Metrics other than the two browser gauges, logging, routes, settings, migrations, the command line.
