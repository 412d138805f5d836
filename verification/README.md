# The job lifecycle engine of ts-queue, modelled and proved in Dafny

This project models the part of `@stackra/ts-queue` that decides what happens to a job: the stores that hold jobs, the
worker loop that drives them, and the retry delays and deduplication keys they use. `dafny verify dfyconfig.toml` checks
all of it.

## How the model is laid out

| file | what it holds |
|---|---|
| `js_strings.dfy`, `jobs.dfy` | UTF-16 strings; the job record, its construction and its three updates |
| `memory_store.dfy`, `memory_store_laws.dfy`, `bulk_dispatch.dfy` | the insertion-ordered job map as a value: what each atomic driver call does to it, laws about it, and what a bulk dispatch leaves |
| `memory_driver.dfy` | the in-memory driver as a class over mutable job objects, proved against that map |
| `backoff.dfy`, `worker_policy.dfy` | retry delays; what a worker decides when a processor run is over, and the fate of a job |
| `worker_protocol.dfy` | N workers sharing one memory store, as interleaved atomic steps |
| `worker_invariants.dfy`, `worker_theorems.dfy` | what every disciplined run keeps, and the guarantees that follow |
| `job_history.dfy`, `worker_histories.dfy` | what a job looks like, told from its dispatch and its history alone, and that every disciplined run keeps to it |
| `event_grammar.dfy` | the lifecycle events of an attempt in every interleaving, and their totals per job |
| `drain.dfy`, `push_order.dfy`, `worker_runs.dfy` | draining by one worker, processing order, links to the protocol, runs that show why discipline is needed |
| `polling_loop.dfy`, `worker_service.dfy` | the worker's timers as a state machine; the `Worker` class |
| `tube_store.dfy`, `storage_keys.dfy`, `local_storage_driver.dfy` | per-tube lists against the flat map, storage keys, the local-storage driver as a class |
| `indexeddb_model.dfy`, `indexeddb_driver.dfy`, `indexeddb_witnesses.dfy` | the IndexedDB driver as interleaved transactions and exactly when it is sound, the code inside the transactions, runs in which it is not |
| `indexeddb_outcomes.dfy`, `indexeddb_refinement.dfy` | what becomes of jobs in sound runs of the IndexedDB driver, and its transactions against the job map |
| `leader_gate.dfy` | the broadcast driver's leader gate in front of those transactions, and exactly when it suffices |
| `canonical_key.dfy`, `canonical_text.dfy`, `key_text.dfy`, `unique_ids.dfy` | the canonical printer, its unambiguity, the hashed text, and the hash in double arithmetic |
| `string_literals.dfy`, `json_reader.dfy` | a JSON reader written from RFC 8259, which reads back what the printer prints |

Conventions. Job ids are integers; only equality, freshness and (for IndexedDB) a fixed total order on them matter. Times are
integers in milliseconds; the clock may go either way unless a property says otherwise. A processor run is an outcome: it
succeeds, throws, or times out. Each atomic step reads the clock once. A `Record` beside each accepted job keeps the history
that the properties speak of; no step reads it. A run is *disciplined* when nobody but its holder releases a job that is not
waiting or fails one that is reserved, which a caller can check by the job's status; outside removals, clears, closes, pauses,
clock changes, releases of waiting jobs and failing of jobs that nobody holds are always allowed. That is exactly the condition
under which workers, store and history stay in agreement (`WorkerInvariants.SoundExactlyWhenDisciplined`).

Class methods are proved against functions on values: `MemoryConnection` against `MemoryStore`, `LocalStorageConnection`
against the same map through `TubeStore`, `IndexedDBConnection` against the transactions of `IndexedDbModel`, `Worker` against
`WorkerPolicy`, `EventGrammar`, `Drain` and `PollingLoop`.

## Where the code and its documentation differ

The model follows the code in each case.

- The examples of `computeBackoff` call attempt 1 the first retry; the worker asks for attempt 2 first, so the first retry waits
  twice the base. Attempts up to 1 are not clamped (`Backoff.FirstDelayIsUnclamped`).
- `fnv1a` is not FNV-1a on all inputs: the product is rounded to a double before it is reduced (`UniqueIds.HashOfZeroIsNotFnv1a`
  for the text `:0`, `UniqueIds.FollowsFnv1aExactly` for all).
- Local storage deduplicates "same as the memory driver" only when the earliest in-flight holder of the key is on the same tube
  (`TubeStore.PushesAgreeExactly`), and its `clear` also unpauses.
- An explicit empty unique id is falsy and never deduplicates (`WorkerRuns.OnlyNonEmptyKeysDeduplicate`). The value of
  `uniqueFor` is never used; only in-flight status counts.
- The IndexedDB scan breaks ties by primary key, not by insertion.
- The follow-up transaction of the IndexedDB `pop` does not compare what it overwrites, so it does not by itself stop double
  dispatch (`IndexedDbWitnesses.OverlappingPopsShareAJob`). A run is sound exactly when each reserve finds the scanned copy
  still stored (`IndexedDbModel.SoundExactlyWhenFresh`). While leadership does not move during a pop and nobody clears or
  removes a job that a pop has chosen, the leader gate ensures that exactly when no tab runs two workers on one tube
  (`LeaderGate.GateSufficesExactly`); when leadership moves, it does not (`LeaderGate.HandoverDuringPop`).
- After `stop()` no further tick begins, unless `start()` was called while a tick was still under way
  (`PollingLoop.StoppedMeansQuiet`, `PollingLoop.RestartOutlivesStop`).

## Model

| member | source | states |
|---|---|---|
| Jobs.NewJobFollowsItsDispatch | src/utils/create-queued-job.util.ts:46-79 | a new job carries the id, name and payload it was made from; it waits unattempted and becomes eligible on its tube exactly when its delay has passed; tunables follow dispatch, then worker, then built-in values; a key is set exactly when `uniqueFor` is, the explicit one or else the computed one |
| Jobs.DefaultTubeIsSpelledOut | src/utils/create-queued-job.util.ts:51 | dispatches that name no tube go to `default` |
| MemoryStore.PushKeepsValid | src/connections/memory.connection.ts:48-70 | a push, deduplicated or not, keeps the map insertion-ordered, keyed by id, without repeats |
| MemoryStore.RemoveKeepsValid | src/connections/memory.connection.ts:171-173 | so does removing a job |
| MemoryStore.ClearKeepsValid | src/connections/memory.connection.ts:220-224 | so does clearing a tube |
| MemoryStore.DropKeepsTheRest | src/connections/memory.connection.ts:171-173 | deleting keys leaves exactly the others, once each |
| MemoryStore.FirstBlockingIsFirst | src/connections/memory.connection.ts:54-66 | the duplicate scan finds nothing exactly when no in-flight job has the key, and otherwise the earliest inserted one |
| MemoryStore.NothingBlocks | src/connections/memory.connection.ts:54-66 | when the scan finds nothing, no stored job holds the key in flight |
| MemoryStore.PopTakesOne | src/connections/memory.connection.ts:85-112 | a pop that answers a job takes an eligible one of an unpaused tube, reserves it with one more attempt, and changes nothing else |
| MemoryStore.OldestIsLeast | src/connections/memory.connection.ts:88-105 | the scan finds nothing exactly when nothing is eligible, and otherwise the job least by (createdAt, insertion position) |
| MemoryStoreLaws.CountIsCardinality | src/connections/memory.connection.ts:246-252 | the counting loop counts each stored job of the tube with such a status once |
| MemoryStoreLaws.SizeIsConserved | src/connections/memory.connection.ts:123-161 | size is pending plus delayed plus reserved |
| MemoryStoreLaws.SizesCountJobs | src/connections/memory.connection.ts:123-161 | each count is the number of stored jobs of the tube with that status, `size` of those neither completed nor failed |
| MemoryStoreLaws.PushAppendsOrDefers | src/connections/memory.connection.ts:48-70 | a push under a fresh id appends the job, unless it has a non-empty key in flight: then it answers the earliest holder and changes nothing |
| MemoryStoreLaws.PopOnlyMarks | src/connections/memory.connection.ts:107-111 | a popped job is Reserved with one more attempt, and otherwise as it was stored |
| MemoryStoreLaws.ReleasePutsBack | src/connections/memory.connection.ts:186-193 | a released job can be popped from exactly the delay later on; `delayedSize` gains it for a positive delay, `pendingSize` otherwise |
| MemoryStoreLaws.FailKeepsTheReason | src/connections/memory.connection.ts:206-213 | a failed job keeps the reason, is never popped, and leaves `size` if it was in flight |
| MemoryStoreLaws.UnknownJobsAreIgnored | src/connections/memory.connection.ts:171-213 | remove, release and fail of an unknown id change nothing |
| MemoryStoreLaws.ClearEmptiesOneTube | src/connections/memory.connection.ts:220-224 | a cleared tube has no job of any status, all other jobs and all pauses stay |
| MemoryStoreLaws.CloseForgetsEverything | src/connections/memory.connection.ts:232-235 | after a close any push is stored, alone, and popped as soon as it is due: no tube is paused |
| MemoryStoreLaws.PauseHoldsBackOneTube | src/connections/base.connection.ts:95-116 | a paused tube answers nothing and loses nothing, other tubes answer as before, and so does the tube once resumed |
| MemoryStoreLaws.PushedJobBlocksFirst | src/connections/memory.connection.ts:54-70 | after a push with a key, the returned id is the one the next duplicate scan finds |
| MemoryStoreLaws.KeyOrderFeedsDedup | src/connections/memory.connection.ts:48-70 | a second opted-in push of the same name and a payload equal up to key order returns the first push's id and leaves the store unchanged |
| BulkDispatch.BulkDeduplicates | src/connections/base.connection.ts:80-88 | the same inside a bulk dispatch, after any batch |
| BulkDispatch.BulkAnswersEachEntry | src/connections/base.connection.ts:80-88 | each returned id is that of a stored job: the entry's own, placed after everything earlier, or the first in-flight holder of the entry's key |
| BulkDispatch.BulkWithoutKeysAppends | src/connections/base.connection.ts:80-88 | a batch without keys appends exactly its jobs, in batch order, and leaves what was there |
| MemoryDriver.QueuedJob.Reserve | src/connections/memory.connection.ts:108-110 | reserving the job object in place: status, one more attempt, time, and no other field |
| MemoryDriver.QueuedJob.Release | src/connections/memory.connection.ts:190-192 | releasing the job object in place: Delayed exactly for a positive delay, due that much later |
| MemoryDriver.QueuedJob.Fail | src/connections/memory.connection.ts:210-212 | failing the job object in place: status, reason, time, and no other field |
| MemoryDriver.MemoryConnection.FindBlocking | src/connections/memory.connection.ts:55-65 | the duplicate loop over the job objects finds the map's first blocking job |
| MemoryDriver.MemoryConnection.Push | src/connections/memory.connection.ts:48-70 | the new map and the returned id are those of the specification's push |
| MemoryDriver.MemoryConnection.Insert | src/connections/memory.connection.ts:68 | `Map.set`: a new key goes last, a known key keeps its place |
| MemoryDriver.MemoryConnection.FindOldest | src/connections/memory.connection.ts:94-103 | the scan returns the stored object of the specification's oldest eligible job |
| MemoryDriver.MemoryConnection.Pop | src/connections/memory.connection.ts:85-112 | pop updates one stored object in place and returns that very object, as the specification's pop does on values |
| MemoryDriver.MemoryConnection.Size | src/connections/memory.connection.ts:123-131 | the loop counts the in-flight jobs of the tube |
| MemoryDriver.MemoryConnection.CountByStatus | src/connections/memory.connection.ts:246-252 | the loop counts the tube's jobs of one status |
| MemoryDriver.MemoryConnection.Remove | src/connections/memory.connection.ts:171-173 | exactly the given job leaves the map, the others keep their order |
| MemoryDriver.MemoryConnection.Release | src/connections/memory.connection.ts:186-193 | the stored job is released in place, an unknown id changes nothing |
| MemoryDriver.MemoryConnection.Fail | src/connections/memory.connection.ts:206-213 | the stored job is failed in place, an unknown id changes nothing |
| MemoryDriver.MemoryConnection.Clear | src/connections/memory.connection.ts:220-224 | deleting while iterating leaves exactly the jobs of other tubes, in order |
| MemoryDriver.MemoryConnection.Close | src/connections/memory.connection.ts:232-235 | no jobs and no paused tubes are left |
| MemoryDriver.MemoryConnection.Later | src/connections/base.connection.ts:65-72 | a push with the delay overridden |
| Jobs.DelayIsOverridden | src/connections/base.connection.ts:65-72 | a delayed dispatch makes the job of the plain one but for its delay, whatever delay the options gave |
| MemoryDriver.MemoryConnection.Bulk | src/connections/base.connection.ts:80-88 | the loop is the pushes one after the other, its ids in order |
| MemoryDriver.MemoryConnection.Pause | src/connections/base.connection.ts:95-97 | exactly this tube becomes paused |
| MemoryDriver.MemoryConnection.Resume | src/connections/base.connection.ts:104-106 | exactly this tube stops being paused |
| MemoryDriver.MemoryConnection.IsPaused | src/connections/base.connection.ts:114-116 | answers whether the tube is paused |
| Backoff.BackoffIsMonotoneAndCapped | src/utils/compute-backoff.util.ts:29-33 | from attempt 2 on delays never shrink, never exceed the cap, and reach it exactly when the doubled base does |
| Backoff.FirstDelayIsUnclamped | src/utils/compute-backoff.util.ts:30 | a delay exceeds the cap exactly for attempts up to 1 with a base above the cap |
| Backoff.TotalDelayIsGeometric | src/utils/compute-backoff.util.ts:29-33 | the delays before the k-th attempt add up to at most base times (2^k - 2), exactly that while nothing is clamped |
| Backoff.TotalDelayIsCapped | src/utils/compute-backoff.util.ts:32 | and to at most one cap per retry |
| WorkerPolicy.FateIsFirstFinalAttempt | src/services/worker.service.ts:207-230 | a job's last attempt is the first that succeeds, times out under `failOnTimeout`, or uses up max(1, maxAttempts); it is removed exactly when that attempt succeeds |
| WorkerProtocol.StepKeepsStoreValid | src/connections/memory.connection.ts:29-31 | every step of the worker system, outside calls included, keeps the job map well-formed |
| WorkerInvariants.PopTakesAFreeJob | src/services/worker.service.ts:116-127 | a worker's pop takes a job that nobody holds |
| WorkerInvariants.StepKeepsInv | src/services/worker.service.ts:116-230 | every step of a disciplined run keeps the agreement of workers, store and history: pops, settling, clears, closes, removals, outside releases of waiting jobs, outside fails of jobs nobody holds, and the rest |
| WorkerInvariants.StepKeepsInvExactly | src/connections/memory.connection.ts:186-213 | a step keeps that agreement if and only if it is no outside release of a job that is not waiting and no outside fail of a reserved one |
| WorkerInvariants.RunKeepsInv | src/services/worker.service.ts:116-230 | and so does every disciplined run |
| WorkerInvariants.SoundExactlyWhenDisciplined | src/connections/memory.connection.ts:186-213 | they agree throughout a run if and only if every outside call in it was of that kind |
| WorkerTheorems.ExclusiveReservation | src/connections/memory.connection.ts:107-111 | after every disciplined run of N workers no two hold one job, and a held job is stored exactly as its holder sees it, Reserved, or not at all |
| WorkerTheorems.ReservedJobsAreHeld | src/connections/memory.connection.ts:107-111 | every stored Reserved job has a holder |
| WorkerTheorems.AttemptBudget | src/services/worker.service.ts:211-228 | attempts count reservations, stay within max(1, maxAttempts), and leave a waiting retry attempts to spare |
| WorkerTheorems.EveryJobIsAccountedFor | src/connections/memory.connection.ts:123-161 | every accepted job that was not wiped waits, is held, failed after an unsuccessful last attempt or from outside while it waited, or is gone after a successful one |
| WorkerTheorems.InFlightUniqueness | src/connections/memory.connection.ts:54-68 | at most one job per non-empty unique id is in flight, after every disciplined run |
| WorkerTheorems.NoKeyIsInFlightTwice | src/connections/memory.connection.ts:54-68 | of two stored jobs with one non-empty unique id, one has failed |
| WorkerTheorems.ReleaseKeepsUniqueExactly | src/connections/memory.connection.ts:186-193 | whoever releases a job: uniqueness survives if and only if the job was in flight, has no key, or nobody in flight has its key |
| WorkerTheorems.SettleDecides | src/services/worker.service.ts:149-162 | settling changes one job, as the verdict on its reservation count and outcome says, and no other |
| WorkerTheorems.FinishedAsFated | src/services/worker.service.ts:143-230 | a job that nobody outside ended finishes as its own outcomes dictate, and until then has the attempts its fate needs |
| WorkerTheorems.RecordsObey | src/services/worker.service.ts:149-155 | if the processor's result depends only on job and attempt, so do the recorded outcomes |
| WorkerTheorems.OutcomeIsScheduleIndependent | src/services/worker.service.ts:143-230 | two runs with any workers and interleavings that finish a job, neither ending it from outside, both remove it or both fail it, after the same number of attempts, as the outcomes of its own attempts dictate |
| WorkerTheorems.RetryTiming | src/services/worker.service.ts:227-228 | while the clock never goes back and nobody outside releases the job, its k-th reservation comes no earlier than the first due time plus all backoff delays, and a released job waits for the next one |
| JobHistory.DecidedByRules | src/services/worker.service.ts:207-228 | success, retry and giving up follow from outcome and attempt number alone, the delay is min(base * 2^k, cap), and the reason is the timeout or the attempts |
| WorkerHistories.JobsFollowTheirHistory | src/services/worker.service.ts:143-230 | after every disciplined run each stored job is, field by field, what its dispatch and the times and outcomes of its attempts say |
| WorkerHistories.JobsCarryTheirDispatch | src/connections/memory.connection.ts:48-112 | every stored job, and every job a worker holds, has the id, name, payload and options of a dispatch that the run pushed |
| WorkerHistories.RetriesWaitExactly | src/services/worker.service.ts:227-228 | a job waiting after k attempts is due exactly min(base * 2^k, cap) after the k-th was settled, unless released from outside, and at first exactly its delay after the push |
| WorkerHistories.NoRetryWaitsLongerThanTheCap | src/services/worker.service.ts:227-228 | with no negative option no worker puts a job off for longer than the cap |
| WorkerHistories.FailuresKeepTheirReason | src/services/worker.service.ts:215-220 | a stored failed job keeps the outside caller's reason, the timeout's, or that its attempts are used up |
| WorkerHistories.RetriesAreReported | src/services/worker.service.ts:143-230 | a retried attempt's events are Processing, TimedOut if it timed out, Released with exactly the wait, Attempted |
| EventGrammar.MovingOnKeepsTrail | src/services/worker.service.ts:143-170 | a worker that moves on within an attempt extends that attempt's trail and no other |
| EventGrammar.EventsFollowTheGrammar | src/services/worker.service.ts:143-170 | in every reachable state each attempt's events are Processing, optional TimedOut, one of Processed, Failed and Released by its verdict, then Attempted, cut off only where its handler is |
| EventGrammar.TallyByAttempt | src/services/worker.service.ts:143-170 | a job's events are those of its attempts |
| EventGrammar.EventTotals | src/services/worker.service.ts:207-230 | a job that ended after k attempts has k Processing, k Attempted and one TimedOut per timeout; k - 1 Released and one Processed or Failed by where it ended, or k Released and neither when it was failed from outside |
| Drain.TickSpendsAnAttempt | src/services/worker.service.ts:116-127 | a tick that pops, however long the processor takes, leaves fewer attempts on the tube and everything elsewhere untouched |
| Drain.NextDueIsEarliest | src/connections/memory.connection.ts:97 | the next due time is the earliest of the waiting jobs |
| Drain.DueJobIsPopped | src/connections/memory.connection.ts:94-111 | when the clock reaches it, the next tick pops |
| Drain.DrainingTerminates | src/services/worker.service.ts:116-127 | one worker drains a tube with at most the attempts left in pops, ends with size 0, and leaves other tubes untouched, however long its processor takes and whichever way the clock moves meanwhile |
| PushOrder.OldestIsFirst | src/connections/memory.connection.ts:94-103 | when all waiting jobs are due, the scan picks the first inserted |
| PushOrder.ProcessedInPushOrder | src/connections/memory.connection.ts:88-111 | due jobs that all succeed, however long each takes, are popped exactly in insertion order, ties included |
| WorkerRuns.SizesAddUp | src/connections/memory.connection.ts:123-161 | after any run at all, outside releases and fails included, each tube's size is the sum of its status counts |
| WorkerRuns.ReachableTubeIsReady | src/services/worker.service.ts:116-127 | after every disciplined run, an unpaused tube none of whose jobs is held can be drained |
| WorkerRuns.SteadyRunsCreateInOrder | src/connections/memory.connection.ts:68 | while the clock never goes back, insertion order is creation order |
| WorkerRuns.TickIsARun | src/services/worker.service.ts:116-170 | a tick of the draining worker is six steps of the protocol: pop, begin, the clock moving on, settle, report, finish |
| WorkerRuns.DrainIsARun | src/services/worker.service.ts:116-127 | the whole drain, the clock moving while jobs run, is a run of the protocol without outside calls that ends in the same store at the same time |
| WorkerRuns.SteadyRunsDrainInPushOrder | src/connections/memory.connection.ts:88-111 | after any disciplined run with a steady clock, due jobs of a free tube that all succeed are popped in push order |
| WorkerRuns.OutsideReleaseBreaksExclusivity | src/connections/memory.connection.ts:186-193 | in every system with two workers on one tube, an outside release of a reserved job can hand it to the second |
| WorkerRuns.OutsideReleaseBreaksUniqueness | src/connections/memory.connection.ts:186-193 | in every system, an outside release of a failed job can make a second in-flight job with its key |
| WorkerRuns.OnlyNonEmptyKeysDeduplicate | src/connections/memory.connection.ts:54 | an explicit key deduplicates exactly when it is not empty |
| PollingLoop.NextKeepsSingleLoop | src/services/worker.service.ts:96-127 | every event but a restart during a tick keeps one loop, and that event makes two |
| PollingLoop.SinglePollingLoop | src/services/worker.service.ts:55-127 | without such a restart there is at most one timer or tick, exactly one while running, and `pendingTick` is set exactly while running and names the live timer |
| PollingLoop.TwoLoopsExactlyOnRestart | src/services/worker.service.ts:55-127 | a run has two loops at some point exactly when it restarts the worker during a tick |
| PollingLoop.StoppedMeansQuiet | src/services/worker.service.ts:72-83 | no tick, and so no pop, begins between stop and the next start |
| PollingLoop.NextTickWaits | src/services/worker.service.ts:96-127 | after a tick that asks for the next one after a delay, a running worker can begin it once the delay has passed and no tick before |
| PollingLoop.FirstTickIsDueAtOnce | src/services/worker.service.ts:55-63 | a started worker can begin its first tick at once |
| PollingLoop.RestartOutlivesStop | src/services/worker.service.ts:72-83 | after every run that restarts the worker during a tick, the end of that tick and a stop leave a stopped worker with a timer that can fire |
| WorkerService.Worker.Start | src/services/worker.service.ts:55-63 | starts once: one timer due at once, one starting event, nothing when already running |
| WorkerService.Worker.Stop | src/services/worker.service.ts:72-83 | clears the timer in `pendingTick`, emits the stopping event, nothing when not running |
| WorkerService.Worker.ScheduleNext | src/services/worker.service.ts:96-107 | sets a fresh timer, due after the given delay, and remembers it, only while running |
| WorkerService.Worker.Tick | src/services/worker.service.ts:116-127 | one tick is the drain's tick on the store, emits the complete trail of the attempt, and schedules the next: due at once after a job, after the poll interval when there was none |
| WorkerService.Worker.Handle | src/services/worker.service.ts:143-170 | the store gets the one call the verdict asks for, and the bus the complete trail of the attempt |
| WorkerService.Worker.SettleByOutcome | src/services/worker.service.ts:149-163 | a success removes the job and reports it, a timeout is reported first, and every failure goes to the failure policy |
| WorkerService.Worker.HandleFailure | src/services/worker.service.ts:207-230 | fails or releases with backoff as the verdict says, and reports it |
| TubeStore.PopOnTubes | src/connections/local-storage.connection.ts:97-121 | popping from a tube's list is popping from the flat map, and touches that tube only |
| TubeStore.PushOnTubes | src/connections/local-storage.connection.ts:67-85 | pushing onto a tube's list is the flat push with deduplication scoped to the tube |
| TubeStore.RewriteOnTubes | src/connections/local-storage.connection.ts:197-229 | rewriting a job in its list is rewriting it in the map |
| TubeStore.RemoveOnTubes | src/connections/local-storage.connection.ts:176-188 | filtering an id out of a list removes it from the map; only its own tube's list changes |
| TubeStore.ClearOnTubes | src/connections/local-storage.connection.ts:239-242 | erasing a tube's blob is clearing and unpausing it in the flat map |
| TubeStore.CountsAgree | src/connections/local-storage.connection.ts:375-377 | counting a list counts the tube's jobs in the map |
| TubeStore.TubeMembers | src/connections/local-storage.connection.ts:24-29 | every id sits in exactly one list, its own tube's, once and as stored |
| TubeStore.PushesAgreeExactly | src/connections/local-storage.connection.ts:71-80 | the two drivers answer a push alike exactly when the earliest in-flight holder of the key, if any, is on the same tube |
| StorageKeys.SlicingUndoesPrefixing | src/connections/local-storage.connection.ts:355-366 | slicing the prefix off a key recovers any tube name, so different tubes have different keys |
| StorageKeys.KeysAreSpelledOut | src/connections/local-storage.connection.ts:296-298 | a key is the prefix, `queue:`, the name, a colon and the tube |
| StorageKeys.SeesExactlyOnCommonStart | src/connections/local-storage.connection.ts:296-298 | a connection lists a tube of another exactly when one name with its colon starts with the other |
| StorageKeys.SeenTubesAreShared | src/connections/local-storage.connection.ts:296-298 | which is exactly when two of their tubes share a key |
| StorageKeys.ColonFreeNamesAreIsolated | src/connections/local-storage.connection.ts:296-298 | different colon-free names never see each other, whatever their tubes are called |
| LocalStorageDriver.OtherConnectionsUnchanged | src/connections/local-storage.connection.ts:336-344 | what an operation changes in storage changes no blob of a connection it does not see |
| LocalStorageDriver.NothingStored | src/connections/local-storage.connection.ts:310-325 | without keys of its own a connection shows the empty job map |
| LocalStorageDriver.BrowserStorage.Keys | src/connections/local-storage.connection.ts:359-360 | enumerates every key once, in any order |
| LocalStorageDriver.LocalStorageConnection.ListQueues | src/connections/local-storage.connection.ts:355-366 | finds exactly the tubes that were written |
| LocalStorageDriver.LocalStorageConnection.Push | src/connections/local-storage.connection.ts:67-85 | same id and related state as the flat push scoped to the tube; only own keys change |
| LocalStorageDriver.LocalStorageConnection.Pop | src/connections/local-storage.connection.ts:97-121 | same job and related state as the flat pop; only own keys change |
| LocalStorageDriver.LocalStorageConnection.FindBlocking | src/connections/local-storage.connection.ts:73-78 | finds the first blocking job of the list |
| LocalStorageDriver.LocalStorageConnection.FindOldest | src/connections/local-storage.connection.ts:104-111 | finds the oldest due job of the list, the first among equals |
| LocalStorageDriver.LocalStorageConnection.Size | src/connections/local-storage.connection.ts:131-136 | counts the flat map's in-flight jobs of the tube |
| LocalStorageDriver.LocalStorageConnection.CountByStatus | src/connections/local-storage.connection.ts:375-377 | counts the flat map's jobs of the tube at one status |
| LocalStorageDriver.LocalStorageConnection.Remove | src/connections/local-storage.connection.ts:176-188 | scanning the tubes in any order removes what the flat remove removes |
| LocalStorageDriver.LocalStorageConnection.Release | src/connections/local-storage.connection.ts:197-209 | scanning the tubes in any order releases as the flat release does |
| LocalStorageDriver.LocalStorageConnection.Fail | src/connections/local-storage.connection.ts:217-229 | scanning the tubes in any order fails as the flat fail does |
| LocalStorageDriver.LocalStorageConnection.Clear | src/connections/local-storage.connection.ts:239-242 | clears and unpauses the tube |
| LocalStorageDriver.LocalStorageConnection.Pause | src/connections/local-storage.connection.ts:252-256 | pauses the tube, keeping its jobs |
| LocalStorageDriver.LocalStorageConnection.Resume | src/connections/local-storage.connection.ts:263-267 | unpauses the tube, keeping its jobs |
| LocalStorageDriver.LocalStorageConnection.IsPaused | src/connections/local-storage.connection.ts:275-277 | answers whether the tube is paused |
| IndexedDbModel.StepKeepsInv | src/connections/indexeddb.connection.ts:141-192 | every transaction that finds the copy it reserves still stored keeps holders' copies equal to the stored jobs and the counts of dispatches right |
| IndexedDbModel.FreshRunsAreSound | src/connections/indexeddb.connection.ts:87-192 | so does every run whose reserves do, and at most one job per key is in flight |
| IndexedDbModel.ExclusiveReservation | src/connections/indexeddb.connection.ts:147-190 | after every such run: exclusive reservation, one attempt per dispatch, one in-flight job per key |
| IndexedDbModel.ReserveIsSoundExactly | src/connections/indexeddb.connection.ts:178-188 | a reserve keeps attempts equal to dispatches and brings back no deleted job if and only if the table still holds the scanned copy |
| IndexedDbModel.SoundExactlyWhenFresh | src/connections/indexeddb.connection.ts:147-190 | a whole run does so at every point if and only if each of its reserves finds the scanned copy still stored |
| IndexedDbModel.CarefulRunsAreFresh | src/connections/indexeddb.connection.ts:141-192 | with one pop per tube at a time and no clear or remove of a chosen job, every reserve finds it; pops of different tubes may overlap |
| IndexedDbOutcomes.JobsFollowTheirHistory | src/connections/indexeddb.connection.ts:141-293 | after every run whose reserves find their copies, a stored job is what its dispatch and history say, and one that is gone was wiped or has succeeded |
| IndexedDbOutcomes.LastOutcomeDecides | src/connections/indexeddb.connection.ts:248-293 | a job nobody holds or wiped is gone after a success, waits for exactly the backoff after a failure with attempts to spare, and is Failed with the reason after any other |
| IndexedDbOutcomes.SuccessIsFinal | src/connections/indexeddb.connection.ts:248-256 | a job that has succeeded is never stored again and succeeds only once |
| IndexedDbOutcomes.JobsCarryTheirDispatch | src/connections/indexeddb.connection.ts:87-190 | what the table holds and a pop scans has the name, payload and options that were pushed |
| IndexedDbOutcomes.NothingIsPoppedEarly | src/connections/indexeddb.connection.ts:159-190 | while the clock never goes back, no reservation comes before the dispatch's delay or the full backoff since the last settling has passed |
| IndexedDbRefinement.SettlingRefines | src/connections/indexeddb.connection.ts:248-293 | remove, fail and release leave in the table the jobs they leave in the job map |
| IndexedDbRefinement.ClearingRefines | src/connections/indexeddb.connection.ts:303-321 | so does clear |
| IndexedDbRefinement.PushRefines | src/connections/indexeddb.connection.ts:87-128 | where keys in flight are unique, so does push, with the same answer |
| IndexedDbRefinement.ScanRefines | src/connections/indexeddb.connection.ts:159-172 | where creation times do not tie, the scan chooses the job that the memory driver's scan finds |
| IndexedDbRefinement.PopRefines | src/connections/indexeddb.connection.ts:141-192 | undisturbed and without ties, a pop does what the memory driver's pop does |
| IndexedDbWitnesses.OverlappingPopsShareAJob | src/connections/indexeddb.connection.ts:174-190 | in every system with two workers on one tube, two overlapping pops can return the same job, with two dispatches and one attempt on record |
| IndexedDbWitnesses.ClearBetweenScanAndReserveIsUndone | src/connections/indexeddb.connection.ts:175-188 | a clear between scan and reserve is undone, and the key can end up in flight twice |
| LeaderGate.GatedRunsAreCareful | src/connections/broadcast-channel.connection.ts:85-88 | with one worker per tab and tube, no election during a pop and no clear or remove of a chosen job, the transactions behind the gate are a run with one pop per tube at a time |
| LeaderGate.GateSufficesExactly | src/connections/broadcast-channel.connection.ts:85-88 | with no election during a pop and no clear or remove of a chosen job, no two workers ever hold one job if and only if no tab runs two workers on one tube |
| LeaderGate.HandoverDuringPop | src/connections/broadcast-channel.connection.ts:85-88 | when leadership moves during a pop, two workers on one tube can come to hold one job |
| IndexedDbDriver.IndexedDBConnection.FindBlocking | src/connections/indexeddb.connection.ts:108-120 | the cursor walk finds the last in-flight holder of the key, or there is none |
| IndexedDbDriver.IndexedDBConnection.Push | src/connections/indexeddb.connection.ts:87-128 | the push transaction inserts the job or answers the holder's id |
| IndexedDbDriver.IndexedDBConnection.Scan | src/connections/indexeddb.connection.ts:159-172 | the cursor scan chooses the eligible job least by (createdAt, id), or nothing is eligible |
| IndexedDbDriver.IndexedDBConnection.Reserve | src/connections/indexeddb.connection.ts:178-188 | the reserve transaction writes the scanned copy, marked, whatever is stored |
| IndexedDbDriver.IndexedDBConnection.Pop | src/connections/indexeddb.connection.ts:141-192 | undisturbed, the three transactions reserve the chosen job and change nothing else, and a paused tube answers nothing |
| IndexedDbDriver.IndexedDBConnection.Remove | src/connections/indexeddb.connection.ts:248-256 | deletes exactly this record |
| IndexedDbDriver.IndexedDBConnection.Release | src/connections/indexeddb.connection.ts:269-275 | releases the stored record, an unknown id changes nothing |
| IndexedDbDriver.IndexedDBConnection.Fail | src/connections/indexeddb.connection.ts:287-293 | fails the stored record, an unknown id changes nothing |
| IndexedDbDriver.IndexedDBConnection.Clear | src/connections/indexeddb.connection.ts:303-321 | the cursor loop deletes exactly the records of the tube |
| IndexedDbDriver.IndexedDBConnection.CountMatching | src/connections/indexeddb.connection.ts:440-461 | the cursor loop counts the tube's records with such a status |
| IndexedDbDriver.IndexedDBConnection.IsPaused | src/connections/indexeddb.connection.ts:353-356 | the answer is that of the model's first transaction of a pop: go on exactly when the tube is not paused |
| IndexedDbDriver.IndexedDBConnection.Pause | src/connections/indexeddb.connection.ts:331-333 | the model's pause of this tube, with every other tube and all jobs as they were |
| IndexedDbDriver.IndexedDBConnection.Resume | src/connections/indexeddb.connection.ts:340-342 | the model's resume of this tube, with every other tube and all jobs as they were |
| IndexedDbDriver.BroadcastChannelConnection.Pop | src/connections/broadcast-channel.connection.ts:85-88 | a follower's pop answers nothing and touches nothing, a leader's is the IndexedDB driver's |
| StringLiterals.LiteralIsReadBack | src/utils/compute-unique-id.util.ts:55 | a reader written from section 7 of RFC 8259 reads every printed string literal back, and stops where it ends |
| StringLiterals.LiteralsAreWellFormed | src/utils/compute-unique-id.util.ts:55 | no printed literal holds half of a surrogate pair alone |
| JsonReader.CanonicalTextIsReadBack | src/utils/compute-unique-id.util.ts:53-64 | a JSON reader written from RFC 8259 reads every canonical text back to the payload up to key order, with nothing left over |
| CanonicalText.ReadUnit | src/utils/compute-unique-id.util.ts:55 | an escaped code unit can be read back, whatever follows |
| CanonicalText.ReadValue | src/utils/compute-unique-id.util.ts:53-64 | equal texts, each followed by anything that can follow a value, print values equal up to key order |
| CanonicalText.SortAscends | src/utils/compute-unique-id.util.ts:61 | sorting puts distinct keys in ascending code-unit order |
| CanonicalText.BeforeIsLexicographic | src/utils/compute-unique-id.util.ts:61 | keys are ordered by their first different unit, smaller first, and a proper prefix comes first |
| CanonicalText.SortedMatch | src/utils/compute-unique-id.util.ts:61-62 | objects equal up to key order sort to the same keys with equal values, position by position |
| CanonicalText.CanonicalTextCharacterisesPayload | src/utils/compute-unique-id.util.ts:53-64 | canonical texts are equal exactly when payloads are equal up to key order at every depth |
| KeyTexts.TextIsBalanced | src/utils/compute-unique-id.util.ts:53-64 | a canonical text closes every literal and bracket it opens |
| KeyTexts.NoTextAfterColon | src/utils/compute-unique-id.util.ts:27 | no proper suffix of a canonical text after a colon is a canonical text |
| KeyTexts.KeyTextCharacterisesDispatch | src/utils/compute-unique-id.util.ts:25-27 | the hashed text determines the name, colons and all, and the payload up to key order |
| KeyTexts.DerivedIdIsTheHash | src/utils/compute-unique-id.util.ts:25-29 | derived ids are equal exactly when the hashes are, and key order never tells dispatches apart |
| UniqueIds.RoundsToNearest | src/utils/compute-unique-id.util.ts:42 | the rounded product is a multiple of the spacing of doubles, none is nearer, and of two equally near ones it is the even one |
| UniqueIds.XorFlipsBits | src/utils/compute-unique-id.util.ts:40 | each of the 16 bits of the code unit flips its bit of the hash, and nothing else does |
| UniqueIds.XorLosesNothing | src/utils/compute-unique-id.util.ts:40 | xoring twice gives the hash back, so different units and different hashes stay different |
| UniqueIds.ComputeFnv1a | src/utils/compute-unique-id.util.ts:36-45 | the loop computes the fold of the rounds, a 32-bit number |
| UniqueIds.HashStepIsNearlyExact | src/utils/compute-unique-id.util.ts:39-42 | a round misses the exact modular product by at most 4, and hits it exactly when the product is a double, which it is up to 2^53 |
| UniqueIds.FollowsFnv1aExactly | src/utils/compute-unique-id.util.ts:36-45 | the loop agrees with FNV-1a on all prefixes of a text if and only if every signed product that FNV-1a's own hashes lead to is a double |
| UniqueIds.HashOfZeroIsNotFnv1a | src/utils/compute-unique-id.util.ts:25-45 | the hashed text of the empty name with payload 0 gets another hash than FNV-1a gives it |
| UniqueIds.HexIsInjective | src/utils/compute-unique-id.util.ts:28 | different hashes have different hexadecimal texts |
| UniqueIds.DerivedIdSpellsTheHash | src/utils/compute-unique-id.util.ts:25-29 | a derived id is `u_` and the hash of name, colon and canonical payload in lower-case hexadecimal without leading zeros |

## Left out

- The QStash, null and sync drivers, the module, connectors, decorators, loaders, manager, handle, hooks and error classes: no stored job state or only wiring.
- The `tags`, `driverMeta` and `connection` fields of a job, which no modelled code reads; failure messages are kept by kind, not as text.
- Promises and timers: a processor run is an outcome, timers are enabled steps, a tick that throws ends like any other; a processor that times out is not cancelled, so exclusivity is about reservations.
- The two clock readings inside `release` and the ones of `pop` and `reserve` in one step are one reading each; `updatedAt` is read by nothing. A draining worker's next pop reads the clock as its last settling left it.
- JSON decoding of blobs, quota failures, corrupt entries and missing storage in the local-storage driver; several tabs sharing local storage at once.
- IndexedDB opening, upgrades and error callbacks, of which only the flag of the open handle is kept; cursors are given by the keys they visit.
- Payloads that are not JSON trees, and distinctness of ids for distinct payloads: the hash has 32 bits.
- Randomness of job ids: fresh ids are assumed. Overflow of `Math.pow` for exponents near 1024.
- MemoryDriver.MemoryConnection.Pop: the aliasing of the returned object is in its contract; the protocol of N workers uses copies, which `WorkerTheorems.ExclusiveReservation` shows equal to what is stored.
- EventGrammar.EventsFollowTheGrammar: events carry the attempt being handled; the payload's job object, which later calls may still change, is not part of the log. Subscribers that throw are swallowed by the code and do not appear.
- IndexedDbModel.ExclusiveReservation: releases and fails by anyone but the holder are not among the modelled transactions.
- WorkerService.Worker.Tick: the class method is a tick in which nobody else but the clock moves; interleavings are in `WorkerProtocol`.
- IndexedDbDriver.IndexedDBConnection.Pop: the class method runs its three transactions undisturbed; interleavings are in `IndexedDbModel`.
