/** The job record and its construction (src/utils/create-queued-job.util.ts). */
module Jobs {
  import opened JsStrings
  import opened Options
  import opened CanonicalKey
  import opened UniqueIds

  /** Ids come from a generator assumed fresh; only equality and, in IndexedDB, a fixed total order on them matter. */
  type JobId = int

  datatype Status = Pending | Delayed | Reserved | Processing | Completed | Failed

  /** What `fail` stores: the message of a timeout, of exhausted attempts, or any text. */
  datatype Reason = TimeoutReason | AttemptsReason(attempts: int) | TextReason(text: JsString)

  /** The fields that are written once, at dispatch. */
  datatype JobSpec = JobSpec(
    id: JobId,
    name: JsString,
    data: Json,
    queue: JsString,
    maxAttempts: int,
    backoffMs: int,
    timeoutMs: int,
    createdAt: int,
    uniqueId: Option<JsString>)

  datatype Job = Job(
    spec: JobSpec,
    status: Status,
    attempts: int,
    availableAt: int,
    updatedAt: int,
    lastError: Option<Reason>)

  datatype JobOptions = JobOptions(
    queue: Option<JsString>,
    delayMs: Option<int>,
    tries: Option<int>,
    backoffMs: Option<int>,
    timeoutMs: Option<int>,
    uniqueFor: Option<int>,
    uniqueId: Option<JsString>)

  const NO_OPTIONS := JobOptions(None, None, None, None, None, None, None)

  datatype WorkerDefaults = WorkerDefaults(tries: Option<int>, backoffMs: Option<int>, timeoutMs: Option<int>)

  const NO_DEFAULTS := WorkerDefaults(None, None, None)

  const DEFAULT_QUEUE: JsString := Js("default")

  /** The tube of dispatches that name none. */
  lemma DefaultTubeIsSpelledOut()
    ensures DEFAULT_QUEUE == [100, 101, 102, 97, 117, 108, 116]
  {
    var word := "default";
    assert word[0] == 'd' && word[1] == 'e' && word[2] == 'f' && word[3] == 'a' && word[4] == 'u' && word[5] == 'l' && word[6] == 't';
  }

  function CreateQueuedJob(id: JobId, name: JsString, data: Json, options: JobOptions,
                           defaults: WorkerDefaults, now: int): (job: Job)
  {
    var delayMs := options.delayMs.GetOr(0);
    var uniqueId :=
      if options.uniqueFor.None? then None
      else Some(options.uniqueId.GetOr(ComputeUniqueId(name, data)));
    var spec := JobSpec(
      id, name, data,
      options.queue.GetOr(DEFAULT_QUEUE),
      options.tries.GetOr(defaults.tries.GetOr(1)),
      options.backoffMs.GetOr(defaults.backoffMs.GetOr(1000)),
      options.timeoutMs.GetOr(defaults.timeoutMs.GetOr(30000)),
      now,
      uniqueId);
    Job(spec, if delayMs > 0 then Delayed else Pending, 0, now + delayMs, now, None)
  }

  /** One `push` call, with the fresh id and the clock reading that `createQueuedJob` obtains. */
  datatype Dispatch = Dispatch(name: JsString, data: Json, options: JobOptions, id: JobId, now: int)

  function NewJob(d: Dispatch): Job {
    CreateQueuedJob(d.id, d.name, d.data, d.options, NO_DEFAULTS, d.now)
  }

  /** Delayed dispatch: the options with the delay overridden. */
  function WithDelay(d: Dispatch, delayMs: int): Dispatch {
    d.(options := d.options.(delayMs := Some(delayMs)))
  }

  /** A delayed dispatch makes the job of the plain one, but for its delay, whatever delay the options gave. */
  lemma DelayIsOverridden(d: Dispatch, delayMs: int)
    ensures var (job, plain) := (NewJob(WithDelay(d, delayMs)), NewJob(d));
            && job.spec == plain.spec && job.availableAt == d.now + delayMs
            && job == plain.(status := if delayMs > 0 then Delayed else Pending, availableAt := d.now + delayMs)
  {
  }

  /** A dispatch to the tube, due at once, with the given unique id. */
  function DueDispatch(id: JobId, now: int, queue: JsString, key: Option<JsString>): Dispatch {
    var window := if key.Some? then Some(1) else None;
    Dispatch([], Null, NO_OPTIONS.(queue := Some(queue), uniqueFor := window, uniqueId := key), id, now)
  }

  /** A status that neither completes nor fails a job still blocks duplicates and still counts. */
  predicate InFlight(s: Status) {
    s != Completed && s != Failed
  }

  /** Status Pending or Delayed: the job waits in its tube. */
  predicate Waiting(s: Status) {
    s == Pending || s == Delayed
  }

  predicate Eligible(job: Job, queue: JsString, now: int) {
    job.spec.queue == queue && Waiting(job.status) && job.availableAt <= now
  }

  /** `if (job.uniqueId)`: an empty unique id is falsy and never deduplicates. */
  predicate Deduplicated(job: Job) {
    job.spec.uniqueId.Some? && Truthy(job.spec.uniqueId.value)
  }

  predicate Blocks(existing: Job, uid: Option<JsString>) {
    existing.spec.uniqueId == uid && InFlight(existing.status)
  }

  /** Two jobs that share a non-empty unique id, both in flight. */
  predicate SameKeyInFlight(a: Job, b: Job) {
    Deduplicated(a) && a.spec.uniqueId == b.spec.uniqueId && InFlight(a.status) && InFlight(b.status)
  }

  /** At most one job per non-empty unique id is in flight. */
  predicate Unique(jobs: map<JobId, Job>) {
    forall a, b :: a in jobs && b in jobs && a != b ==> !SameKeyInFlight(jobs[a], jobs[b])
  }

  /** Jobs that come from others with the same specs, none newly in flight, stay free of duplicates. */
  lemma FewerInFlightKeepsUnique(jobs: map<JobId, Job>, after: map<JobId, Job>)
    requires Unique(jobs)
    requires forall id :: id in after ==>
               id in jobs && after[id].spec == jobs[id].spec && (InFlight(after[id].status) ==> InFlight(jobs[id].status))
    ensures Unique(after)
  {
  }

  function ReservedAt(job: Job, now: int): Job {
    job.(status := Reserved, attempts := job.attempts + 1, updatedAt := now)
  }

  function ReleasedAt(job: Job, delayMs: int, now: int): Job {
    job.(status := if delayMs > 0 then Delayed else Pending, availableAt := now + delayMs, updatedAt := now)
  }

  function FailedAt(job: Job, reason: Reason, now: int): Job {
    job.(status := Failed, lastError := Some(reason), updatedAt := now)
  }

  /** The first of the values that is given, or the fallback. */
  function FirstGiven(values: seq<Option<int>>, fallback: int): int {
    if values == [] then fallback
    else if values[0].Some? then values[0].value
    else FirstGiven(values[1..], fallback)
  }

  /**
   * A new job carries the id, name and payload it was made from. It waits unattempted on its tube and becomes eligible there
   * exactly when its delay has passed. Each tunable is the dispatch's, else the worker's, else the built-in one. A key is set
   * exactly when `uniqueFor` is: the dispatch's own, else the hash of name and payload, which always deduplicates.
   */
  lemma NewJobFollowsItsDispatch(id: JobId, name: JsString, data: Json, options: JobOptions, defaults: WorkerDefaults,
                                 now: int, queue: JsString, time: int)
    ensures var job := CreateQueuedJob(id, name, data, options, defaults, now);
            && job.spec.id == id && job.spec.name == name && job.spec.data == data
            && job.attempts == 0 && job.lastError.None? && job.spec.createdAt == job.updatedAt == now
            && (job.status == Delayed <==> FirstGiven([options.delayMs], 0) > 0)
            && (Eligible(job, queue, time)
                <==> queue == options.queue.GetOr(DEFAULT_QUEUE) && now + FirstGiven([options.delayMs], 0) <= time)
            && job.spec.maxAttempts == FirstGiven([options.tries, defaults.tries], 1)
            && job.spec.backoffMs == FirstGiven([options.backoffMs, defaults.backoffMs], 1000)
            && job.spec.timeoutMs == FirstGiven([options.timeoutMs, defaults.timeoutMs], 30000)
            && (job.spec.uniqueId.Some? <==> options.uniqueFor.Some?)
            && (job.spec.uniqueId.Some? ==>
                  match options.uniqueId
                  case Some(key) => job.spec.uniqueId == Some(key)
                  case None => job.spec.uniqueId == Some(ComputeUniqueId(name, data)) && Deduplicated(job))
  {
    GivenInOrder(options.tries, defaults.tries, 1);
    GivenInOrder(options.backoffMs, defaults.backoffMs, 1000);
    GivenInOrder(options.timeoutMs, defaults.timeoutMs, 30000);
    GivenInOrder(options.delayMs, None, 0);
    assert [options.delayMs][1..] == [];
  }

  lemma GivenInOrder(a: Option<int>, b: Option<int>, fallback: int)
    ensures FirstGiven([a, b], fallback) == a.GetOr(b.GetOr(fallback))
  {
    var values := [a, b];
    assert values[1..] == [b] && [b][1..] == [];
    assert FirstGiven([b], fallback) == b.GetOr(fallback);
  }
}
