/** What a worker decides once a processor run is over (src/services/worker.service.ts:143-230). */
module WorkerPolicy {
  import opened Jobs
  import opened Backoff
  import MS = MemoryStore

  /** How the race between `host.process(job)` and the timeout timer settles. */
  datatype Outcome = Ok | Throw | Timeout

  datatype Policy = Policy(failOnTimeout: bool, maxBackoffMs: int)

  datatype Verdict = Done | GiveUp(reason: Reason) | Retry(delayMs: int)

  function Decide(policy: Policy, spec: JobSpec, attempts: int, outcome: Outcome): Verdict {
    if outcome.Ok? then Done
    else if outcome.Timeout? && policy.failOnTimeout then GiveUp(TimeoutReason)
    else if spec.maxAttempts - attempts <= 0 then GiveUp(AttemptsReason(attempts))
    else Retry(ComputeBackoff(attempts + 1, spec.backoffMs, policy.maxBackoffMs))
  }

  /** The store call that settles a job: `remove`, `fail` or `release`. */
  function SettleStore(store: MS.Store, id: JobId, v: Verdict, now: int): MS.Store {
    match v
    case Done => MS.Remove(store, id)
    case GiveUp(reason) => MS.Fail(store, id, reason, now)
    case Retry(delayMs) => MS.Release(store, id, delayMs, now)
  }

  datatype EventKind = JobProcessing | JobProcessed | JobTimedOut | JobFailed | JobReleased(delayMs: int) | JobAttempted

  datatype Event =
    | WorkerStarting
    | WorkerStopping
    | JobEvent(kind: EventKind, id: JobId, attempt: int)

  /** The event that reports a verdict. */
  function Report(v: Verdict): EventKind {
    match v
    case Done => JobProcessed
    case GiveUp(_) => JobFailed
    case Retry(delayMs) => JobReleased(delayMs)
  }

  // What becomes of a job, read off the outcomes of its attempts alone.

  /** Where a job ends, and after how many attempts. */
  datatype Fate = Fate(removed: bool, attempts: int)

  /** The fate of a job whose attempt `k` has outcome `oracle(k)`, from attempt `k` on. */
  function FateFrom(policy: Policy, spec: JobSpec, oracle: int -> Outcome, k: int): Fate
    decreases spec.maxAttempts - k
  {
    match Decide(policy, spec, k, oracle(k))
    case Done => Fate(true, k)
    case GiveUp(_) => Fate(false, k)
    case Retry(_) => FateFrom(policy, spec, oracle, k + 1)
  }

  function Budget(spec: JobSpec): int {
    if spec.maxAttempts < 1 then 1 else spec.maxAttempts
  }

  /**
   * The fate in the terms of the retry policy: the first attempt that succeeds, times out under
   * `failOnTimeout`, or uses up the budget is the last one; it removes the job only if it succeeds.
   */
  lemma {:induction false} FateIsFirstFinalAttempt(policy: Policy, spec: JobSpec, oracle: int -> Outcome, k: int)
    requires 1 <= k <= Budget(spec)
    ensures var f := FateFrom(policy, spec, oracle, k);
            && k <= f.attempts <= Budget(spec)
            && (f.removed <==> oracle(f.attempts) == Ok)
            && (oracle(f.attempts) == Ok || (oracle(f.attempts) == Timeout && policy.failOnTimeout)
                || f.attempts == Budget(spec))
            && forall i :: k <= i < f.attempts ==>
                 oracle(i) != Ok && !(oracle(i) == Timeout && policy.failOnTimeout) && i < Budget(spec)
    decreases spec.maxAttempts - k
  {
    if Decide(policy, spec, k, oracle(k)).Retry? {
      FateIsFirstFinalAttempt(policy, spec, oracle, k + 1);
    }
  }
}
