/**
 * What a job looks like, told from its history alone: the dispatch it was accepted from, when it was reserved, and how
 * and when its attempts were settled. The rules are those that src/services/worker.service.ts:143-230 promises, in
 * terms of outcomes, attempt numbers and times, and without the operations that bring them about.
 */
module JobHistory {
  import opened JsStrings
  import opened Options
  import opened UniqueIds
  import opened Backoff
  import opened Jobs
  import opened WorkerPolicy

  /** `pops` are the times of the reservations, `settled` those at which the attempts with these outcomes were settled. */
  datatype History = History(given: Dispatch, pops: seq<int>, outcomes: seq<Outcome>, settled: seq<int>)

  /** What callers other than the holder did: release it, fail it while it waited, and the last reason they gave for failing it. */
  datatype Meddling = Meddling(released: bool, failed: bool, reason: Option<Reason>)

  const UNTOUCHED := Meddling(false, false, None)

  function MaxAttempts(d: Dispatch): int {
    FirstGiven([d.options.tries], 1)
  }

  /** The fields that a job keeps for life are those of its dispatch. */
  predicate AsDispatched(d: Dispatch, spec: JobSpec) {
    && spec.id == d.id && spec.name == d.name && spec.data == d.data && spec.createdAt == d.now
    && spec.queue == (if d.options.queue.Some? then d.options.queue.value else DEFAULT_QUEUE)
    && spec.maxAttempts == MaxAttempts(d)
    && spec.backoffMs == FirstGiven([d.options.backoffMs], 1000)
    && spec.timeoutMs == FirstGiven([d.options.timeoutMs], 30000)
    && spec.uniqueId == if d.options.uniqueFor.None? then None
                        else if d.options.uniqueId.Some? then d.options.uniqueId
                        else Some(ComputeUniqueId(d.name, d.data))
  }

  /** Attempt `k` failed and leaves the job another one. */
  predicate TriesAgain(policy: Policy, d: Dispatch, k: int, outcome: Outcome) {
    outcome != Ok && !(outcome == Timeout && policy.failOnTimeout) && k < MaxAttempts(d)
  }

  /** The first `n` attempts were all retried. */
  predicate AllRetried(policy: Policy, h: History, n: nat)
    requires n <= |h.outcomes|
  {
    forall k :: 0 <= k < n ==> TriesAgain(policy, h.given, k + 1, h.outcomes[k])
  }

  /** How long the job waits for its reservation after `n` retries. */
  function Wait(policy: Policy, d: Dispatch, n: nat): int {
    if n == 0 then FirstGiven([d.options.delayMs], 0)
    else Min(FirstGiven([d.options.backoffMs], 1000) * Pow2(n), policy.maxBackoffMs)
  }

  /** When it is due after `n` retries: a full wait from the dispatch, or from the settling of the `n`-th attempt. */
  function DueAt(policy: Policy, h: History, n: nat): int
    requires n <= |h.settled|
  {
    (if n == 0 then h.given.now else h.settled[n - 1]) + Wait(policy, h.given, n)
  }

  /** Why a job is given up after attempt `k`. */
  function GivenUpFor(policy: Policy, k: int, outcome: Outcome): Reason {
    if outcome == Timeout && policy.failOnTimeout then TimeoutReason else AttemptsReason(k)
  }

  predicate WaitsSince(policy: Policy, h: History, job: Job, n: nat)
    requires n <= |h.settled|
  {
    && job.availableAt == DueAt(policy, h, n)
    && (Waiting(job.status) ==> (job.status == Delayed <==> Wait(policy, h.given, n) > 0))
  }

  /** A stored job is, field by field, what its history says. */
  predicate Told(policy: Policy, h: History, m: Meddling, job: Job) {
    var n := |h.outcomes|;
    && AsDispatched(h.given, job.spec) && job.attempts == |h.pops| && |h.settled| == n
    && match job.status
       case Pending | Delayed =>
         && |h.pops| == n && AllRetried(policy, h, n) && !m.failed && m.reason.None? && job.lastError.None?
         && (!m.released ==>
               && WaitsSince(policy, h, job, n)
               && job.updatedAt == if n == 0 then h.given.now else h.settled[n - 1])
       case Reserved =>
         && |h.pops| == n + 1 && AllRetried(policy, h, n) && !m.failed && m.reason.None? && job.lastError.None?
         && job.updatedAt == h.pops[n] && (!m.released ==> WaitsSince(policy, h, job, n))
       case Failed =>
         && |h.pops| == n
         && (if m.failed then AllRetried(policy, h, n) && m.reason.Some?
             else
               && n > 0 && AllRetried(policy, h, n - 1)
               && h.outcomes[n - 1] != Ok && !TriesAgain(policy, h.given, n, h.outcomes[n - 1]))
         && (!m.released ==> WaitsSince(policy, h, job, if m.failed then n else n - 1))
         && (if m.reason.Some? then job.lastError == m.reason
             else job.lastError == Some(GivenUpFor(policy, n, h.outcomes[n - 1])) && job.updatedAt == h.settled[n - 1])
       case _ => false
  }

  // ---- each operation on a job, in the terms of its history ----

  lemma AcceptedIsTold(policy: Policy, d: Dispatch)
    ensures Told(policy, History(d, [], [], []), UNTOUCHED, NewJob(d))
  {
    var o := d.options;
    OneGiven(o.delayMs, 0);
    OneGiven(o.tries, 1);
    OneGiven(o.backoffMs, 1000);
    OneGiven(o.timeoutMs, 30000);
  }

  lemma OneGiven(value: Option<int>, fallback: int)
    ensures FirstGiven([value], fallback) == value.GetOr(fallback)
  {
    assert [value][1..] == [];
  }

  lemma ReservedIsTold(policy: Policy, h: History, m: Meddling, job: Job, now: int)
    requires Told(policy, h, m, job) && Waiting(job.status)
    ensures Told(policy, h.(pops := h.pops + [now]), m, ReservedAt(job, now))
  {
  }

  function Settled(h: History, outcome: Outcome, now: int): History {
    h.(outcomes := h.outcomes + [outcome], settled := h.settled + [now])
  }

  lemma DecidedByRules(policy: Policy, h: History, m: Meddling, job: Job, outcome: Outcome)
    requires Told(policy, h, m, job) && job.status == Reserved
    ensures var (k, v) := (|h.pops|, Decide(policy, job.spec, job.attempts, outcome));
            && (v.Done? <==> outcome == Ok)
            && (v.Retry? <==> TriesAgain(policy, h.given, k, outcome))
            && (v.Retry? ==> v.delayMs == Wait(policy, h.given, k))
            && (v.GiveUp? ==> v.reason == GivenUpFor(policy, k, outcome))
  {
  }

  lemma RetriedIsTold(policy: Policy, h: History, m: Meddling, job: Job, outcome: Outcome, now: int)
    requires Told(policy, h, m, job) && job.status == Reserved
    requires TriesAgain(policy, h.given, |h.pops|, outcome)
    ensures Told(policy, Settled(h, outcome, now), m, ReleasedAt(job, Wait(policy, h.given, |h.pops|), now))
  {
  }

  lemma GivenUpIsTold(policy: Policy, h: History, m: Meddling, job: Job, outcome: Outcome, now: int)
    requires Told(policy, h, m, job) && job.status == Reserved
    requires outcome != Ok && !TriesAgain(policy, h.given, |h.pops|, outcome)
    ensures Told(policy, Settled(h, outcome, now), m, FailedAt(job, GivenUpFor(policy, |h.pops|, outcome), now))
  {
  }

  lemma ReleasedOutsideIsTold(policy: Policy, h: History, m: Meddling, job: Job, delayMs: int, now: int)
    requires Told(policy, h, m, job) && Waiting(job.status)
    ensures Told(policy, h, m.(released := true), ReleasedAt(job, delayMs, now))
  {
  }

  lemma FailedOutsideIsTold(policy: Policy, h: History, m: Meddling, job: Job, reason: Reason, now: int)
    requires Told(policy, h, m, job) && job.status != Reserved
    ensures Told(policy, h, m.(failed := m.failed || Waiting(job.status), reason := Some(reason)), FailedAt(job, reason, now))
  {
  }

  /** After its last settlement the job is put off by nothing at least, and by the cap at most. */
  predicate WaitsWithinCap(policy: Policy, h: History, job: Job) {
    var k := |h.settled|;
    k == job.attempts && (k > 0 ==> h.settled[k - 1] <= job.availableAt <= h.settled[k - 1] + policy.maxBackoffMs)
  }

  /** With no negative option a retry waits at most the cap. */
  lemma WaitIsCapped(policy: Policy, h: History, m: Meddling, job: Job)
    requires Told(policy, h, m, job) && !m.released && Waiting(job.status) && job.attempts > 0
    requires job.spec.backoffMs >= 0 && policy.maxBackoffMs >= 0
    ensures WaitsWithinCap(policy, h, job)
  {
    Doubling(job.spec.backoffMs, job.attempts);
  }

  lemma RetryIsDue(policy: Policy, h: History, m: Meddling, job: Job)
    requires Told(policy, h, m, job) && Waiting(job.status)
    ensures var k := |h.outcomes|;
            && |h.settled| == k == job.attempts
            && (!m.released ==>
                  if k == 0 then job.availableAt == h.given.now + FirstGiven([h.given.options.delayMs], 0)
                  else job.availableAt == h.settled[k - 1] + Min(job.spec.backoffMs * Pow2(k), policy.maxBackoffMs))
  {
  }
}
