/**
 * One worker, no further dispatches: polling drains the tube. Whenever `pop` returns nothing while jobs wait, the clock
 * is moved to the next `availableAt`.
 */
module Drain {
  import opened JsStrings
  import opened Options
  import opened Jobs
  import opened WorkerPolicy
  import opened MemoryStore

  type Oracle = (JobId, int) -> Outcome

  /** How the processor run of a job at an attempt ends, and by how much the clock has moved when it is settled. */
  datatype Processor = Processor(outcome: Oracle, took: (JobId, int) -> int)

  /** The store once a popped job has been run and settled by the clock of that moment. */
  function Worked(popped: Store, job: Job, policy: Policy, p: Processor, now: int): Store {
    var (id, attempts) := (job.spec.id, job.attempts);
    SettleStore(popped, id, Decide(policy, job.spec, attempts, p.outcome(id, attempts)), now + p.took(id, attempts))
  }

  datatype Ticked = Ticked(store: Store, popped: Option<JobId>, now: int)

  /** One tick of the worker on an idle store: pop, run the processor, settle. */
  function Tick(s: Store, queue: JsString, policy: Policy, p: Processor, now: int): Ticked
    requires Valid(s)
  {
    var (popped, job) := Pop(s, queue, now);
    if job.None? then Ticked(s, None, now)
    else
      var (id, attempts) := (job.value.spec.id, job.value.attempts);
      Ticked(Worked(popped, job.value, policy, p, now), Some(id), now + p.took(id, attempts))
  }

  lemma TickSettles(s: Store, queue: JsString, policy: Policy, p: Processor, now: int)
    requires Valid(s) && Pop(s, queue, now).1.Some?
    ensures var (popped, job) := Pop(s, queue, now);
            var (id, attempts) := (job.value.spec.id, job.value.attempts);
            var (t, later) := (Tick(s, queue, policy, p, now), now + p.took(id, attempts));
            && t.store == SettleStore(popped, id, Decide(policy, job.value.spec, attempts, p.outcome(id, attempts)), later)
            && t.popped == Some(id) && t.now == later
  {
  }

  /** How many attempts a job still has. */
  function Share(job: Job, queue: JsString): (r: int) {
    if job.spec.queue == queue && Waiting(job.status) then Budget(job.spec) - job.attempts else 0
  }

  /** The attempts left on the tube. */
  function Remaining(order: seq<JobId>, jobs: map<JobId, Job>, queue: JsString): int
    requires Listed(order, jobs)
  {
    if order == [] then 0
    else
      var n := |order| - 1;
      Remaining(order[..n], jobs, queue) + Share(jobs[order[n]], queue)
  }

  /** What the disciplined runs guarantee of a tube whose jobs are all settled: nothing orphaned, attempts to spare. */
  predicate Ready(s: Store, queue: JsString) {
    && Valid(s) && queue !in s.paused
    && (forall id :: id in s.jobs && s.jobs[id].spec.queue == queue ==>
          match s.jobs[id].status
          case Pending | Delayed => 0 <= s.jobs[id].attempts < Budget(s.jobs[id].spec)
          case Failed => true
          case _ => false)
  }

  /** Everything outside the tube. */
  predicate SameElsewhere(s: Store, t: Store, queue: JsString) {
    && s.paused == t.paused
    && (forall id :: id in t.jobs ==> id in s.jobs && t.jobs[id].spec == s.jobs[id].spec)
    && (forall id :: id in s.jobs && s.jobs[id].spec.queue != queue ==> id in t.jobs && t.jobs[id] == s.jobs[id])
  }

  lemma {:induction false} RemainingIsNatural(order: seq<JobId>, jobs: map<JobId, Job>, queue: JsString)
    requires Listed(order, jobs) && forall id :: id in Ids(order) ==> Share(jobs[id], queue) >= 0
    ensures Remaining(order, jobs, queue) >= 0
    ensures forall id :: id in Ids(order) ==> Share(jobs[id], queue) <= Remaining(order, jobs, queue)
  {
    if order != [] {
      var last := order[|order| - 1];
      assert last in Ids(order);
      RemainingIsNatural(order[..|order| - 1], jobs, queue);
    }
  }

  lemma {:induction false} RemainingIgnoresOthers(order: seq<JobId>, jobs: map<JobId, Job>, more: map<JobId, Job>, queue: JsString)
    requires Listed(order, jobs) && Listed(order, more) && forall id :: id in Ids(order) ==> jobs[id] == more[id]
    ensures Remaining(order, jobs, queue) == Remaining(order, more, queue)
  {
    if order != [] {
      var last := order[|order| - 1];
      assert last in Ids(order);
      RemainingIgnoresOthers(order[..|order| - 1], jobs, more, queue);
    }
  }

  lemma {:induction false} RemainingAfterUpdate(order: seq<JobId>, jobs: map<JobId, Job>, queue: JsString, id: JobId, job: Job)
    requires Distinct(order) && Listed(order, jobs) && id in Ids(order)
    ensures Remaining(order, jobs[id := job], queue)
            == Remaining(order, jobs, queue) - Share(jobs[id], queue) + Share(job, queue)
  {
    var (front, last) := (order[..|order| - 1], order[|order| - 1]);
    assert last in Ids(order);
    if last == id {
      RemainingIgnoresOthers(front, jobs, jobs[id := job], queue);
    } else {
      RemainingAfterUpdate(front, jobs, queue, id, job);
    }
  }

  lemma {:induction false} RemainingAfterRemoval(order: seq<JobId>, jobs: map<JobId, Job>, queue: JsString, id: JobId)
    requires Distinct(order) && Listed(order, jobs) && id in Ids(order)
    ensures Listed(Drop(order, {id}), jobs - {id})
    ensures Remaining(Drop(order, {id}), jobs - {id}, queue) == Remaining(order, jobs, queue) - Share(jobs[id], queue)
  {
    var (front, last) := (order[..|order| - 1], order[|order| - 1]);
    assert last in Ids(order);
    DropKeepsTheRest(order, {id});
    if last == id {
      DropOfAbsent(front, id);
      RemainingIgnoresOthers(front, jobs, jobs - {id}, queue);
    } else {
      RemainingAfterRemoval(front, jobs, queue, id);
      assert Drop(order, {id})[..|Drop(order, {id})| - 1] == Drop(front, {id});
    }
  }

  /** A tick that pops spends an attempt: the tube stays ready, has fewer attempts left, and nothing else moves. */
  lemma TickSpendsAnAttempt(s: Store, queue: JsString, policy: Policy, p: Processor, now: int)
    requires Ready(s, queue) && Tick(s, queue, policy, p, now).popped.Some?
    ensures var t := Tick(s, queue, policy, p, now).store;
            && Ready(t, queue) && SameElsewhere(s, t, queue)
            && Remaining(t.order, t.jobs, queue) < Remaining(s.order, s.jobs, queue)
  {
    var (popped, job) := Pop(s, queue, now);
    PopTakesOne(s, queue, now);
    PopKeepsValid(s, queue, now);
    var (id, reserved) := (job.value.spec.id, job.value);
    var later := now + p.took(id, reserved.attempts);
    var v := Decide(policy, reserved.spec, reserved.attempts, p.outcome(id, reserved.attempts));
    assert Tick(s, queue, policy, p, now).store == SettleStore(popped, id, v, later);
    SettlingSpendsAnAttempt(s, popped, queue, id, v, later);
  }

  /** A verdict in keeping with the budget. */
  predicate WithinBudget(job: Job, v: Verdict) {
    v.Retry? ==> job.attempts < Budget(job.spec)
  }

  lemma SettlingSpendsAnAttempt(s: Store, popped: Store, queue: JsString, id: JobId, v: Verdict, now: int)
    requires Ready(s, queue) && id in s.jobs && s.jobs[id].spec.queue == queue && Waiting(s.jobs[id].status)
    requires Valid(popped) && id in popped.jobs && popped == s.(jobs := s.jobs[id := popped.jobs[id]])
    requires popped.jobs[id].spec == s.jobs[id].spec && popped.jobs[id].attempts == s.jobs[id].attempts + 1
    requires WithinBudget(popped.jobs[id], v)
    ensures var t := SettleStore(popped, id, v, now);
            && Ready(t, queue) && SameElsewhere(s, t, queue)
            && Remaining(t.order, t.jobs, queue) < Remaining(s.order, s.jobs, queue)
  {
    var reserved := popped.jobs[id];
    match v {
      case Done =>
        RemoveKeepsValid(popped, id);
        assert popped.jobs - {id} == s.jobs - {id};
        RemainingAfterRemoval(s.order, s.jobs, queue, id);
      case GiveUp(reason) =>
        FailKeepsValid(popped, id, reason, now);
        RewriteSpendsAnAttempt(s, Fail(popped, id, reason, now), queue, id, FailedAt(reserved, reason, now));
      case Retry(delayMs) =>
        ReleaseKeepsValid(popped, id, delayMs, now);
        RewriteSpendsAnAttempt(s, Release(popped, id, delayMs, now), queue, id, ReleasedAt(reserved, delayMs, now));
    }
  }

  lemma RewriteSpendsAnAttempt(s: Store, t: Store, queue: JsString, id: JobId, job: Job)
    requires Ready(s, queue) && Valid(t) && id in s.jobs && s.jobs[id].spec.queue == queue && Waiting(s.jobs[id].status)
    requires t == s.(jobs := s.jobs[id := job]) && job.spec == s.jobs[id].spec && job.attempts == s.jobs[id].attempts + 1
    requires job.status == Failed || (Waiting(job.status) && job.attempts < Budget(job.spec))
    ensures Ready(t, queue) && SameElsewhere(s, t, queue)
    ensures Remaining(t.order, t.jobs, queue) < Remaining(s.order, s.jobs, queue)
  {
    RemainingAfterUpdate(s.order, s.jobs, queue, id, job);
  }

  // ---- the next due time ----

  /** The earliest `availableAt` among the jobs waiting on the tube. */
  function NextDue(order: seq<JobId>, jobs: map<JobId, Job>, queue: JsString): Option<int>
    requires Listed(order, jobs)
  {
    if order == [] then None
    else
      var n := |order| - 1;
      var job := jobs[order[n]];
      var due := NextDue(order[..n], jobs, queue);
      if job.spec.queue != queue || !Waiting(job.status) then due
      else if due.None? || job.availableAt < due.value then Some(job.availableAt)
      else due
  }

  /** Nothing due means nothing waits; otherwise some job waits until exactly then, and none for less. */
  lemma {:induction false} NextDueIsEarliest(order: seq<JobId>, jobs: map<JobId, Job>, queue: JsString) returns (id: JobId)
    requires Listed(order, jobs)
    ensures NextDue(order, jobs, queue).None? ==>
              forall x :: x in Ids(order) && jobs[x].spec.queue == queue ==> !Waiting(jobs[x].status)
    ensures NextDue(order, jobs, queue).Some? ==>
              && id in Ids(order) && jobs[id].spec.queue == queue && Waiting(jobs[id].status)
              && jobs[id].availableAt == NextDue(order, jobs, queue).value
              && forall x :: x in Ids(order) && jobs[x].spec.queue == queue && Waiting(jobs[x].status) ==>
                   jobs[id].availableAt <= jobs[x].availableAt
  {
    id := 0;
    if order != [] {
      var (front, last) := (order[..|order| - 1], order[|order| - 1]);
      assert last in Ids(order);
      id := NextDueIsEarliest(front, jobs, queue);
      if NextDue(order, jobs, queue) != NextDue(front, jobs, queue) {
        id := last;
      }
    }
  }

  lemma {:induction false} EligibleIsFound(order: seq<JobId>, jobs: map<JobId, Job>, queue: JsString, now: int, id: JobId)
    requires Listed(order, jobs) && id in Ids(order) && Eligible(jobs[id], queue, now)
    ensures Oldest(order, jobs, queue, now).Some?
  {
    var last := order[|order| - 1];
    if id != last {
      EligibleIsFound(order[..|order| - 1], jobs, queue, now, id);
    }
  }

  // ---- draining ----

  datatype Drained = Drained(store: Store, now: int, pops: seq<JobId>)

  /** Ticks until nothing waits on the tube, moving the clock on when nothing is due. */
  function DrainTube(s: Store, queue: JsString, policy: Policy, p: Processor, now: int): Drained
    requires Ready(s, queue)
    decreases Remaining(s.order, s.jobs, queue), if Tick(s, queue, policy, p, now).popped.Some? then 0 else 1
  {
    ReadyHasNaturalShares(s, queue);
    var t := Tick(s, queue, policy, p, now);
    if t.popped.Some? then
      TickSpendsAnAttempt(s, queue, policy, p, now);
      var rest := DrainTube(t.store, queue, policy, p, t.now);
      rest.(pops := [t.popped.value] + rest.pops)
    else
      var due := NextDue(s.order, s.jobs, queue);
      if due.None? then Drained(s, now, [])
      else
        DueJobIsPopped(s, queue, policy, p, now);
        DrainTube(s, queue, policy, p, due.value)
  }

  lemma ReadyHasNaturalShares(s: Store, queue: JsString)
    requires Ready(s, queue)
    ensures Remaining(s.order, s.jobs, queue) >= 0
  {
    RemainingIsNatural(s.order, s.jobs, queue);
  }

  lemma DueJobIsPopped(s: Store, queue: JsString, policy: Policy, p: Processor, now: int)
    requires Ready(s, queue) && NextDue(s.order, s.jobs, queue).Some?
    ensures var due := NextDue(s.order, s.jobs, queue).value;
            && Tick(s, queue, policy, p, due).popped.Some?
            && (Tick(s, queue, policy, p, now).popped.None? ==> due > now)
  {
    var id := NextDueIsEarliest(s.order, s.jobs, queue);
    EligibleIsFound(s.order, s.jobs, queue, s.jobs[id].availableAt, id);
    if s.jobs[id].availableAt <= now {
      EligibleIsFound(s.order, s.jobs, queue, now, id);
    }
  }

  /**
   * Draining stops with no job in flight on the tube, after at most as many pops as there were attempts left, however long
   * the processor takes and whichever way the clock moves meanwhile; every other tube is as it was.
   */
  lemma {:induction false} DrainingTerminates(s: Store, queue: JsString, policy: Policy, p: Processor, now: int)
    requires Ready(s, queue)
    ensures var r := DrainTube(s, queue, policy, p, now);
            && Valid(r.store) && Size(r.store, queue) == 0
            && |r.pops| <= Remaining(s.order, s.jobs, queue)
            && SameElsewhere(s, r.store, queue)
            && ((forall id, k :: p.took(id, k) >= 0) ==> now <= r.now)
    decreases Remaining(s.order, s.jobs, queue), if Tick(s, queue, policy, p, now).popped.Some? then 0 else 1
  {
    ReadyHasNaturalShares(s, queue);
    var t := Tick(s, queue, policy, p, now);
    if t.popped.Some? {
      TickSpendsAnAttempt(s, queue, policy, p, now);
      DrainingTerminates(t.store, queue, policy, p, t.now);
    } else if NextDue(s.order, s.jobs, queue).None? {
      var _ := NextDueIsEarliest(s.order, s.jobs, queue);
      NothingInFlight(s.order, s.jobs, queue);
    } else {
      DueJobIsPopped(s, queue, policy, p, now);
      DrainingTerminates(s, queue, policy, p, NextDue(s.order, s.jobs, queue).value);
    }
  }

  lemma {:induction false} NothingInFlight(order: seq<JobId>, jobs: map<JobId, Job>, queue: JsString)
    requires Listed(order, jobs)
    requires forall id :: id in Ids(order) && jobs[id].spec.queue == queue ==> jobs[id].status == Failed
    ensures Count(order, jobs, queue, IN_FLIGHT) == 0
  {
    if order != [] {
      var last := order[|order| - 1];
      assert last in Ids(order);
      NothingInFlight(order[..|order| - 1], jobs, queue);
    }
  }
}
