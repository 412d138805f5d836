/** Under a clock that never goes back, undelayed jobs that all succeed are processed exactly in push order, ties included. */
module PushOrder {
  import opened JsStrings
  import opened Options
  import opened Jobs
  import opened WorkerPolicy
  import opened MemoryStore
  import opened Drain

  /** The jobs waiting on the tube, in insertion order. */
  function WaitingOn(order: seq<JobId>, jobs: map<JobId, Job>, queue: JsString): seq<JobId>
    requires Listed(order, jobs)
  {
    if order == [] then []
    else
      var (front, last) := (order[..|order| - 1], order[|order| - 1]);
      if jobs[last].spec.queue == queue && Waiting(jobs[last].status) then WaitingOn(front, jobs, queue) + [last]
      else WaitingOn(front, jobs, queue)
  }

  /** Insertion order is creation order. */
  predicate CreatedInOrder(order: seq<JobId>, jobs: map<JobId, Job>)
    requires Listed(order, jobs)
  {
    order != [] ==>
      var (front, last) := (order[..|order| - 1], order[|order| - 1]);
      CreatedInOrder(front, jobs)
      && forall id :: id in Ids(front) ==> jobs[id].spec.createdAt <= jobs[last].spec.createdAt
  }

  predicate AllDue(ids: set<JobId>, jobs: map<JobId, Job>, queue: JsString, now: int)
    requires ids <= jobs.Keys
  {
    forall id :: id in ids && jobs[id].spec.queue == queue && Waiting(jobs[id].status) ==> jobs[id].availableAt <= now
  }

  /** When all waiting jobs are due, the scan picks the first in insertion order. */
  lemma {:induction false} OldestIsFirst(order: seq<JobId>, jobs: map<JobId, Job>, queue: JsString, now: int)
    requires Listed(order, jobs) && CreatedInOrder(order, jobs) && AllDue(Ids(order), jobs, queue, now)
    ensures var waiting := WaitingOn(order, jobs, queue);
            Oldest(order, jobs, queue, now) == if waiting == [] then None else Some(waiting[0])
  {
    if order != [] {
      var (front, last) := (order[..|order| - 1], order[|order| - 1]);
      assert last in Ids(order);
      OldestIsFirst(front, jobs, queue, now);
      var best := Oldest(front, jobs, queue, now);
      if best.Some? {
        var id := best.value;
        assert id in Ids(front);
        assert jobs[id].spec.createdAt <= jobs[last].spec.createdAt;
      }
    }
  }

  lemma {:induction false} RemovalKeepsCreationOrder(order: seq<JobId>, jobs: map<JobId, Job>, gone: set<JobId>)
    requires Listed(order, jobs) && Distinct(order) && CreatedInOrder(order, jobs)
    ensures Listed(Drop(order, gone), jobs - gone) && CreatedInOrder(Drop(order, gone), jobs - gone)
  {
    DropKeepsTheRest(order, gone);
    if order != [] {
      var (front, last) := (order[..|order| - 1], order[|order| - 1]);
      assert last in Ids(order);
      RemovalKeepsCreationOrder(front, jobs, gone);
      DropKeepsTheRest(front, gone);
      if last !in gone {
        assert Drop(order, gone)[..|Drop(order, gone)| - 1] == Drop(front, gone);
      }
    }
  }

  /** Removing the first waiting job leaves the others, in order. */
  lemma {:induction false} WaitingAfterRemoval(order: seq<JobId>, jobs: map<JobId, Job>, queue: JsString, id: JobId)
    requires Listed(order, jobs) && Distinct(order)
    requires WaitingOn(order, jobs, queue) != [] && WaitingOn(order, jobs, queue)[0] == id
    ensures Listed(Drop(order, {id}), jobs - {id})
    ensures WaitingOn(Drop(order, {id}), jobs - {id}, queue) == WaitingOn(order, jobs, queue)[1..]
  {
    var (front, last) := (order[..|order| - 1], order[|order| - 1]);
    assert last in Ids(order);
    var kept := jobs - {id};
    DropKeepsTheRest(order, {id});
    if WaitingOn(front, jobs, queue) == [] {
      assert last == id;
      DropOfAbsent(front, id);
      WaitingIgnoresOthers(front, jobs, kept, queue);
    } else {
      FirstWaitingIsListed(front, jobs, queue);
      assert last != id;
      WaitingAfterRemoval(front, jobs, queue, id);
      assert Drop(order, {id}) == Drop(front, {id}) + [last] && kept[last] == jobs[last];
      WaitingOfOneMore(Drop(front, {id}), last, kept, queue);
    }
  }

  lemma WaitingOfOneMore(front: seq<JobId>, last: JobId, jobs: map<JobId, Job>, queue: JsString)
    requires Listed(front, jobs) && last in jobs
    ensures Listed(front + [last], jobs)
    ensures WaitingOn(front + [last], jobs, queue)
            == WaitingOn(front, jobs, queue)
               + if jobs[last].spec.queue == queue && Waiting(jobs[last].status) then [last] else []
  {
  }

  lemma FirstWaitingIsListed(order: seq<JobId>, jobs: map<JobId, Job>, queue: JsString)
    requires Listed(order, jobs) && WaitingOn(order, jobs, queue) != []
    ensures WaitingOn(order, jobs, queue)[0] in Ids(order)
  {
    WaitingAreListed(order, jobs, queue);
    var first := WaitingOn(order, jobs, queue)[0];
    assert first in Ids(order);
  }

  lemma {:induction false} WaitingAreListed(order: seq<JobId>, jobs: map<JobId, Job>, queue: JsString)
    requires Listed(order, jobs)
    ensures forall i :: 0 <= i < |WaitingOn(order, jobs, queue)| ==> WaitingOn(order, jobs, queue)[i] in Ids(order)
  {
    if order != [] {
      WaitingAreListed(order[..|order| - 1], jobs, queue);
    }
  }

  lemma {:induction false} WaitingIgnoresOthers(order: seq<JobId>, jobs: map<JobId, Job>, more: map<JobId, Job>, queue: JsString)
    requires Listed(order, jobs) && Listed(order, more) && forall id :: id in Ids(order) ==> jobs[id] == more[id]
    ensures WaitingOn(order, jobs, queue) == WaitingOn(order, more, queue)
  {
    if order != [] {
      var last := order[|order| - 1];
      assert last in Ids(order);
      WaitingIgnoresOthers(order[..|order| - 1], jobs, more, queue);
    }
  }

  /** A tick whose processor succeeds takes its job off the store and changes nothing else. */
  lemma SuccessfulTick(s: Store, queue: JsString, policy: Policy, p: Processor, now: int)
    requires Valid(s) && Tick(s, queue, policy, p, now).popped.Some? && forall id, k :: p.outcome(id, k) == Ok
    ensures var t := Tick(s, queue, policy, p, now);
            && t.store == s.(order := Drop(s.order, {t.popped.value}), jobs := s.jobs - {t.popped.value})
            && Oldest(s.order, s.jobs, queue, now) == t.popped
  {
    PopTakesOne(s, queue, now);
    var id := Pop(s, queue, now).1.value.spec.id;
    assert Pop(s, queue, now).0.jobs - {id} == s.jobs - {id};
  }

  /** When all waiting jobs are due and the tick pops nothing, nothing waits. */
  lemma IdleTickMeansDrained(s: Store, queue: JsString, policy: Policy, p: Processor, now: int)
    requires Ready(s, queue) && AllDue(s.jobs.Keys, s.jobs, queue, now) && Tick(s, queue, policy, p, now).popped.None?
    ensures NextDue(s.order, s.jobs, queue).None?
  {
    if NextDue(s.order, s.jobs, queue).Some? {
      var id := NextDueIsEarliest(s.order, s.jobs, queue);
      EligibleIsFound(s.order, s.jobs, queue, now, id);
    }
  }

  /** A tick whose processor succeeds takes the first waiting job, and leaves the others due and in order. */
  lemma SuccessfulTickTakesTheFirst(s: Store, queue: JsString, policy: Policy, p: Processor, now: int)
    requires Ready(s, queue) && CreatedInOrder(s.order, s.jobs) && AllDue(s.jobs.Keys, s.jobs, queue, now)
    requires Tick(s, queue, policy, p, now).popped.Some? && forall id, k :: p.outcome(id, k) == Ok && p.took(id, k) >= 0
    ensures var t := Tick(s, queue, policy, p, now);
            var (waiting, u) := (WaitingOn(s.order, s.jobs, queue), t.store);
            && waiting != [] && t.popped.value == waiting[0]
            && Listed(u.order, u.jobs) && CreatedInOrder(u.order, u.jobs) && AllDue(u.jobs.Keys, u.jobs, queue, t.now)
            && WaitingOn(u.order, u.jobs, queue) == waiting[1..]
  {
    var id := Tick(s, queue, policy, p, now).popped.value;
    OldestIsFirst(s.order, s.jobs, queue, now);
    SuccessfulTick(s, queue, policy, p, now);
    RemovalKeepsCreationOrder(s.order, s.jobs, {id});
    WaitingAfterRemoval(s.order, s.jobs, queue, id);
  }

  /** Draining a tube of due jobs with a processor that succeeds pops them in insertion order. */
  lemma {:induction false} ProcessedInPushOrder(s: Store, queue: JsString, policy: Policy, p: Processor, now: int)
    requires Ready(s, queue) && CreatedInOrder(s.order, s.jobs) && AllDue(s.jobs.Keys, s.jobs, queue, now)
    requires forall id, k :: p.outcome(id, k) == Ok && p.took(id, k) >= 0
    ensures DrainTube(s, queue, policy, p, now).pops == WaitingOn(s.order, s.jobs, queue)
    decreases Remaining(s.order, s.jobs, queue)
  {
    ReadyHasNaturalShares(s, queue);
    var t := Tick(s, queue, policy, p, now);
    if t.popped.Some? {
      SuccessfulTickTakesTheFirst(s, queue, policy, p, now);
      TickSpendsAnAttempt(s, queue, policy, p, now);
      ProcessedInPushOrder(t.store, queue, policy, p, t.now);
    } else {
      OldestIsFirst(s.order, s.jobs, queue, now);
      IdleTickMeansDrained(s, queue, policy, p, now);
    }
  }

  lemma {:induction false} UpdateKeepsCreationOrder(order: seq<JobId>, jobs: map<JobId, Job>, more: map<JobId, Job>)
    requires Listed(order, jobs) && Listed(order, more) && CreatedInOrder(order, jobs)
    requires forall id :: id in Ids(order) ==> more[id].spec == jobs[id].spec
    ensures CreatedInOrder(order, more)
  {
    if order != [] {
      var last := order[|order| - 1];
      assert last in Ids(order);
      UpdateKeepsCreationOrder(order[..|order| - 1], jobs, more);
    }
  }

  /** Insertion order is creation order, and nothing was created after `now`. */
  predicate CreatedBy(s: Store, now: int) {
    && Valid(s) && CreatedInOrder(s.order, s.jobs)
    && forall id :: id in s.jobs ==> s.jobs[id].spec.createdAt <= now
  }

  lemma AppendKeepsCreationOrder(order: seq<JobId>, jobs: map<JobId, Job>, last: JobId)
    requires Listed(order, jobs) && CreatedInOrder(order, jobs) && last in jobs
    requires forall id :: id in Ids(order) ==> jobs[id].spec.createdAt <= jobs[last].spec.createdAt
    ensures Listed(order + [last], jobs) && CreatedInOrder(order + [last], jobs)
  {
  }

  lemma PushKeepsCreatedBy(s: Store, job: Job, now: int)
    requires CreatedBy(s, now) && job.spec.id !in s.jobs && job.spec.createdAt == now
    ensures CreatedBy(Push(s, job).0, now)
  {
    PushKeepsValid(s, job);
    var jobs := s.jobs[job.spec.id := job];
    UpdateKeepsCreationOrder(s.order, s.jobs, jobs);
    forall id | id in Ids(s.order) ensures jobs[id].spec.createdAt <= now {
      assert id in s.jobs;
    }
    AppendKeepsCreationOrder(s.order, jobs, job.spec.id);
  }

  lemma UpdateKeepsCreatedBy(s: Store, t: Store, now: int)
    requires CreatedBy(s, now) && Valid(t) && t.order == s.order && t.jobs.Keys == s.jobs.Keys
    requires forall id :: id in t.jobs ==> t.jobs[id].spec == s.jobs[id].spec
    ensures CreatedBy(t, now)
  {
    UpdateKeepsCreationOrder(s.order, s.jobs, t.jobs);
  }

  lemma DropKeepsCreatedBy(s: Store, t: Store, gone: set<JobId>, now: int)
    requires CreatedBy(s, now) && Valid(t) && t.order == Drop(s.order, gone) && t.jobs == s.jobs - gone
    ensures CreatedBy(t, now)
  {
    RemovalKeepsCreationOrder(s.order, s.jobs, gone);
  }
}
