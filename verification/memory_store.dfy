/**
 * What one atomic call of the memory driver does to its insertion-ordered job map and its
 * set of paused tubes (src/connections/memory.connection.ts, src/connections/base.connection.ts).
 */
module MemoryStore {
  import opened JsStrings
  import opened Options
  import opened Jobs

  /** A JavaScript `Map`: `order` is the insertion order of the keys of `jobs`. */
  datatype Store = Store(order: seq<JobId>, jobs: map<JobId, Job>, paused: set<JsString>)

  const EMPTY := Store([], map[], {})

  /** The ids of an order. Everything about orders recurses on the prefix, as the driver's scans do. */
  function Ids(order: seq<JobId>): set<JobId> {
    if order == [] then {} else Ids(order[..|order| - 1]) + {order[|order| - 1]}
  }

  predicate Distinct(order: seq<JobId>) {
    order != [] ==>
      var n := |order| - 1;
      Distinct(order[..n]) && order[n] !in Ids(order[..n])
  }

  predicate Listed(order: seq<JobId>, jobs: map<JobId, Job>) {
    Ids(order) <= jobs.Keys
  }

  predicate Valid(s: Store) {
    && Distinct(s.order)
    && Ids(s.order) == s.jobs.Keys
    && (forall id {:trigger s.jobs[id]} :: id in s.jobs ==> s.jobs[id].spec.id == id)
  }

  lemma {:induction false} IdsOfPrefix(order: seq<JobId>, n: nat)
    requires n <= |order|
    ensures Ids(order[..n]) <= Ids(order)
    ensures n < |order| ==> order[n] in Ids(order)
  {
    if n == |order| {
      assert order[..n] == order;
    } else {
      IdsOfPrefix(order[..|order| - 1], n);
      assert order[..|order| - 1][..n] == order[..n];
    }
  }

  lemma {:induction false} DistinctAt(order: seq<JobId>, i: nat)
    requires Distinct(order) && i < |order|
    ensures order[i] !in Ids(order[..i])
  {
    var n := |order| - 1;
    if i < n {
      DistinctAt(order[..n], i);
      assert order[..n][..i] == order[..i];
    }
  }

  // ---- push ----

  /** The first job in insertion order that blocks `uid`. */
  function FirstBlocking(order: seq<JobId>, jobs: map<JobId, Job>, uid: Option<JsString>): (r: Option<JobId>)
    requires Listed(order, jobs)
    ensures r.Some? ==> r.value in Ids(order) && Blocks(jobs[r.value], uid)
  {
    if order == [] then None
    else
      var n := |order| - 1;
      var earlier := FirstBlocking(order[..n], jobs, uid);
      if earlier.Some? then earlier
      else if Blocks(jobs[order[n]], uid) then Some(order[n])
      else None
  }

  /** `Map.set`: a new key goes last, a known key keeps its place. */
  function Put(s: Store, job: Job): Store {
    s.(order := if job.spec.id in s.jobs then s.order else s.order + [job.spec.id], jobs := s.jobs[job.spec.id := job])
  }

  function Push(s: Store, job: Job): (Store, JobId)
    requires Listed(s.order, s.jobs)
  {
    var existing := if Deduplicated(job) then FirstBlocking(s.order, s.jobs, job.spec.uniqueId) else None;
    if existing.Some? then (s, existing.value) else (Put(s, job), job.spec.id)
  }

  // ---- pop ----

  /** The scan of `pop`: the first eligible job, replaced only by a strictly older one. */
  function Oldest(order: seq<JobId>, jobs: map<JobId, Job>, queue: JsString, now: int): (r: Option<JobId>)
    requires Listed(order, jobs)
    ensures r.Some? ==> r.value in Ids(order) && Eligible(jobs[r.value], queue, now)
  {
    if order == [] then None
    else
      var n := |order| - 1;
      var best := Oldest(order[..n], jobs, queue, now);
      var job := jobs[order[n]];
      if Eligible(job, queue, now) && (best.None? || job.spec.createdAt < jobs[best.value].spec.createdAt)
      then Some(order[n])
      else best
  }

  function Pop(s: Store, queue: JsString, now: int): (Store, Option<Job>)
    requires Listed(s.order, s.jobs)
  {
    if queue in s.paused then (s, None)
    else
      var best := Oldest(s.order, s.jobs, queue, now);
      if best.None? then (s, None)
      else
        var job := ReservedAt(s.jobs[best.value], now);
        (s.(jobs := s.jobs[best.value := job]), Some(job))
  }

  // ---- settling a job ----

  function Release(s: Store, id: JobId, delayMs: int, now: int): Store {
    if id in s.jobs then s.(jobs := s.jobs[id := ReleasedAt(s.jobs[id], delayMs, now)]) else s
  }

  function Fail(s: Store, id: JobId, reason: Reason, now: int): Store {
    if id in s.jobs then s.(jobs := s.jobs[id := FailedAt(s.jobs[id], reason, now)]) else s
  }

  /** The ids of `order` outside `gone`, in the same order. */
  function Drop(order: seq<JobId>, gone: set<JobId>): (r: seq<JobId>) {
    if order == [] then []
    else
      var n := |order| - 1;
      if order[n] in gone then Drop(order[..n], gone) else Drop(order[..n], gone) + [order[n]]
  }

  function Remove(s: Store, id: JobId): Store {
    s.(order := Drop(s.order, {id}), jobs := s.jobs - {id})
  }

  function OnTube(jobs: map<JobId, Job>, queue: JsString): set<JobId> {
    set id | id in jobs && jobs[id].spec.queue == queue
  }

  function Clear(s: Store, queue: JsString): Store {
    var gone := OnTube(s.jobs, queue);
    s.(order := Drop(s.order, gone), jobs := s.jobs - gone)
  }

  function Close(s: Store): Store {
    EMPTY
  }

  function Pause(s: Store, queue: JsString): Store {
    s.(paused := s.paused + {queue})
  }

  function Resume(s: Store, queue: JsString): Store {
    s.(paused := s.paused - {queue})
  }

  // ---- counts ----

  const IN_FLIGHT: set<Status> := {Pending, Delayed, Reserved, Processing}

  function Count(order: seq<JobId>, jobs: map<JobId, Job>, queue: JsString, statuses: set<Status>): nat
    requires Listed(order, jobs)
  {
    if order == [] then 0
    else
      var n := |order| - 1;
      var job := jobs[order[n]];
      Count(order[..n], jobs, queue, statuses) + if job.spec.queue == queue && job.status in statuses then 1 else 0
  }

  function Size(s: Store, queue: JsString): nat
    requires Listed(s.order, s.jobs)
  {
    Count(s.order, s.jobs, queue, IN_FLIGHT)
  }

  function SizeOf(s: Store, queue: JsString, status: Status): nat
    requires Listed(s.order, s.jobs)
  {
    Count(s.order, s.jobs, queue, {status})
  }

  // ---- what the operations mean ----

  /** Dropping ids leaves exactly the others, once each. */
  lemma {:induction false} DropKeepsTheRest(order: seq<JobId>, gone: set<JobId>)
    requires Distinct(order)
    ensures Distinct(Drop(order, gone)) && Ids(Drop(order, gone)) == Ids(order) - gone
  {
    if order != [] {
      var n := |order| - 1;
      DropKeepsTheRest(order[..n], gone);
      if order[n] !in gone {
        assert Drop(order, gone)[..|Drop(order, gone)| - 1] == Drop(order[..n], gone);
      }
    }
  }

  lemma {:induction false} DropOfAbsent(order: seq<JobId>, id: JobId)
    requires id !in Ids(order)
    ensures Drop(order, {id}) == order
  {
    if order != [] {
      var last := order[|order| - 1];
      assert last in Ids(order);
      DropOfAbsent(order[..|order| - 1], id);
    }
  }

  // Every operation keeps the map an insertion-ordered map without repeated keys.

  lemma PutKeepsValid(s: Store, job: Job)
    requires Valid(s)
    ensures Valid(Put(s, job))
  {
  }

  lemma PushKeepsValid(s: Store, job: Job)
    requires Valid(s)
    ensures Valid(Push(s, job).0)
  {
  }

  lemma PopKeepsValid(s: Store, queue: JsString, now: int)
    requires Valid(s)
    ensures Valid(Pop(s, queue, now).0)
  {
  }

  lemma ReleaseKeepsValid(s: Store, id: JobId, delayMs: int, now: int)
    requires Valid(s)
    ensures Valid(Release(s, id, delayMs, now))
  {
  }

  lemma FailKeepsValid(s: Store, id: JobId, reason: Reason, now: int)
    requires Valid(s)
    ensures Valid(Fail(s, id, reason, now))
  {
  }

  lemma RemoveKeepsValid(s: Store, id: JobId)
    requires Valid(s)
    ensures Valid(Remove(s, id))
  {
    DropKeepsTheRest(s.order, {id});
  }

  lemma ClearKeepsValid(s: Store, queue: JsString)
    requires Valid(s)
    ensures Valid(Clear(s, queue))
  {
    DropKeepsTheRest(s.order, OnTube(s.jobs, queue));
  }

  /** The duplicate scan succeeds exactly when some job blocks, and returns the earliest inserted one. */
  lemma {:induction false} FirstBlockingIsFirst(order: seq<JobId>, jobs: map<JobId, Job>, uid: Option<JsString>)
    returns (i: nat)
    requires Listed(order, jobs)
    ensures forall k :: 0 <= k < |order| ==> order[k] in jobs
    ensures FirstBlocking(order, jobs, uid).None? <==>
            forall k :: 0 <= k < |order| ==> !Blocks(jobs[order[k]], uid)
    ensures FirstBlocking(order, jobs, uid).Some? ==>
              && i < |order| && order[i] == FirstBlocking(order, jobs, uid).value
              && Blocks(jobs[order[i]], uid)
              && forall k :: 0 <= k < i ==> !Blocks(jobs[order[k]], uid)
  {
    i := 0;
    if order != [] {
      var n := |order| - 1;
      var front := order[..n];
      i := FirstBlockingIsFirst(front, jobs, uid);
      assert forall k :: 0 <= k < n ==> front[k] == order[k];
      if FirstBlocking(front, jobs, uid).None? {
        i := n;
      }
    }
  }

  /** No answer means that no listed job blocks. */
  lemma {:induction false} NothingBlocks(order: seq<JobId>, jobs: map<JobId, Job>, uid: Option<JsString>, id: JobId)
    requires Listed(order, jobs) && FirstBlocking(order, jobs, uid).None? && id in Ids(order)
    ensures !Blocks(jobs[id], uid)
  {
    if id != order[|order| - 1] {
      NothingBlocks(order[..|order| - 1], jobs, uid, id);
    }
  }

  /** Once a prefix contains a blocking job, the rest of the order does not change the answer. */
  lemma {:induction false} FirstBlockingIsStable(order: seq<JobId>, n: nat, jobs: map<JobId, Job>, uid: Option<JsString>)
    requires Listed(order, jobs) && n <= |order|
    ensures Listed(order[..n], jobs)
    ensures FirstBlocking(order[..n], jobs, uid).Some? ==>
              FirstBlocking(order, jobs, uid) == FirstBlocking(order[..n], jobs, uid)
  {
    if n == |order| {
      assert order[..n] == order;
    } else {
      var front := order[..|order| - 1];
      FirstBlockingIsStable(front, n, jobs, uid);
      assert front[..n] == order[..n];
    }
  }

  /** `pop` reserves one eligible job of an unpaused tube and changes nothing else. */
  lemma PopTakesOne(s: Store, queue: JsString, now: int)
    requires Valid(s) && Pop(s, queue, now).1.Some?
    ensures var job := Pop(s, queue, now).1.value;
            var id := job.spec.id;
            && id in s.jobs && queue !in s.paused && Oldest(s.order, s.jobs, queue, now) == Some(id)
            && Eligible(s.jobs[id], queue, now) && job == ReservedAt(s.jobs[id], now)
            && Pop(s, queue, now).0 == s.(jobs := s.jobs[id := job])
  {
    var best := Oldest(s.order, s.jobs, queue, now).value;
    assert best in s.jobs && s.jobs[best].spec.id == best;
  }

  /** Position `i` holds the eligible job that is least by (createdAt, insertion position). */
  predicate IsNext(order: seq<JobId>, jobs: map<JobId, Job>, queue: JsString, now: int, i: int)
    requires forall k :: 0 <= k < |order| ==> order[k] in jobs
  {
    && 0 <= i < |order|
    && Eligible(jobs[order[i]], queue, now)
    && (forall k :: 0 <= k < |order| && Eligible(jobs[order[k]], queue, now) ==>
          jobs[order[i]].spec.createdAt <= jobs[order[k]].spec.createdAt
          && (k < i ==> jobs[order[i]].spec.createdAt < jobs[order[k]].spec.createdAt))
  }

  /** The scan finds nothing exactly when nothing is eligible, and otherwise the least job by (createdAt, position). */
  lemma {:induction false} OldestIsLeast(order: seq<JobId>, jobs: map<JobId, Job>, queue: JsString, now: int)
    returns (i: int)
    requires Listed(order, jobs)
    ensures forall k :: 0 <= k < |order| ==> order[k] in jobs
    ensures Oldest(order, jobs, queue, now).None? <==>
            forall k :: 0 <= k < |order| ==> !Eligible(jobs[order[k]], queue, now)
    ensures Oldest(order, jobs, queue, now).Some? ==>
              IsNext(order, jobs, queue, now, i) && order[i] == Oldest(order, jobs, queue, now).value
  {
    i := 0;
    if order != [] {
      var n := |order| - 1;
      var front := order[..n];
      i := OldestIsLeast(front, jobs, queue, now);
      assert forall k :: 0 <= k < n ==> front[k] == order[k];
      if Oldest(order, jobs, queue, now) != Oldest(front, jobs, queue, now) {
        i := n;
      }
    }
  }
}
