/**
 * The in-memory driver as the class it is: one map of job objects, changed in place
 * (src/connections/memory.connection.ts), with the shared defaults of src/connections/base.connection.ts.
 */
module MemoryDriver {
  import opened JsStrings
  import opened Options
  import opened Jobs
  import MS = MemoryStore
  import opened BulkDispatch

  /** A stored job. `pop` hands this very object to the worker, so the holder sees later changes to it. */
  class QueuedJob {
    const spec: JobSpec
    var status: Status
    var attempts: int
    var availableAt: int
    var updatedAt: int
    var lastError: Option<Reason>

    constructor (job: Job)
      ensures View() == job
    {
      spec, status, attempts := job.spec, job.status, job.attempts;
      availableAt, updatedAt, lastError := job.availableAt, job.updatedAt, job.lastError;
    }

    function View(): Job
      reads this
    {
      Job(spec, status, attempts, availableAt, updatedAt, lastError)
    }

    method Reserve(now: int)
      modifies this
      ensures View() == ReservedAt(old(View()), now)
    {
      status := Reserved;
      attempts := attempts + 1;
      updatedAt := now;
    }

    method Release(delayMs: int, now: int)
      modifies this
      ensures View() == ReleasedAt(old(View()), delayMs, now)
    {
      status := if delayMs > 0 then Delayed else Pending;
      availableAt := now + delayMs;
      updatedAt := now;
    }

    method Fail(reason: Reason, now: int)
      modifies this
      ensures View() == FailedAt(old(View()), reason, now)
    {
      status := Failed;
      lastError := Some(reason);
      updatedAt := now;
    }
  }

  lemma BlockingOneMore(order: seq<JobId>, i: nat, jobs: map<JobId, Job>, uid: Option<JsString>)
    requires MS.Listed(order, jobs) && i < |order|
    ensures order[i] in MS.Ids(order) && MS.Listed(order[..i], jobs) && MS.Listed(order[..i + 1], jobs)
    ensures MS.FirstBlocking(order[..i], jobs, uid).None? ==>
              if Blocks(jobs[order[i]], uid) then MS.FirstBlocking(order, jobs, uid) == Some(order[i])
              else MS.FirstBlocking(order[..i + 1], jobs, uid).None?
  {
    assert order[..i + 1][..i] == order[..i];
    MS.IdsOfPrefix(order, i + 1);
    MS.IdsOfPrefix(order, i);
    MS.FirstBlockingIsStable(order, i + 1, jobs, uid);
  }

  lemma CountOneMore(order: seq<JobId>, i: nat, jobs: map<JobId, Job>, queue: JsString, statuses: set<Status>)
    requires MS.Listed(order, jobs) && i < |order|
    ensures order[i] in MS.Ids(order) && MS.Listed(order[..i], jobs) && MS.Listed(order[..i + 1], jobs)
    ensures MS.Count(order[..i + 1], jobs, queue, statuses)
            == MS.Count(order[..i], jobs, queue, statuses)
               + if jobs[order[i]].spec.queue == queue && jobs[order[i]].status in statuses then 1 else 0
  {
    assert order[..i + 1][..i] == order[..i];
    MS.IdsOfPrefix(order, i + 1);
    MS.IdsOfPrefix(order, i);
  }

  lemma ScanOneMore(order: seq<JobId>, i: nat, gone: set<JobId>)
    requires MS.Distinct(order) && i < |order|
    ensures order[i] in MS.Ids(order) && order[i] !in MS.Ids(order[..i])
    ensures MS.Ids(order[..i + 1]) == MS.Ids(order[..i]) + {order[i]}
    ensures MS.Drop(order[..i + 1], gone) == MS.Drop(order[..i], gone) + if order[i] in gone then [] else [order[i]]
  {
    assert order[..i + 1][..i] == order[..i];
    MS.IdsOfPrefix(order, i + 1);
    MS.DistinctAt(order, i);
  }

  lemma ClearedAll(store: MS.Store, queue: JsString)
    requires MS.Valid(store)
    ensures MS.OnTube(store.jobs, queue) * MS.Ids(store.order) == MS.OnTube(store.jobs, queue)
  {
  }

  class MemoryConnection {
    const name: JsString
    var order: seq<JobId>
    var jobs: map<JobId, QueuedJob>
    var paused: set<JsString>
    ghost var store: MS.Store  // the abstract value of the fields above
    ghost var objects: set<QueuedJob>  // every job object this driver may change

    ghost predicate Mirrors()
      reads this, objects
    {
      && order == store.order && paused == store.paused
      && (forall id :: id in jobs <==> id in store.jobs)
      && (forall id {:trigger jobs[id]} :: id in jobs ==>
            jobs[id] in objects && jobs[id].spec.id == id && jobs[id].View() == store.jobs[id])
    }

    ghost predicate Valid()
      reads this, objects
    {
      MS.Valid(store) && Mirrors()
    }

    constructor (name: JsString)
      ensures Valid() && objects == {} && store == MS.EMPTY && this.name == name
    {
      this.name := name;
      order, jobs, paused := [], map[], {};
      store, objects := MS.EMPTY, {};
    }

    /** The scan of `push` for an in-flight job with the same unique id, in insertion order. */
    method FindBlocking(uid: Option<JsString>) returns (found: Option<JobId>)
      requires Valid()
      ensures found == MS.FirstBlocking(order, store.jobs, uid)
    {
      for i := 0 to |order|
        invariant MS.Listed(order[..i], store.jobs)
        invariant MS.FirstBlocking(order[..i], store.jobs, uid).None?
      {
        BlockingOneMore(order, i, store.jobs, uid);
        var id := order[i];
        assert id in store.jobs;
        var existing := jobs[id];
        if existing.spec.uniqueId == uid && existing.status != Completed && existing.status != Failed {
          return Some(id);
        }
      }
      assert order[..|order|] == order;
      return None;
    }

    method Push(d: Dispatch) returns (id: JobId)
      requires Valid()
      modifies this
      ensures Valid() && fresh(objects - old(objects))
      ensures (store, id) == MS.Push(old(store), NewJob(d))
    {
      var job := NewJob(d);
      id := job.spec.id;
      if Deduplicated(job) {
        var existing := FindBlocking(job.spec.uniqueId);
        if existing.Some? {
          return existing.value;
        }
      }
      Insert(job);
    }

    method Insert(job: Job)
      requires Valid()
      modifies this
      ensures Valid() && fresh(objects - old(objects))
      ensures store == MS.Put(old(store), job)
    {
      var stored := new QueuedJob(job);
      SetJob(stored);
    }

    /** `jobs.set(job.id, job)` */
    method SetJob(job: QueuedJob)
      requires Valid() && job !in objects
      modifies this
      ensures Valid() && objects == old(objects) + {job}
      ensures store == MS.Put(old(store), job.View())
    {
      MS.PutKeepsValid(store, job.View());
      order, jobs := if job.spec.id in jobs then order else order + [job.spec.id], jobs[job.spec.id := job];
      store, objects := MS.Put(store, job.View()), objects + {job};
      forall id | id in jobs ensures jobs[id] in objects && jobs[id].spec.id == id && jobs[id].View() == store.jobs[id] {
        if id != job.spec.id {
          assert jobs[id] == old(jobs)[id] && store.jobs[id] == old(store.jobs)[id];
        }
      }
    }

    /** Delayed dispatch: the options with `delayMs` overridden. */
    method Later(delayMs: int, d: Dispatch) returns (id: JobId)
      requires Valid()
      modifies this
      ensures Valid() && fresh(objects - old(objects))
      ensures (store, id) == MS.Push(old(store), NewJob(WithDelay(d, delayMs)))
    {
      id := Push(WithDelay(d, delayMs));
    }

    /** Bulk dispatch: a loop of pushes. */
    method Bulk(batch: seq<Dispatch>) returns (ids: seq<JobId>)
      requires Valid()
      modifies this
      ensures Valid() && fresh(objects - old(objects))
      ensures MS.Valid(old(store)) && (store, ids) == PushAll(old(store), batch)
    {
      ghost var jobs := NewJobs(batch);
      ids := BulkJobs(batch, jobs);
    }

    /** The loop, told which jobs the dispatches make. */
    method BulkJobs(batch: seq<Dispatch>, ghost jobs: seq<Job>) returns (ids: seq<JobId>)
      requires Valid() && Makes(batch, jobs)
      modifies this
      ensures Valid() && fresh(objects - old(objects))
      ensures MS.Valid(old(store)) && (store, ids) == PushFirst(old(store), jobs, |jobs|)
    {
      ghost var s := store;
      ids := [];
      for i := 0 to |batch|
        invariant Valid() && fresh(objects - old(objects)) && Progress(s, jobs, i, store, ids)
      {
        ids := PushEntry(batch, i, ids, s, jobs);
      }
    }

    /** One round of the loop. */
    method PushEntry(batch: seq<Dispatch>, i: nat, some: seq<JobId>, ghost s: MS.Store, ghost jobs: seq<Job>) returns (ids: seq<JobId>)
      requires Valid() && i < |batch| && Makes(batch, jobs) && Progress(s, jobs, i, store, some)
      modifies this
      ensures Valid() && fresh(objects - old(objects)) && Progress(s, jobs, i + 1, store, ids)
    {
      NextOfPushFirst(s, jobs, i);
      var id := Push(batch[i]);
      ids := some + [id];
    }

    /** The scan of `pop`: keep the oldest eligible job. */
    method FindOldest(queue: JsString, now: int) returns (next: QueuedJob?)
      requires Valid()
      ensures MS.Oldest(order, store.jobs, queue, now) == if next == null then None else Some(next.spec.id)
      ensures next != null ==> next.spec.id in jobs && jobs[next.spec.id] == next
    {
      next := null;
      for i := 0 to |order|
        invariant next != null ==> next.spec.id in jobs && jobs[next.spec.id] == next
        invariant MS.Listed(order[..i], store.jobs)
        invariant MS.Oldest(order[..i], store.jobs, queue, now) == if next == null then None else Some(next.spec.id)
      {
        assert order[..i + 1][..i] == order[..i];
        MS.IdsOfPrefix(order, i + 1);
        MS.IdsOfPrefix(order, i);
        var id := order[i];
        assert id in store.jobs;
        var job := jobs[id];
        if job.spec.queue != queue { continue; }
        if job.status != Pending && job.status != Delayed { continue; }
        if job.availableAt > now { continue; }
        if next == null || job.spec.createdAt < next.spec.createdAt {
          next := job;
        }
      }
      assert order[..|order|] == order;
    }

    method Pop(queue: JsString, now: int) returns (next: QueuedJob?)
      requires Valid()
      modifies this`store, objects
      ensures Valid()
      ensures store == MS.Pop(old(store), queue, now).0
      ensures next == null <==> MS.Pop(old(store), queue, now).1.None?
      ensures next != null ==> next in objects && MS.Pop(old(store), queue, now).1 == Some(next.View())
      ensures next != null ==> next.spec.id in jobs && jobs[next.spec.id] == next
    {
      MS.PopKeepsValid(store, queue, now);
      if queue in paused {
        return null;
      }
      next := FindOldest(queue, now);
      if next == null {
        return;
      }
      next.Reserve(now);
      store := MS.Pop(store, queue, now).0;
    }

    method Size(queue: JsString) returns (count: nat)
      requires Valid()
      ensures count == MS.Size(store, queue)
    {
      count := 0;
      for i := 0 to |order|
        invariant MS.Listed(order[..i], store.jobs)
        invariant count == MS.Count(order[..i], store.jobs, queue, MS.IN_FLIGHT)
      {
        CountOneMore(order, i, store.jobs, queue, MS.IN_FLIGHT);
        var id := order[i];
        assert id in store.jobs;
        var job := jobs[id];
        if job.spec.queue != queue { continue; }
        if job.status == Completed || job.status == Failed { continue; }
        count := count + 1;
      }
      assert order[..|order|] == order;
    }

    /** `pendingSize`, `delayedSize` and `reservedSize` are this count at one status each. */
    method CountByStatus(queue: JsString, status: Status) returns (count: nat)
      requires Valid()
      ensures count == MS.SizeOf(store, queue, status)
    {
      count := 0;
      for i := 0 to |order|
        invariant MS.Listed(order[..i], store.jobs)
        invariant count == MS.Count(order[..i], store.jobs, queue, {status})
      {
        CountOneMore(order, i, store.jobs, queue, {status});
        var id := order[i];
        assert id in store.jobs;
        var job := jobs[id];
        if job.spec.queue == queue && job.status == status {
          count := count + 1;
        }
      }
      assert order[..|order|] == order;
    }

    method Remove(id: JobId)
      requires Valid()
      modifies this
      ensures Valid() && objects == old(objects)
      ensures store == MS.Remove(old(store), id)
    {
      MS.RemoveKeepsValid(store, id);
      order, jobs := MS.Drop(order, {id}), jobs - {id};
      store := MS.Remove(store, id);
    }

    method Release(id: JobId, delayMs: int, now: int)
      requires Valid()
      modifies this`store, objects
      ensures Valid()
      ensures store == MS.Release(old(store), id, delayMs, now)
      ensures objects == old(objects) && forall o :: o in objects ==> o.attempts == old(o.attempts)
    {
      MS.ReleaseKeepsValid(store, id, delayMs, now);
      if id !in jobs {
        return;
      }
      jobs[id].Release(delayMs, now);
      store := MS.Release(store, id, delayMs, now);
    }

    method Fail(id: JobId, reason: Reason, now: int)
      requires Valid()
      modifies this`store, objects
      ensures Valid()
      ensures store == MS.Fail(old(store), id, reason, now)
      ensures objects == old(objects) && forall o :: o in objects ==> o.attempts == old(o.attempts)
    {
      MS.FailKeepsValid(store, id, reason, now);
      if id !in jobs {
        return;
      }
      jobs[id].Fail(reason, now);
      store := MS.Fail(store, id, reason, now);
    }

    method Clear(queue: JsString)
      requires Valid()
      modifies this
      ensures Valid() && objects == old(objects)
      ensures store == MS.Clear(old(store), queue)
    {
      ghost var after := MS.Clear(store, queue);
      MS.ClearKeepsValid(store, queue);
      var kept := Sweep(queue);
      Keep(kept, after);
    }

    /** The keys that stay, once the map holds what `after` says of them. */
    method Keep(kept: seq<JobId>, ghost after: MS.Store)
      requires MS.Valid(after) && kept == after.order && paused == after.paused
      requires forall id :: id in jobs <==> id in after.jobs
      requires forall id {:trigger jobs[id]} :: id in jobs ==>
                 jobs[id] in objects && jobs[id].spec.id == id && jobs[id].View() == after.jobs[id]
      modifies this`order, this`store
      ensures Valid() && store == after
    {
      order, store := kept, after;
    }

    /** Deletes the tube's jobs while iterating, and returns the keys that stay. */
    method Sweep(queue: JsString) returns (kept: seq<JobId>)
      requires Valid()
      modifies this`jobs
      ensures kept == MS.Clear(store, queue).order
      ensures forall id :: id in jobs <==> id in MS.Clear(store, queue).jobs
      ensures forall id {:trigger jobs[id]} :: id in jobs ==>
                jobs[id] in objects && jobs[id].spec.id == id && jobs[id].View() == MS.Clear(store, queue).jobs[id]
    {
      ghost var all, gone := jobs, MS.OnTube(store.jobs, queue);
      kept := [];
      for i := 0 to |order|
        invariant jobs == all - gone * MS.Ids(order[..i])
        invariant kept == MS.Drop(order[..i], gone)
      {
        ScanOneMore(order, i, gone);
        var id := order[i];
        if jobs[id].spec.queue == queue {
          jobs := jobs - {id};
        } else {
          kept := kept + [id];
        }
      }
      ClearedAll(store, queue);
      assert order[..|order|] == order;
    }

    method Close()
      requires Valid()
      modifies this
      ensures Valid() && store == MS.Close(old(store))
    {
      order, jobs, paused := [], map[], {};
      store := MS.Close(store);
    }

    method Pause(queue: JsString)
      requires Valid()
      modifies this`paused, this`store
      ensures Valid() && store == MS.Pause(old(store), queue)
    {
      paused := paused + {queue};
      store := MS.Pause(store, queue);
    }

    method Resume(queue: JsString)
      requires Valid()
      modifies this`paused, this`store
      ensures Valid() && store == MS.Resume(old(store), queue)
    {
      paused := paused - {queue};
      store := MS.Resume(store, queue);
    }

    method IsPaused(queue: JsString) returns (r: bool)
      requires Valid()
      ensures r <==> queue in store.paused
    {
      r := queue in paused;
    }
  }
}
