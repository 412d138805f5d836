/**
 * The transactions of the IndexedDB driver as the code that runs in them (src/connections/indexeddb.connection.ts), and
 * the leader gate of the broadcast driver. A cursor is given by the primary keys it visits, in ascending order.
 */
module IndexedDbDriver {
  import opened JsStrings
  import opened Options
  import opened Jobs
  import opened WorkerPolicy
  import opened IndexedDbModel
  import opened MemoryStoreLaws
  import MS = MemoryStore

  predicate Ascending(cursor: seq<JobId>) {
    cursor != [] ==>
      var (front, last) := (cursor[..|cursor| - 1], cursor[|cursor| - 1]);
      Ascending(front) && forall id :: id in MS.Ids(front) ==> id < last
  }

  /** A cursor over the records of an index with one key value: each of them once, by ascending primary key. */
  predicate Visits(cursor: seq<JobId>, ids: set<JobId>) {
    Ascending(cursor) && MS.Ids(cursor) == ids
  }

  lemma {:induction false} AscendingPrefix(cursor: seq<JobId>, n: nat)
    requires Ascending(cursor) && n <= |cursor|
    ensures Ascending(cursor[..n]) && MS.Distinct(cursor[..n]) && MS.Ids(cursor[..n]) <= MS.Ids(cursor)
    ensures n < |cursor| ==> cursor[n] in MS.Ids(cursor) && forall id :: id in MS.Ids(cursor[..n]) ==> id < cursor[n]
    decreases |cursor|, n
  {
    MS.IdsOfPrefix(cursor, n);
    if n == |cursor| {
      assert cursor[..n] == cursor;
      if n > 0 {
        AscendingPrefix(cursor, n - 1);
        assert cursor[..n][..n - 1] == cursor[..n - 1];
        assert cursor[n - 1] !in MS.Ids(cursor[..n - 1]);
      }
    } else {
      var front := cursor[..|cursor| - 1];
      AscendingPrefix(front, n);
      assert front[..n] == cursor[..n];
    }
  }

  function WithKey(jobs: Table, uid: Option<JsString>): set<JobId> {
    set id | id in jobs && jobs[id].spec.uniqueId == uid
  }

  class IndexedDBConnection {
    var jobs: Table
    var meta: map<JsString, bool>
    var isOpen: bool

    predicate Valid()
      reads this
    {
      forall id {:trigger jobs[id]} :: id in jobs ==> jobs[id].spec.id == id
    }

    /** The tubes with a paused flag on record. */
    function Paused(): set<JsString>
      reads this
    {
      set queue | queue in meta && meta[queue]
    }

    /** A state of the model, with the table and the paused tubes taken from this database. */
    function Behind(s: State): State
      reads this
    {
      s.(jobs := jobs, paused := Paused())
    }

    /** A connection over what the database holds. */
    constructor (jobs: Table, meta: map<JsString, bool>)
      requires forall id {:trigger jobs[id]} :: id in jobs ==> jobs[id].spec.id == id
      ensures Valid() && this.jobs == jobs && this.meta == meta && !isOpen
    {
      this.jobs, this.meta, isOpen := jobs, meta, false;
    }

    /** The handle is opened on first use and kept. */
    method OpenDb()
      modifies this`isOpen
      ensures isOpen
    {
      if !isOpen {
        isOpen := true;
      }
    }

    /** Closing forgets the handle, not the records. */
    method Close()
      modifies this`isOpen
      ensures !isOpen
    {
      if !isOpen {
        return;
      }
      isOpen := false;
    }

    /** The walk over the jobs that share the unique id: the last in-flight one counts. */
    method FindBlocking(uid: Option<JsString>, cursor: seq<JobId>) returns (existing: Option<JobId>)
      requires Valid() && Visits(cursor, WithKey(jobs, uid))
      ensures LastBlocking(jobs, uid, existing)
    {
      existing := None;
      for i := 0 to |cursor|
        invariant MS.Ids(cursor[..i]) <= jobs.Keys
        invariant existing.None? ==> forall id :: id in MS.Ids(cursor[..i]) ==> !Blocks(jobs[id], uid)
        invariant existing.Some? ==>
                    && existing.value in jobs && existing.value in MS.Ids(cursor[..i]) && Blocks(jobs[existing.value], uid)
                    && forall id :: id in MS.Ids(cursor[..i]) && Blocks(jobs[id], uid) ==> id <= existing.value
      {
        AscendingPrefix(cursor, i);
        AscendingPrefix(cursor, i + 1);
        assert cursor[..i + 1][..i] == cursor[..i];
        var id := cursor[i];
        assert id in WithKey(jobs, uid);
        if jobs[id].status != Completed && jobs[id].status != Failed {
          existing := Some(id);
        }
      }
      assert cursor[..|cursor|] == cursor;
    }

    /** One transaction: the duplicate check and the insertion. */
    method Push(d: Dispatch, cursor: seq<JobId>) returns (id: JobId, ghost existing: Option<JobId>)
      requires Valid() && Visits(cursor, WithKey(jobs, NewJob(d).spec.uniqueId))
      modifies this
      ensures Valid() && LastBlocking(old(jobs), NewJob(d).spec.uniqueId, existing)
      ensures (jobs, id) == PushTx(old(jobs), NewJob(d), existing) && meta == old(meta)
    {
      var job := NewJob(d);
      OpenDb();
      var found := FindBlocking(job.spec.uniqueId, cursor);
      existing := found;
      if !Deduplicated(job) {
        jobs := jobs[job.spec.id := job];
        return job.spec.id, existing;
      }
      if found.Some? {
        return found.value, existing;
      }
      jobs := jobs[job.spec.id := job];
      return job.spec.id, existing;
    }

    /** First transaction of `pop`: a worker of the tube goes on to the scan exactly when the answer is no. */
    method IsPaused(queue: JsString) returns (r: bool)
      ensures r <==> queue in Paused()
      ensures forall sys, s, w :: Enabled(sys, Behind(s), ReadPause(w)) && w in sys.tubeOf && sys.tubeOf[w] == queue ==>
                (r <==> Step(sys, Behind(s), ReadPause(w)).phase[w].Idle?)
    {
      r := queue in meta && meta[queue];
    }

    /** Second transaction of `pop`: the cursor scan. */
    method Scan(queue: JsString, now: int, cursor: seq<JobId>) returns (chosen: Option<JobId>)
      requires Valid() && Visits(cursor, MS.OnTube(jobs, queue))
      ensures Chosen(jobs, queue, now, chosen)
    {
      chosen := None;
      for i := 0 to |cursor|
        invariant MS.Ids(cursor[..i]) <= MS.OnTube(jobs, queue)
        invariant chosen.None? ==> forall id :: id in MS.Ids(cursor[..i]) ==> !Eligible(jobs[id], queue, now)
        invariant chosen.Some? ==>
                    && chosen.value in jobs && chosen.value in MS.Ids(cursor[..i])
                    && Eligible(jobs[chosen.value], queue, now)
                    && forall id :: id in MS.Ids(cursor[..i]) && Eligible(jobs[id], queue, now) ==>
                         jobs[chosen.value].spec.createdAt < jobs[id].spec.createdAt
                         || (jobs[chosen.value].spec.createdAt == jobs[id].spec.createdAt && chosen.value <= id)
      {
        AscendingPrefix(cursor, i);
        AscendingPrefix(cursor, i + 1);
        assert cursor[..i + 1][..i] == cursor[..i];
        var id := cursor[i];
        assert id in MS.OnTube(jobs, queue);
        var job := jobs[id];
        var eligible := (job.status == Pending || job.status == Delayed) && job.availableAt <= now;
        if eligible && (chosen.None? || job.spec.createdAt < jobs[chosen.value].spec.createdAt) {
          chosen := Some(id);
        }
      }
      assert cursor[..|cursor|] == cursor;
      forall id | id in jobs && Eligible(jobs[id], queue, now) ensures id in MS.Ids(cursor) {
        assert id in MS.OnTube(jobs, queue);
      }
    }

    /** Third transaction of `pop`: the scanned copy, marked, is written back. */
    method Reserve(scanned: Job, now: int) returns (reserved: Job)
      requires Valid()
      modifies this`jobs
      ensures Valid() && reserved == ReservedAt(scanned, now) && jobs == ReserveTx(old(jobs), scanned, now)
    {
      reserved := scanned.(status := Reserved, attempts := scanned.attempts + 1, updatedAt := now);
      jobs := jobs[reserved.spec.id := reserved];
    }

    /** The three transactions with nothing in between: the job is reserved, and nothing else changes. */
    method Pop(queue: JsString, scanAt: int, reserveAt: int, cursor: seq<JobId>) returns (job: Option<Job>)
      requires Valid() && Visits(cursor, MS.OnTube(jobs, queue))
      modifies this
      ensures Valid() && meta == old(meta)
      ensures queue in Paused() ==> job.None? && jobs == old(jobs)
      ensures job.None? && queue !in Paused() ==>
                jobs == old(jobs) && forall id :: id in jobs ==> !Eligible(jobs[id], queue, scanAt)
      ensures job.Some? ==>
                var id := job.value.spec.id;
                && Chosen(old(jobs), queue, scanAt, Some(id))
                && job.value == ReservedAt(old(jobs)[id], reserveAt) && jobs == old(jobs)[id := job.value]
    {
      var paused := IsPaused(queue);
      if paused {
        return None;
      }
      OpenDb();
      var chosen := Scan(queue, scanAt, cursor);
      if chosen.None? {
        return None;
      }
      var reserved := Reserve(jobs[chosen.value], reserveAt);
      return Some(reserved);
    }

    method Remove(id: JobId)
      requires Valid()
      modifies this
      ensures Valid() && jobs == SettleTx(old(jobs), id, Done, 0) && meta == old(meta)
    {
      OpenDb();
      jobs := jobs - {id};
    }

    method Release(id: JobId, delayMs: int, now: int)
      requires Valid()
      modifies this
      ensures Valid() && jobs == SettleTx(old(jobs), id, Retry(delayMs), now) && meta == old(meta)
    {
      OpenDb();
      if id !in jobs {
        return;
      }
      var job := jobs[id];
      job := job.(status := if delayMs > 0 then Delayed else Pending, availableAt := now + delayMs, updatedAt := now);
      jobs := jobs[id := job];
    }

    method Fail(id: JobId, reason: Reason, now: int)
      requires Valid()
      modifies this
      ensures Valid() && jobs == SettleTx(old(jobs), id, GiveUp(reason), now) && meta == old(meta)
    {
      OpenDb();
      if id !in jobs {
        return;
      }
      var job := jobs[id];
      job := job.(status := Failed, lastError := Some(reason), updatedAt := now);
      jobs := jobs[id := job];
    }

    /** One transaction: the cursor deletes every record of the tube. */
    method Clear(queue: JsString, cursor: seq<JobId>)
      requires Valid() && Visits(cursor, MS.OnTube(jobs, queue))
      modifies this
      ensures Valid() && jobs == ClearTx(old(jobs), queue) && meta == old(meta)
    {
      OpenDb();
      for i := 0 to |cursor|
        invariant jobs == old(jobs) - MS.Ids(cursor[..i]) && meta == old(meta)
      {
        assert cursor[..i + 1][..i] == cursor[..i];
        jobs := jobs - {cursor[i]};
      }
      assert cursor[..|cursor|] == cursor;
    }

    /** `size`, `pendingSize`, `delayedSize` and `reservedSize` are this count for one set of statuses each. */
    method CountMatching(queue: JsString, statuses: set<Status>, cursor: seq<JobId>) returns (count: nat)
      requires Valid() && Visits(cursor, MS.OnTube(jobs, queue))
      ensures count == |set id | id in jobs && jobs[id].spec.queue == queue && jobs[id].status in statuses|
    {
      count := 0;
      for i := 0 to |cursor|
        invariant MS.Listed(cursor[..i], jobs)
        invariant count == MS.Count(cursor[..i], jobs, queue, statuses)
      {
        AscendingPrefix(cursor, i);
        AscendingPrefix(cursor, i + 1);
        assert cursor[..i + 1][..i] == cursor[..i];
        var id := cursor[i];
        assert id in MS.OnTube(jobs, queue);
        if jobs[id].status in statuses {
          count := count + 1;
        }
      }
      assert cursor[..|cursor|] == cursor;
      AscendingPrefix(cursor, |cursor|);
      CountIsCardinality(cursor, jobs, queue, statuses);
      assert Matching(MS.Ids(cursor), jobs, queue, statuses)
             == set id | id in jobs && jobs[id].spec.queue == queue && jobs[id].status in statuses;
    }

    /** The model's `Pause`: this tube becomes paused, and no other changes. */
    method Pause(queue: JsString)
      modifies this`meta
      ensures Paused() == old(Paused()) + {queue}
      ensures forall sys, s :: Behind(s) == Step(sys, old(Behind(s)), IndexedDbModel.Pause(queue))
    {
      meta := meta[queue := true];
    }

    /** The model's `Resume`: this tube stops being paused, and no other changes. */
    method Resume(queue: JsString)
      modifies this`meta
      ensures Paused() == old(Paused()) - {queue}
      ensures forall sys, s :: Behind(s) == Step(sys, old(Behind(s)), IndexedDbModel.Resume(queue))
    {
      meta := meta[queue := false];
    }
  }

  class TabCoordinator {
    var leads: bool

    constructor (leads: bool)
      ensures this.leads == leads
    {
      this.leads := leads;
    }
  }

  /** The broadcast driver: the IndexedDB driver behind a leader gate; without a coordinator it always leads. */
  class BroadcastChannelConnection {
    const db: IndexedDBConnection
    const coordinator: TabCoordinator?

    constructor (db: IndexedDBConnection, coordinator: TabCoordinator?)
      ensures this.db == db && this.coordinator == coordinator
    {
      this.db, this.coordinator := db, coordinator;
    }

    predicate Leads()
      reads coordinator
    {
      coordinator == null || coordinator.leads
    }

    /** A follower's pop answers null and touches nothing; a leader's is the IndexedDB driver's. */
    method Pop(queue: JsString, scanAt: int, reserveAt: int, cursor: seq<JobId>) returns (job: Option<Job>)
      requires db.Valid() && Visits(cursor, MS.OnTube(db.jobs, queue))
      modifies db
      ensures db.Valid() && db.meta == old(db.meta)
      ensures !Leads() ==> job.None? && db.jobs == old(db.jobs) && db.isOpen == old(db.isOpen)
      ensures Leads() && job.None? ==>
                && db.jobs == old(db.jobs)
                && (queue in db.Paused() || forall id :: id in db.jobs ==> !Eligible(db.jobs[id], queue, scanAt))
      ensures job.Some? ==>
                var id := job.value.spec.id;
                && Chosen(old(db.jobs), queue, scanAt, Some(id))
                && job.value == ReservedAt(old(db.jobs)[id], reserveAt) && db.jobs == old(db.jobs)[id := job.value]
    {
      if coordinator != null && !coordinator.leads {
        return None;
      }
      job := db.Pop(queue, scanAt, reserveAt, cursor);
    }
  }
}
