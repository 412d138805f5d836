/** Laws of the job map: what its counts count, and that a repeated dispatch changes nothing. */
module MemoryStoreLaws {
  import opened JsStrings
  import opened Options
  import opened CanonicalKey
  import opened KeyTexts
  import opened Jobs
  import opened MemoryStore

  // ---- counts ----

  function Matching(ids: set<JobId>, jobs: map<JobId, Job>, queue: JsString, statuses: set<Status>): set<JobId>
    requires ids <= jobs.Keys
  {
    set id | id in ids && jobs[id].spec.queue == queue && jobs[id].status in statuses
  }

  /** The counting scan counts each stored job of the tube once. */
  lemma {:induction false} CountIsCardinality(order: seq<JobId>, jobs: map<JobId, Job>, queue: JsString, statuses: set<Status>)
    requires Distinct(order) && Listed(order, jobs)
    ensures Count(order, jobs, queue, statuses) == |Matching(Ids(order), jobs, queue, statuses)|
  {
    if order != [] {
      var (front, last) := (order[..|order| - 1], order[|order| - 1]);
      CountIsCardinality(front, jobs, queue, statuses);
      var (some, all) := (Matching(Ids(front), jobs, queue, statuses), Matching(Ids(order), jobs, queue, statuses));
      if last in all {
        assert all == some + {last};
      } else {
        assert all == some;
      }
    }
  }

  lemma {:induction false} CountSplits(order: seq<JobId>, jobs: map<JobId, Job>, queue: JsString, a: set<Status>, b: set<Status>)
    requires Listed(order, jobs) && a !! b
    ensures Count(order, jobs, queue, a + b) == Count(order, jobs, queue, a) + Count(order, jobs, queue, b)
  {
    if order != [] {
      CountSplits(order[..|order| - 1], jobs, queue, a, b);
    }
  }

  lemma {:induction false} CountOfAbsentStatus(order: seq<JobId>, jobs: map<JobId, Job>, queue: JsString, status: Status)
    requires Listed(order, jobs) && forall id :: id in Ids(order) ==> jobs[id].status != status
    ensures Count(order, jobs, queue, {status}) == 0
  {
    if order != [] {
      CountOfAbsentStatus(order[..|order| - 1], jobs, queue, status);
      var last := order[|order| - 1];
      assert last in Ids(order);
    }
  }

  /** The driver knows six statuses and uses four. */
  predicate UsesFourStatuses(s: Store) {
    forall id :: id in s.jobs ==> s.jobs[id].status != Processing && s.jobs[id].status != Completed
  }

  /** `size` is the sum of the three status counts. */
  lemma SizeIsConserved(s: Store, queue: JsString)
    requires Valid(s) && UsesFourStatuses(s)
    ensures Size(s, queue) == SizeOf(s, queue, Pending) + SizeOf(s, queue, Delayed) + SizeOf(s, queue, Reserved)
  {
    assert IN_FLIGHT == {Pending} + ({Delayed} + ({Reserved} + {Processing}));
    CountSplits(s.order, s.jobs, queue, {Pending}, {Delayed} + ({Reserved} + {Processing}));
    CountSplits(s.order, s.jobs, queue, {Delayed}, {Reserved} + {Processing});
    CountSplits(s.order, s.jobs, queue, {Reserved}, {Processing});
    CountOfAbsentStatus(s.order, s.jobs, queue, Processing);
  }

  // ---- repeated dispatches ----

  /** After a deduplicated job is pushed, the id that push returned is the first that blocks its key. */
  lemma PushedJobBlocksFirst(s: Store, job: Job)
    requires Valid(s) && Deduplicated(job) && InFlight(job.status) && job.spec.id !in s.jobs
    ensures var (t, id) := Push(s, job); Valid(t) && FirstBlocking(t.order, t.jobs, job.spec.uniqueId) == Some(id)
  {
    PushKeepsValid(s, job);
    var t := Push(s, job).0;
    if FirstBlocking(s.order, s.jobs, job.spec.uniqueId).None? {
      assert t.order[..|t.order| - 1] == s.order;
      FirstBlockingIgnoresOthers(s.order, s.jobs, t.jobs, job.spec.uniqueId);
    }
  }

  lemma {:induction false} FirstBlockingIgnoresOthers(order: seq<JobId>, jobs: map<JobId, Job>, more: map<JobId, Job>, uid: Option<JsString>)
    requires Listed(order, jobs) && Listed(order, more) && forall id :: id in Ids(order) ==> jobs[id] == more[id]
    ensures FirstBlocking(order, jobs, uid) == FirstBlocking(order, more, uid)
  {
    if order != [] {
      FirstBlockingIgnoresOthers(order[..|order| - 1], jobs, more, uid);
      var last := order[|order| - 1];
      assert last in Ids(order);
    }
  }

  predicate OptsIn(d: Dispatch) {
    d.options.uniqueFor.Some? && d.options.uniqueId.None?
  }

  /**
   * Two dispatches of one name, with payloads equal up to key order at any depth and no explicit key: whatever the first
   * push does, the second returns the same id and leaves the store as it is. The window length plays no part.
   */
  lemma KeyOrderFeedsDedup(s: Store, d: Dispatch, again: Dispatch)
    requires Valid(s) && d.id !in s.jobs
    requires OptsIn(d) && OptsIn(again) && d.name == again.name
    requires WellFormed(d.data) && WellFormed(again.data) && Same(d.data, again.data)
    ensures var (t, id) := Push(s, NewJob(d)); Valid(t) && Push(t, NewJob(again)) == (t, id)
  {
    DerivedIdIsTheHash(d.name, d.data, again.name, again.data);
    PushedJobBlocksFirst(s, NewJob(d));
  }

  // ---- what a push does ----

  /** Position `i` holds the earliest job that is neither completed nor failed and has the unique id `key`. */
  predicate FirstHolder(s: Store, key: JsString, i: nat)
    requires Valid(s)
  {
    && i < |s.order| && HoldsKey(s, s.order[i], key) && forall k :: 0 <= k < i ==> !HoldsKey(s, s.order[k], key)
  }

  predicate HoldsKey(s: Store, id: JobId, key: JsString) {
    id in s.jobs && s.jobs[id].spec.uniqueId == Some(key) && s.jobs[id].status != Completed && s.jobs[id].status != Failed
  }

  /** The store with a new job placed after all others. */
  predicate Appended(s: Store, t: Store, job: Job) {
    && t.order == s.order + [job.spec.id] && t.jobs.Keys == s.jobs.Keys + {job.spec.id} && t.paused == s.paused
    && t.jobs[job.spec.id] == job && forall id :: id in s.jobs ==> id == job.spec.id || t.jobs[id] == s.jobs[id]
  }

  /**
   * A push under a fresh id appends the job and answers its id, unless the job has a non-empty key that a job in flight
   * holds: then it answers the earliest holder and changes nothing.
   */
  lemma PushAppendsOrDefers(s: Store, job: Job) returns (i: nat)
    requires Valid(s) && job.spec.id !in s.jobs
    ensures var (t, id) := Push(s, job);
            var uid := job.spec.uniqueId;
            if uid.Some? && uid.value != [] && exists x :: HoldsKey(s, x, uid.value)
            then t == s && FirstHolder(s, uid.value, i) && id == s.order[i]
            else Appended(s, t, job) && id == job.spec.id
  {
    i := 0;
    var uid := job.spec.uniqueId;
    if Deduplicated(job) {
      i := FirstBlockingIsFirst(s.order, s.jobs, uid);
      if x :| HoldsKey(s, x, uid.value) {
        if FirstBlocking(s.order, s.jobs, uid).None? {
          NothingBlocks(s.order, s.jobs, uid, x);
        }
        assert Blocks(s.jobs[s.order[i]], uid);
      } else if FirstBlocking(s.order, s.jobs, uid).Some? {
        assert HoldsKey(s, s.order[i], uid.value);
      }
    }
  }

  // ---- releasing and failing ----

  lemma {:induction false} CountAfterUpdate(order: seq<JobId>, jobs: map<JobId, Job>, queue: JsString, statuses: set<Status>,
                                            id: JobId, job: Job)
    requires Distinct(order) && Listed(order, jobs) && id in Ids(order) && job.spec.queue == jobs[id].spec.queue == queue
    ensures Count(order, jobs[id := job], queue, statuses)
            == Count(order, jobs, queue, statuses) - (if jobs[id].status in statuses then 1 else 0)
               + (if job.status in statuses then 1 else 0)
  {
    var (front, last) := (order[..|order| - 1], order[|order| - 1]);
    if last == id {
      CountIgnoresOthers(front, jobs, jobs[id := job], queue, statuses);
    } else {
      CountAfterUpdate(front, jobs, queue, statuses, id, job);
    }
  }

  lemma {:induction false} CountIgnoresOthers(order: seq<JobId>, jobs: map<JobId, Job>, more: map<JobId, Job>, queue: JsString,
                                              statuses: set<Status>)
    requires Listed(order, jobs) && Listed(order, more) && forall id :: id in Ids(order) ==> jobs[id] == more[id]
    ensures Count(order, jobs, queue, statuses) == Count(order, more, queue, statuses)
  {
    if order != [] {
      CountIgnoresOthers(order[..|order| - 1], jobs, more, queue, statuses);
      var last := order[|order| - 1];
      assert last in Ids(order);
    }
  }

  /** Only this job is rewritten, in its place, and its dispatch fields and attempts stay. */
  predicate OnlyRewritten(s: Store, t: Store, id: JobId) {
    && id in s.jobs && id in t.jobs && t.order == s.order && t.paused == s.paused && t.jobs == s.jobs[id := t.jobs[id]]
    && t.jobs[id].spec == s.jobs[id].spec && t.jobs[id].attempts == s.jobs[id].attempts
  }

  /**
   * A released job can be popped from `delayMs` later on and not before; on its tube `delayedSize` gains it exactly for a
   * positive delay and `pendingSize` otherwise, and whichever of the counts had it loses it.
   */
  lemma ReleasePutsBack(s: Store, id: JobId, delayMs: int, now: int, time: int, status: Status)
    requires Valid(s) && id in s.jobs
    ensures var (t, queue) := (Release(s, id, delayMs, now), s.jobs[id].spec.queue);
            && Valid(t) && OnlyRewritten(s, t, id) && t.jobs[id].lastError == s.jobs[id].lastError
            && (Eligible(t.jobs[id], queue, time) <==> now + delayMs <= time)
            && SizeOf(t, queue, status)
               == SizeOf(s, queue, status) - (if s.jobs[id].status == status then 1 else 0)
                  + (if status == (if delayMs > 0 then Delayed else Pending) then 1 else 0)
  {
    CountAfterUpdate(s.order, s.jobs, s.jobs[id].spec.queue, {status}, id, ReleasedAt(s.jobs[id], delayMs, now));
  }

  /** A failed job keeps the reason and can never be popped; its tube's `size` loses it if it was in flight. */
  lemma FailKeepsTheReason(s: Store, id: JobId, reason: Reason, now: int, time: int)
    requires Valid(s) && id in s.jobs
    ensures var (t, queue) := (Fail(s, id, reason, now), s.jobs[id].spec.queue);
            && Valid(t) && OnlyRewritten(s, t, id)
            && t.jobs[id].status == Failed && t.jobs[id].lastError == Some(reason) && !Eligible(t.jobs[id], queue, time)
            && Size(t, queue)
               == Size(s, queue) - if s.jobs[id].status != Completed && s.jobs[id].status != Failed then 1 else 0
  {
    CountAfterUpdate(s.order, s.jobs, s.jobs[id].spec.queue, IN_FLIGHT, id, FailedAt(s.jobs[id], reason, now));
  }

  /** A popped job is marked and counted, and otherwise as it was stored. */
  lemma PopOnlyMarks(s: Store, queue: JsString, now: int)
    requires Valid(s) && Pop(s, queue, now).1.Some?
    ensures var (t, job) := Pop(s, queue, now);
            var id := job.value.spec.id;
            && id in s.jobs && t == s.(jobs := s.jobs[id := job.value])
            && job.value == s.jobs[id].(status := Reserved, attempts := s.jobs[id].attempts + 1, updatedAt := now)
  {
    PopTakesOne(s, queue, now);
  }

  /** Calls about unknown jobs change nothing. */
  lemma UnknownJobsAreIgnored(s: Store, id: JobId, delayMs: int, reason: Reason, now: int)
    requires Valid(s) && id !in s.jobs
    ensures Release(s, id, delayMs, now) == s && Fail(s, id, reason, now) == s && Remove(s, id) == s
  {
    DropOfAbsent(s.order, id);
    assert s.jobs - {id} == s.jobs;
  }

  // ---- clearing, closing, pausing ----

  lemma {:induction false} CountOfNone(order: seq<JobId>, jobs: map<JobId, Job>, queue: JsString, statuses: set<Status>)
    requires Listed(order, jobs) && forall id :: id in Ids(order) ==> jobs[id].spec.queue != queue
    ensures Count(order, jobs, queue, statuses) == 0
  {
    if order != [] {
      CountOfNone(order[..|order| - 1], jobs, queue, statuses);
      var last := order[|order| - 1];
      assert last in Ids(order);
    }
  }

  /** A cleared tube has no job of any status; every other job is as it was, and so is what is paused. */
  lemma ClearEmptiesOneTube(s: Store, queue: JsString, status: Status)
    requires Valid(s)
    ensures var t := Clear(s, queue);
            && Valid(t) && SizeOf(t, queue, status) == 0 && t.paused == s.paused
            && (forall id :: id in t.jobs ==> id in s.jobs && t.jobs[id] == s.jobs[id])
            && (forall id :: id in s.jobs && s.jobs[id].spec.queue != queue ==> id in t.jobs)
  {
    ClearKeepsValid(s, queue);
    CountOfNone(Clear(s, queue).order, Clear(s, queue).jobs, queue, {status});
  }

  /** After a close any push is stored, and popped from its tube as soon as it is due: nothing is left, nothing is paused. */
  lemma CloseForgetsEverything(s: Store, job: Job, time: int)
    requires Waiting(job.status)
    ensures var (t, id) := Push(Close(s), job);
            && id == job.spec.id && t.order == [id] && t.jobs == map[id := job] && Valid(t)
            && (Pop(t, job.spec.queue, time).1.Some? <==> job.availableAt <= time)
  {
    var (t, id) := Push(Close(s), job);
    assert Close(s).order + [id] == [id] && t.order[..0] == [];
    PopOfOne(t, job, time);
  }

  lemma PopOfOne(t: Store, job: Job, time: int)
    requires t.order == [job.spec.id] && t.jobs == map[job.spec.id := job] && t.paused == {} && Waiting(job.status)
    ensures Valid(t) && (Pop(t, job.spec.queue, time).1.Some? <==> job.availableAt <= time)
  {
    assert t.order[..0] == [];
    assert Oldest([], t.jobs, job.spec.queue, time) == None;
  }

  /** A paused tube answers nothing, whatever waits on it; other tubes answer as before, and so does the tube once resumed. */
  lemma PauseHoldsBackOneTube(s: Store, queue: JsString, other: JsString, now: int)
    requires Valid(s)
    ensures var t := Pause(s, queue);
            && Valid(t) && t.jobs == s.jobs && t.order == s.order
            && Pop(t, queue, now) == (t, None)
            && (other != queue ==> Pop(t, other, now).1 == Pop(s, other, now).1)
            && (queue !in s.paused ==> Resume(t, queue) == s)
            && Pop(Resume(t, queue), queue, now).1.Some? == Oldest(s.order, s.jobs, queue, now).Some?
            && (other != queue ==> Pop(Resume(s, queue), other, now).1 == Pop(s, other, now).1)
  {
    assert queue !in s.paused ==> s.paused + {queue} - {queue} == s.paused;
  }

  /** The counts of a tube are numbers of stored jobs. */
  lemma SizesCountJobs(s: Store, queue: JsString, status: Status)
    requires Valid(s)
    ensures SizeOf(s, queue, status) == |set id | id in s.jobs && s.jobs[id].spec.queue == queue && s.jobs[id].status == status|
    ensures Size(s, queue)
            == |set id | id in s.jobs && s.jobs[id].spec.queue == queue && s.jobs[id].status != Completed && s.jobs[id].status != Failed|
  {
    CountIsCardinality(s.order, s.jobs, queue, {status});
    CountIsCardinality(s.order, s.jobs, queue, IN_FLIGHT);
    MatchingInWords(s, queue, status);
  }

  lemma MatchingInWords(s: Store, queue: JsString, status: Status)
    requires Valid(s)
    ensures Matching(Ids(s.order), s.jobs, queue, {status})
            == set id | id in s.jobs && s.jobs[id].spec.queue == queue && s.jobs[id].status == status
    ensures Matching(Ids(s.order), s.jobs, queue, IN_FLIGHT)
            == set id | id in s.jobs && s.jobs[id].spec.queue == queue && s.jobs[id].status != Completed && s.jobs[id].status != Failed
  {
  }
}
