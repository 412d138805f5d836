/**
 * One tube at a time: the local-storage driver keeps the jobs of a tube in one list
 * (src/connections/local-storage.connection.ts:67-121). The list of a tube is the flat job map restricted to it, and
 * what the driver does to lists is what the memory driver does to the map, but for two intended differences:
 * deduplication looks at one tube only, and `clear` also unpauses.
 */
module TubeStore {
  import opened JsStrings
  import opened Options
  import opened Jobs
  import opened MemoryStore

  /** What storage keeps under the key of a tube. */
  datatype Blob = Blob(jobs: seq<Job>, paused: bool)

  const EMPTY_BLOB := Blob([], false)

  // ---- the flat map, restricted to a tube ----

  function TubeJobs(order: seq<JobId>, jobs: map<JobId, Job>, queue: JsString): seq<Job>
    requires Listed(order, jobs)
  {
    if order == [] then []
    else
      var (front, last) := (order[..|order| - 1], order[|order| - 1]);
      if jobs[last].spec.queue == queue then TubeJobs(front, jobs, queue) + [jobs[last]] else TubeJobs(front, jobs, queue)
  }

  function TubeOf(s: Store, queue: JsString): Blob
    requires Listed(s.order, s.jobs)
  {
    Blob(TubeJobs(s.order, s.jobs, queue), queue in s.paused)
  }

  /** The first blocking job of one tube. */
  function FirstBlockingOn(order: seq<JobId>, jobs: map<JobId, Job>, uid: Option<JsString>, queue: JsString): (r: Option<JobId>)
    requires Listed(order, jobs)
    ensures r.Some? ==> r.value in Ids(order) && Blocks(jobs[r.value], uid)
  {
    if order == [] then None
    else
      var n := |order| - 1;
      var earlier := FirstBlockingOn(order[..n], jobs, uid, queue);
      var job := jobs[order[n]];
      if earlier.Some? then earlier
      else if job.spec.queue == queue && Blocks(job, uid) then Some(order[n])
      else None
  }

  /** `push` with deduplication scoped to the job's own tube. */
  function PushOnTube(s: Store, job: Job): (Store, JobId)
    requires Listed(s.order, s.jobs)
  {
    var existing :=
      if Deduplicated(job) then FirstBlockingOn(s.order, s.jobs, job.spec.uniqueId, job.spec.queue) else None;
    if existing.Some? then (s, existing.value) else (Put(s, job), job.spec.id)
  }

  /** `clear` that erases the paused flag along with the jobs. */
  function ClearTube(s: Store, queue: JsString): Store {
    Resume(Clear(s, queue), queue)
  }

  // ---- what the driver computes on a list ----

  function BlockingIndex(js: seq<Job>, uid: Option<JsString>): (r: Option<int>)
    ensures r.Some? ==> 0 <= r.value < |js|
  {
    if js == [] then None
    else
      var n := |js| - 1;
      var earlier := BlockingIndex(js[..n], uid);
      if earlier.Some? then earlier else if Blocks(js[n], uid) then Some(n) else None
  }

  lemma {:induction false} BlockingIsStable(js: seq<Job>, n: nat, uid: Option<JsString>)
    requires n <= |js|
    ensures BlockingIndex(js[..n], uid).Some? ==> BlockingIndex(js, uid) == BlockingIndex(js[..n], uid)
  {
    if n == |js| {
      assert js[..n] == js;
    } else {
      BlockingIsStable(js[..|js| - 1], n, uid);
      assert js[..|js| - 1][..n] == js[..n];
    }
  }

  predicate Due(job: Job, now: int) {
    Waiting(job.status) && job.availableAt <= now
  }

  function OldestIndex(js: seq<Job>, now: int): (r: Option<int>)
    ensures r.Some? ==> 0 <= r.value < |js| && Due(js[r.value], now)
  {
    if js == [] then None
    else
      var n := |js| - 1;
      var best := OldestIndex(js[..n], now);
      if Due(js[n], now) && (best.None? || js[n].spec.createdAt < js[best.value].spec.createdAt) then Some(n) else best
  }

  /** The list without the jobs of this id. */
  function Without(js: seq<Job>, id: JobId): (r: seq<Job>)
    ensures |r| <= |js|
  {
    if js == [] then []
    else
      var n := |js| - 1;
      if js[n].spec.id == id then Without(js[..n], id) else Without(js[..n], id) + [js[n]]
  }

  function IndexOf(js: seq<Job>, id: JobId): (r: Option<int>)
    ensures r.Some? ==> 0 <= r.value < |js| && js[r.value].spec.id == id
    ensures r.None? ==> forall k :: 0 <= k < |js| ==> js[k].spec.id != id
  {
    if js == [] then None
    else
      var n := |js| - 1;
      var earlier := IndexOf(js[..n], id);
      assert forall k :: 0 <= k < n ==> js[..n][k] == js[k];
      if earlier.Some? then earlier else if js[n].spec.id == id then Some(n) else None
  }

  function CountIn(js: seq<Job>, statuses: set<Status>): nat {
    if js == [] then 0
    else
      var n := |js| - 1;
      CountIn(js[..n], statuses) + if js[n].status in statuses then 1 else 0
  }

  // ---- the two agree ----

  lemma TubeJobsOfOneMore(front: seq<JobId>, last: JobId, jobs: map<JobId, Job>, queue: JsString)
    requires Listed(front, jobs) && last in jobs
    ensures Listed(front + [last], jobs)
    ensures TubeJobs(front + [last], jobs, queue)
            == if jobs[last].spec.queue == queue then TubeJobs(front, jobs, queue) + [jobs[last]]
               else TubeJobs(front, jobs, queue)
  {
  }

  lemma {:induction false} TubeJobsIgnoreOthers(order: seq<JobId>, jobs: map<JobId, Job>, more: map<JobId, Job>, queue: JsString)
    requires Listed(order, jobs) && Listed(order, more) && forall id :: id in Ids(order) ==> jobs[id] == more[id]
    ensures TubeJobs(order, jobs, queue) == TubeJobs(order, more, queue)
  {
    if order != [] {
      var last := order[|order| - 1];
      assert last in Ids(order);
      TubeJobsIgnoreOthers(order[..|order| - 1], jobs, more, queue);
    }
  }

  /** A tube lists exactly its own jobs, each once and as stored. */
  lemma {:induction false} TubeMembers(order: seq<JobId>, jobs: map<JobId, Job>, queue: JsString)
    requires Distinct(order) && Listed(order, jobs) && forall id :: id in Ids(order) ==> jobs[id].spec.id == id
    ensures var js := TubeJobs(order, jobs, queue);
            && (forall k :: 0 <= k < |js| ==>
                  var id := js[k].spec.id; id in Ids(order) && jobs[id] == js[k] && js[k].spec.queue == queue)
            && (forall id :: id in Ids(order) && jobs[id].spec.queue == queue ==> IndexOf(js, id).Some?)
            && (forall k :: 0 <= k < |js| ==> IndexOf(js, js[k].spec.id) == Some(k))
  {
    if order != [] {
      var (front, last) := (order[..|order| - 1], order[|order| - 1]);
      assert last in Ids(order);
      TubeMembers(front, jobs, queue);
      var js := TubeJobs(front, jobs, queue);
      if jobs[last].spec.queue == queue {
        assert (js + [jobs[last]])[..|js|] == js;
      }
    }
  }

  /** Replacing a job keeps its place in its tube and leaves the other tubes alone. */
  lemma {:induction false} TubeAfterUpdate(order: seq<JobId>, jobs: map<JobId, Job>, queue: JsString, id: JobId, job: Job)
    requires Distinct(order) && Listed(order, jobs) && id in Ids(order) && job.spec == jobs[id].spec
    requires forall x :: x in Ids(order) ==> jobs[x].spec.id == x
    ensures var (js, after) := (TubeJobs(order, jobs, queue), TubeJobs(order, jobs[id := job], queue));
            if job.spec.queue == queue then IndexOf(js, id).Some? && after == js[IndexOf(js, id).value := job]
            else after == js
  {
    var (front, last) := (order[..|order| - 1], order[|order| - 1]);
    assert last in Ids(order);
    var js := TubeJobs(front, jobs, queue);
    if jobs[last].spec.queue == queue {
      assert (js + [jobs[last]])[..|js|] == js;
    }
    if last == id {
      TubeJobsIgnoreOthers(front, jobs, jobs[id := job], queue);
      TubeMembers(front, jobs, queue);
    } else {
      TubeAfterUpdate(front, jobs, queue, id, job);
    }
  }

  /** Dropping ids from the map drops exactly their jobs from the lists. */
  lemma {:induction false} TubeAfterRemoval(order: seq<JobId>, jobs: map<JobId, Job>, queue: JsString, id: JobId)
    requires Distinct(order) && Listed(order, jobs) && forall x :: x in Ids(order) ==> jobs[x].spec.id == x
    ensures Listed(Drop(order, {id}), jobs - {id})
    ensures TubeJobs(Drop(order, {id}), jobs - {id}, queue) == Without(TubeJobs(order, jobs, queue), id)
  {
    DropKeepsTheRest(order, {id});
    if order != [] {
      var (front, last) := (order[..|order| - 1], order[|order| - 1]);
      assert last in Ids(order);
      TubeAfterRemoval(front, jobs, queue, id);
      DropKeepsTheRest(front, {id});
      var js := TubeJobs(front, jobs, queue);
      if jobs[last].spec.queue == queue {
        assert (js + [jobs[last]])[..|js|] == js;
      }
      if last != id {
        TubeJobsOfOneMore(Drop(front, {id}), last, jobs - {id}, queue);
      }
    }
  }

  lemma {:induction false} TubeAfterClear(order: seq<JobId>, jobs: map<JobId, Job>, gone: JsString, queue: JsString)
    requires Distinct(order) && Listed(order, jobs)
    ensures var away := OnTube(jobs, gone);
            && Listed(Drop(order, away), jobs - away)
            && TubeJobs(Drop(order, away), jobs - away, queue) == if queue == gone then [] else TubeJobs(order, jobs, queue)
  {
    var away := OnTube(jobs, gone);
    DropKeepsTheRest(order, away);
    if order != [] {
      var (front, last) := (order[..|order| - 1], order[|order| - 1]);
      assert last in Ids(order);
      TubeAfterClear(front, jobs, gone, queue);
      DropKeepsTheRest(front, away);
      if last !in away {
        TubeJobsOfOneMore(Drop(front, away), last, jobs - away, queue);
      }
    }
  }

  /** The scan of a tube finds what the scan of the whole map finds for that tube. */
  lemma {:induction false} ScansAgree(order: seq<JobId>, jobs: map<JobId, Job>, queue: JsString, now: int)
    requires Listed(order, jobs)
    ensures var (js, best) := (TubeJobs(order, jobs, queue), Oldest(order, jobs, queue, now));
            var i := OldestIndex(js, now);
            (i.Some? <==> best.Some?) && (i.Some? ==> js[i.value] == jobs[best.value])
  {
    if order != [] {
      var (front, last) := (order[..|order| - 1], order[|order| - 1]);
      assert last in Ids(order);
      ScansAgree(front, jobs, queue, now);
      var js := TubeJobs(front, jobs, queue);
      if jobs[last].spec.queue == queue {
        assert (js + [jobs[last]])[..|js|] == js;
      }
    }
  }

  lemma {:induction false} BlockingScansAgree(order: seq<JobId>, jobs: map<JobId, Job>, uid: Option<JsString>, queue: JsString)
    requires Listed(order, jobs) && forall x :: x in Ids(order) ==> jobs[x].spec.id == x
    ensures var (js, first) := (TubeJobs(order, jobs, queue), FirstBlockingOn(order, jobs, uid, queue));
            var i := BlockingIndex(js, uid);
            (i.Some? <==> first.Some?) && (i.Some? ==> js[i.value].spec.id == first.value)
  {
    if order != [] {
      var (front, last) := (order[..|order| - 1], order[|order| - 1]);
      assert last in Ids(order);
      BlockingScansAgree(front, jobs, uid, queue);
      var js := TubeJobs(front, jobs, queue);
      if jobs[last].spec.queue == queue {
        assert (js + [jobs[last]])[..|js|] == js;
      }
    }
  }

  lemma CountInOneMore(js: seq<Job>, job: Job, statuses: set<Status>)
    ensures CountIn(js + [job], statuses) == CountIn(js, statuses) + if job.status in statuses then 1 else 0
  {
    assert (js + [job])[..|js|] == js;
  }

  lemma {:induction false} CountsAgree(order: seq<JobId>, jobs: map<JobId, Job>, queue: JsString, statuses: set<Status>)
    requires Listed(order, jobs)
    ensures CountIn(TubeJobs(order, jobs, queue), statuses) == Count(order, jobs, queue, statuses)
  {
    if order != [] {
      var (front, last) := (order[..|order| - 1], order[|order| - 1]);
      CountsAgree(front, jobs, queue, statuses);
      CountInOneMore(TubeJobs(front, jobs, queue), jobs[last], statuses);
    }
  }

  lemma {:induction false} WithoutIsShorterExactlyIfFound(js: seq<Job>, id: JobId)
    ensures |Without(js, id)| != |js| <==> IndexOf(js, id).Some?
    ensures IndexOf(js, id).None? ==> Without(js, id) == js
  {
    if js != [] {
      WithoutIsShorterExactlyIfFound(js[..|js| - 1], id);
      assert js == js[..|js| - 1] + [js[|js| - 1]];
    }
  }

  // ---- each operation, seen on the lists ----

  lemma PopOnTubes(s: Store, queue: JsString, now: int, q: JsString)
    requires Valid(s)
    ensures var (js, i) := (TubeOf(s, queue).jobs, OldestIndex(TubeOf(s, queue).jobs, now));
            var (t, job) := Pop(s, queue, now);
            && Valid(t)
            && if queue in s.paused || i.None? then t == s && job.None?
               else
                 var reserved := ReservedAt(js[i.value], now);
                 && job == Some(reserved)
                 && TubeOf(t, q) == if q == queue then Blob(js[i.value := reserved], false) else TubeOf(s, q)
  {
    PopKeepsValid(s, queue, now);
    ScansAgree(s.order, s.jobs, queue, now);
    if queue !in s.paused && Pop(s, queue, now).1.Some? {
      PopTakesOne(s, queue, now);
      var job := Pop(s, queue, now).1.value;
      TubeMembers(s.order, s.jobs, queue);
      TubeAfterUpdate(s.order, s.jobs, q, job.spec.id, job);
    }
  }

  lemma PushOnTubes(s: Store, job: Job, q: JsString)
    requires Valid(s) && job.spec.id !in s.jobs
    ensures var (blob, i) := (TubeOf(s, job.spec.queue), BlockingIndex(TubeOf(s, job.spec.queue).jobs, job.spec.uniqueId));
            var (t, id) := PushOnTube(s, job);
            && Valid(t)
            && if Deduplicated(job) && i.Some? then t == s && id == blob.jobs[i.value].spec.id
               else
                 && id == job.spec.id
                 && TubeOf(t, q) == if q == job.spec.queue then blob.(jobs := blob.jobs + [job]) else TubeOf(s, q)
  {
    PutKeepsValid(s, job);
    BlockingScansAgree(s.order, s.jobs, job.spec.uniqueId, job.spec.queue);
    TubeJobsOfOneMore(s.order, job.spec.id, s.jobs[job.spec.id := job], q);
    TubeJobsIgnoreOthers(s.order, s.jobs, s.jobs[job.spec.id := job], q);
  }

  /** Rewriting a stored job in its tube is rewriting it in the map. */
  lemma UpdateOnTubes(s: Store, id: JobId, job: Job, q: JsString)
    requires Valid(s) && id in s.jobs && job.spec == s.jobs[id].spec
    ensures var t := s.(jobs := s.jobs[id := job]);
            var i := IndexOf(TubeOf(s, q).jobs, id);
            && Valid(t)
            && (i.Some? <==> q == job.spec.queue) && (i.Some? ==> TubeOf(s, q).jobs[i.value] == s.jobs[id])
            && TubeOf(t, q) == if i.Some? then Blob(TubeOf(s, q).jobs[i.value := job], q in s.paused) else TubeOf(s, q)
  {
    TubeMembers(s.order, s.jobs, q);
    TubeAfterUpdate(s.order, s.jobs, q, id, job);
  }

  lemma RewriteOnTubes(s: Store, queue: JsString, index: int, job: Job)
    requires Valid(s) && 0 <= index < |TubeOf(s, queue).jobs| && job.spec == TubeOf(s, queue).jobs[index].spec
    ensures var (blob, id, t) := (TubeOf(s, queue), job.spec.id, s.(jobs := s.jobs[job.spec.id := job]));
            && id in s.jobs && s.jobs[id] == blob.jobs[index] && Valid(t)
            && forall q :: TubeOf(t, q) == if q == queue then blob.(jobs := blob.jobs[index := job]) else TubeOf(s, q)
  {
    TubeMembers(s.order, s.jobs, queue);
    var t := s.(jobs := s.jobs[job.spec.id := job]);
    var blob := TubeOf(s, queue);
    UpdateOnTubes(s, job.spec.id, job, queue);
    forall q ensures TubeOf(t, q) == if q == queue then blob.(jobs := blob.jobs[index := job]) else TubeOf(s, q) {
      UpdateOnTubes(s, job.spec.id, job, q);
    }
  }

  lemma RemoveOnTubes(s: Store, id: JobId, q: JsString)
    requires Valid(s)
    ensures var (t, i) := (Remove(s, id), IndexOf(TubeOf(s, q).jobs, id));
            && Valid(t)
            && (i.Some? <==> id in s.jobs && s.jobs[id].spec.queue == q)
            && TubeOf(t, q) == TubeOf(s, q).(jobs := Without(TubeOf(s, q).jobs, id))
            && (i.None? ==> TubeOf(t, q) == TubeOf(s, q))
  {
    RemoveKeepsValid(s, id);
    TubeMembers(s.order, s.jobs, q);
    TubeAfterRemoval(s.order, s.jobs, q, id);
    WithoutIsShorterExactlyIfFound(TubeOf(s, q).jobs, id);
  }

  lemma RemoveFromTube(s: Store, id: JobId, queue: JsString)
    requires Valid(s) && IndexOf(TubeOf(s, queue).jobs, id).Some?
    ensures Valid(Remove(s, id))
    ensures forall q :: TubeOf(Remove(s, id), q)
                        == if q == queue then TubeOf(s, q).(jobs := Without(TubeOf(s, q).jobs, id)) else TubeOf(s, q)
  {
    RemoveOnTubes(s, id, queue);
    forall q { RemoveOnTubes(s, id, q); }
  }

  lemma RemoveOfAbsent(s: Store, id: JobId)
    requires Valid(s) && id !in s.jobs
    ensures Remove(s, id) == s
  {
    DropOfAbsent(s.order, id);
    assert s.jobs - {id} == s.jobs;
  }

  lemma ClearOnTubes(s: Store, queue: JsString)
    requires Valid(s)
    ensures Valid(ClearTube(s, queue))
    ensures forall q :: TubeOf(ClearTube(s, queue), q) == if q == queue then EMPTY_BLOB else TubeOf(s, q)
  {
    ClearKeepsValid(s, queue);
    forall q ensures TubeOf(ClearTube(s, queue), q) == if q == queue then EMPTY_BLOB else TubeOf(s, q) {
      TubeAfterClear(s.order, s.jobs, queue, q);
    }
  }

  // ---- where the scope of deduplication shows ----

  /** Scanning one tube or all tubes gives the same answer exactly when the first blocking job, if any, is on that tube. */
  lemma {:induction false} ScopesAgreeExactly(order: seq<JobId>, jobs: map<JobId, Job>, uid: Option<JsString>, queue: JsString)
    requires Distinct(order) && Listed(order, jobs)
    ensures var all := FirstBlocking(order, jobs, uid);
            FirstBlockingOn(order, jobs, uid, queue) == all <==> (all.Some? ==> jobs[all.value].spec.queue == queue)
    ensures FirstBlockingOn(order, jobs, uid, queue).Some? ==> FirstBlocking(order, jobs, uid).Some?
    ensures FirstBlockingOn(order, jobs, uid, queue).Some? ==>
              jobs[FirstBlockingOn(order, jobs, uid, queue).value].spec.queue == queue
  {
    if order != [] {
      var last := order[|order| - 1];
      assert last in Ids(order);
      ScopesAgreeExactly(order[..|order| - 1], jobs, uid, queue);
    }
  }

  /** The two drivers answer a push alike exactly when the earliest in-flight holder of the key, if any, shares the tube. */
  lemma PushesAgreeExactly(s: Store, job: Job)
    requires Valid(s) && job.spec.id !in s.jobs
    ensures PushOnTube(s, job) == Push(s, job)
            <==> (Deduplicated(job) ==>
                    var first := FirstBlocking(s.order, s.jobs, job.spec.uniqueId);
                    first.Some? ==> s.jobs[first.value].spec.queue == job.spec.queue)
  {
    ScopesAgreeExactly(s.order, s.jobs, job.spec.uniqueId, job.spec.queue);
  }
}
