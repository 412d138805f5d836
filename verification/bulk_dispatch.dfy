/** Bulk dispatch: a loop of pushes (src/connections/base.connection.ts:80-88), and what becomes of each entry. */
module BulkDispatch {
  import opened JsStrings
  import opened Options
  import opened CanonicalKey
  import opened Jobs
  import opened MemoryStore
  import opened MemoryStoreLaws

  /** What the first `n` pushes leave in the store, and the ids they return. */
  function PushFirst(s: Store, jobs: seq<Job>, n: nat): (r: (Store, seq<JobId>))
    requires Valid(s) && n <= |jobs|
    ensures Valid(r.0) && |r.1| == n
  {
    if n == 0 then (s, [])
    else
      var (before, ids) := PushFirst(s, jobs, n - 1);
      var (after, id) := Push(before, jobs[n - 1]);
      PushKeepsValid(before, jobs[n - 1]);
      (after, ids + [id])
  }

  /** The first `n` pushes have led to this store and these ids. */
  predicate Progress(s: Store, jobs: seq<Job>, n: nat, t: Store, ids: seq<JobId>) {
    Valid(s) && n <= |jobs| && PushFirst(s, jobs, n) == (t, ids)
  }

  lemma NextOfPushFirst(s: Store, jobs: seq<Job>, n: nat)
    requires Valid(s) && n < |jobs|
    ensures var ((before, ids), job) := (PushFirst(s, jobs, n), jobs[n]);
            PushFirst(s, jobs, n + 1) == (Push(before, job).0, ids + [Push(before, job).1])
  {
  }

  function NewJobs(batch: seq<Dispatch>): (jobs: seq<Job>)
    ensures Makes(batch, jobs)
  {
    seq(|batch|, i requires 0 <= i < |batch| => NewJob(batch[i]))
  }

  /** `jobs` are the jobs that the dispatches make. */
  predicate Makes(batch: seq<Dispatch>, jobs: seq<Job>) {
    |jobs| == |batch| && forall i :: 0 <= i < |batch| ==> jobs[i] == NewJob(batch[i])
  }

  function PushAll(s: Store, batch: seq<Dispatch>): (r: (Store, seq<JobId>))
    requires Valid(s)
    ensures Valid(r.0) && |r.1| == |batch|
  {
    PushFirst(s, NewJobs(batch), |batch|)
  }

  lemma {:induction false} PushFirstOfPrefix(s: Store, jobs: seq<Job>, more: seq<Job>, n: nat)
    requires Valid(s) && n <= |jobs| && jobs <= more
    ensures PushFirst(s, jobs, n) == PushFirst(s, more, n)
  {
    if n > 0 {
      PushFirstOfPrefix(s, jobs, more, n - 1);
    }
  }

  lemma PushAllOneMore(s: Store, batch: seq<Dispatch>, d: Dispatch, job: Job)
    requires Valid(s) && job == NewJob(d)
    ensures var (before, ids) := PushAll(s, batch);
            PushAll(s, batch + [d]) == (Push(before, job).0, ids + [Push(before, job).1])
  {
    NewJobsOneMore(batch, d);
    PushFirstOneMore(s, NewJobs(batch), job);
  }

  lemma NewJobsOneMore(batch: seq<Dispatch>, d: Dispatch)
    ensures NewJobs(batch + [d]) == NewJobs(batch) + [NewJob(d)]
  {
  }

  lemma PushFirstOneMore(s: Store, jobs: seq<Job>, job: Job)
    requires Valid(s)
    ensures var (before, ids) := PushFirst(s, jobs, |jobs|);
            PushFirst(s, jobs + [job], |jobs| + 1) == (Push(before, job).0, ids + [Push(before, job).1])
  {
    var more := jobs + [job];
    PushFirstOfPrefix(s, jobs, more, |jobs|);
    NextOfPushFirst(s, more, |jobs|);
    assert more[|jobs|] == job;
  }

  /** A repeated dispatch that follows its original in a batch gets the original's id and adds nothing. */
  lemma BulkDeduplicates(s: Store, batch: seq<Dispatch>, d: Dispatch, again: Dispatch)
    requires Valid(s) && d.id !in PushAll(s, batch).0.jobs
    requires OptsIn(d) && OptsIn(again) && d.name == again.name
    requires WellFormed(d.data) && WellFormed(again.data) && Same(d.data, again.data)
    ensures var (t, ids) := PushAll(s, batch + [d]);
            PushAll(s, batch + [d] + [again]) == (t, ids + [ids[|batch|]])
  {
    PushAllOneMore(s, batch, d, NewJob(d));
    PushAllOneMore(s, batch + [d], again, NewJob(again));
    KeyOrderFeedsDedup(PushAll(s, batch).0, d, again);
  }

  // ---- what becomes of each entry ----

  /** Every job has an id of its own, and none that is in use. */
  predicate FreshIds(s: Store, jobs: seq<Job>) {
    && (forall i :: 0 <= i < |jobs| ==> jobs[i].spec.id !in s.jobs)
    && (forall i, j :: 0 <= i < j < |jobs| ==> jobs[i].spec.id != jobs[j].spec.id)
  }

  /** Nothing is lost or moved: the later store begins as the earlier one. */
  predicate Extends(s: Store, t: Store) {
    && s.order <= t.order && s.paused == t.paused
    && forall id :: id in s.jobs ==> id in t.jobs && t.jobs[id] == s.jobs[id]
  }

  /** What was left and answered stays. */
  predicate Keeps(s: Store, some: seq<JobId>, t: Store, ids: seq<JobId>) {
    Extends(s, t) && some <= ids
  }

  /** What one push does, as far as the others are concerned. */
  predicate OneMore(before: Store, some: seq<JobId>, after: Store, ids: seq<JobId>, job: Job) {
    && Keeps(before, some, after, ids)
    && (job.spec.uniqueId.None? ==> Appended(before, after, job) && ids == some + [job.spec.id])
  }

  lemma PushIsOneMore(s: Store, some: seq<JobId>, job: Job)
    requires Valid(s) && job.spec.id !in s.jobs
    ensures OneMore(s, some, Push(s, job).0, some + [Push(s, job).1], job)
  {
    var _ := PushAppendsOrDefers(s, job);
  }

  lemma NextPush(s: Store, jobs: seq<Job>, n: nat, before: Store, some: seq<JobId>, after: Store, ids: seq<JobId>)
    requires Valid(s) && n < |jobs| && jobs[n].spec.id !in before.jobs
    requires PushFirst(s, jobs, n) == (before, some) && PushFirst(s, jobs, n + 1) == (after, ids)
    ensures OneMore(before, some, after, ids, jobs[n])
  {
    PushIsOneMore(before, some, jobs[n]);
  }

  lemma KeepsOnward(s: Store, some: seq<JobId>, t: Store, more: seq<JobId>, u: Store, ids: seq<JobId>)
    requires Keeps(s, some, t, more) && Keeps(t, more, u, ids)
    ensures Keeps(s, some, u, ids)
  {
  }

  lemma PushAddsNoOtherId(s: Store, job: Job)
    requires Valid(s)
    ensures Push(s, job).0.jobs.Keys <= s.jobs.Keys + {job.spec.id}
  {
  }

  /** The first `n` pushes add none but their own ids. */
  lemma {:induction false} OtherIdsStayUnused(s: Store, jobs: seq<Job>, n: nat, t: Store, id: JobId)
    requires Valid(s) && n <= |jobs| && t == PushFirst(s, jobs, n).0
    requires id !in s.jobs && forall k :: 0 <= k < n ==> jobs[k].spec.id != id
    ensures id !in t.jobs
  {
    if n > 0 {
      var before := PushFirst(s, jobs, n - 1).0;
      OtherIdsStayUnused(s, jobs, n - 1, before, id);
      NextOfPushFirst(s, jobs, n - 1);
      PushAddsNoOtherId(before, jobs[n - 1]);
    }
  }

  lemma LaterIdsStayFresh(s: Store, jobs: seq<Job>, n: nat, t: Store)
    requires Valid(s) && FreshIds(s, jobs) && n < |jobs| && t == PushFirst(s, jobs, n).0
    ensures jobs[n].spec.id !in t.jobs
  {
    OtherIdsStayUnused(s, jobs, n, t, jobs[n].spec.id);
  }

  lemma NextFreshPush(s: Store, jobs: seq<Job>, n: nat, after: Store, ids: seq<JobId>) returns (before: Store, some: seq<JobId>)
    requires Valid(s) && FreshIds(s, jobs) && n < |jobs| && PushFirst(s, jobs, n + 1) == (after, ids)
    ensures PushFirst(s, jobs, n) == (before, some) && OneMore(before, some, after, ids, jobs[n])
  {
    before, some := PushFirst(s, jobs, n).0, PushFirst(s, jobs, n).1;
    LaterIdsStayFresh(s, jobs, n, before);
    NextPush(s, jobs, n, before, some, after, ids);
  }

  /** A store, and the ids answered so far. */
  type Pushed = (Store, seq<JobId>)

  lemma {:induction false} KeepsAlong(steps: seq<Pushed>, n: nat, m: nat)
    requires n <= m < |steps|
    requires forall k :: 0 <= k < |steps| - 1 ==> Keeps(steps[k].0, steps[k].1, steps[k + 1].0, steps[k + 1].1)
    ensures Keeps(steps[n].0, steps[n].1, steps[m].0, steps[m].1)
  {
    if n < m {
      KeepsAlong(steps, n, m - 1);
      KeepsOnward(steps[n].0, steps[n].1, steps[m - 1].0, steps[m - 1].1, steps[m].0, steps[m].1);
    }
  }

  lemma NextIsKept(s: Store, jobs: seq<Job>, n: nat, before: Pushed, after: Pushed)
    requires Valid(s) && FreshIds(s, jobs) && n < |jobs|
    requires PushFirst(s, jobs, n) == before && PushFirst(s, jobs, n + 1) == after
    ensures Keeps(before.0, before.1, after.0, after.1)
  {
    var _, _ := NextFreshPush(s, jobs, n, after.0, after.1);
  }

  /** What the first `n` pushes left and answered stays. */
  lemma PrefixStays(s: Store, jobs: seq<Job>, n: nat, before: Store, some: seq<JobId>, m: nat, t: Store, ids: seq<JobId>)
    requires Valid(s) && FreshIds(s, jobs) && n <= m <= |jobs|
    requires PushFirst(s, jobs, n) == (before, some) && PushFirst(s, jobs, m) == (t, ids)
    ensures Keeps(before, some, t, ids)
  {
    var steps := seq(|jobs| + 1, k requires 0 <= k <= |jobs| => PushFirst(s, jobs, k));
    forall k | 0 <= k < |jobs| ensures Keeps(steps[k].0, steps[k].1, steps[k + 1].0, steps[k + 1].1) {
      NextIsKept(s, jobs, k, steps[k], steps[k + 1]);
    }
    KeepsAlong(steps, n, m);
  }

  /** What an entry leaves: itself, after everything earlier, or nothing but the id of its key's first holder. */
  ghost predicate Answered(before: Store, t: Store, job: Job, id: JobId, i: nat)
    requires Valid(before)
  {
    var uid := job.spec.uniqueId;
    if uid.Some? && uid.value != [] && exists x :: HoldsKey(before, x, uid.value)
    then FirstHolder(before, uid.value, i) && id == before.order[i] && id in t.jobs && t.jobs[id] == before.jobs[id]
    else id == job.spec.id && before.order + [id] <= t.order && id in t.jobs && t.jobs[id] == job
  }

  lemma PushAnswers(s: Store, job: Job) returns (i: nat)
    requires Valid(s) && job.spec.id !in s.jobs
    ensures Answered(s, Push(s, job).0, job, Push(s, job).1, i)
  {
    i := PushAppendsOrDefers(s, job);
  }

  lemma AnsweredStays(before: Store, after: Store, some: seq<JobId>, t: Store, ids: seq<JobId>, job: Job, n: nat, i: nat)
    requires Valid(before) && n < |some| && Answered(before, after, job, some[n], i) && Keeps(after, some, t, ids)
    ensures Answered(before, t, job, ids[n], i)
  {
    assert some[n] == ids[n];
  }

  lemma EachJobIsAnswered(s: Store, jobs: seq<Job>, n: nat, before: Store, t: Store, ids: seq<JobId>) returns (i: nat)
    requires Valid(s) && FreshIds(s, jobs) && n < |jobs|
    requires PushFirst(s, jobs, n).0 == before && PushFirst(s, jobs, |jobs|) == (t, ids)
    ensures Valid(before) && Answered(before, t, jobs[n], ids[n], i)
  {
    var after, some;
    i, after, some := NextIsAnswered(s, jobs, n, before);
    RestStays(s, jobs, n, after, some, t, ids);
    AnsweredStays(before, after, some, t, ids, jobs[n], n, i);
  }

  lemma RestStays(s: Store, jobs: seq<Job>, n: nat, after: Store, some: seq<JobId>, t: Store, ids: seq<JobId>)
    requires Valid(s) && FreshIds(s, jobs) && n < |jobs|
    requires PushFirst(s, jobs, n + 1) == (after, some) && PushFirst(s, jobs, |jobs|) == (t, ids)
    ensures Keeps(after, some, t, ids)
  {
    PrefixStays(s, jobs, n + 1, after, some, |jobs|, t, ids);
  }

  lemma NextIsAnswered(s: Store, jobs: seq<Job>, n: nat, before: Store) returns (i: nat, after: Store, ids: seq<JobId>)
    requires Valid(s) && FreshIds(s, jobs) && n < |jobs| && PushFirst(s, jobs, n).0 == before
    ensures PushFirst(s, jobs, n + 1) == (after, ids) && |ids| == n + 1
    ensures Valid(before) && Answered(before, after, jobs[n], ids[n], i)
  {
    LaterIdsStayFresh(s, jobs, n, before);
    NextOfPushFirst(s, jobs, n);
    i := PushAnswers(before, jobs[n]);
    after, ids := PushFirst(s, jobs, n + 1).0, PushFirst(s, jobs, n + 1).1;
  }

  /** A bulk dispatch answers every entry: each id is that of a stored job, the entry's own or its key's first holder. */
  lemma BulkAnswersEachEntry(s: Store, batch: seq<Dispatch>, n: nat) returns (i: nat)
    requires Valid(s) && FreshIds(s, NewJobs(batch)) && n < |batch|
    ensures var (t, ids) := PushAll(s, batch);
            Answered(PushFirst(s, NewJobs(batch), n).0, t, NewJobs(batch)[n], ids[n], i) && NewJobs(batch)[n] == NewJob(batch[n])
  {
    var (t, ids) := PushAll(s, batch);
    i := EachJobIsAnswered(s, NewJobs(batch), n, PushFirst(s, NewJobs(batch), n).0, t, ids);
  }

  predicate Keyless(jobs: seq<Job>) {
    forall i :: 0 <= i < |jobs| ==> jobs[i].spec.uniqueId.None?
  }

  /** The first `n` jobs, in their order, after what was there. */
  predicate AppendedFirst(s: Store, t: Store, jobs: seq<Job>, ids: seq<JobId>, n: nat)
    requires n <= |jobs|
  {
    && |ids| == n && t.order == s.order + ids
    && forall i :: 0 <= i < n ==> ids[i] == jobs[i].spec.id && ids[i] in t.jobs && t.jobs[ids[i]] == jobs[i]
  }

  lemma {:induction false} KeylessJobsAreAppended(s: Store, jobs: seq<Job>, n: nat, t: Store, ids: seq<JobId>)
    requires Valid(s) && FreshIds(s, jobs) && Keyless(jobs) && n <= |jobs| && PushFirst(s, jobs, n) == (t, ids)
    ensures AppendedFirst(s, t, jobs, ids, n)
  {
    if n > 0 {
      var before, some := NextFreshPush(s, jobs, n - 1, t, ids);
      KeylessJobsAreAppended(s, jobs, n - 1, before, some);
      OneMoreIsAppended(s, jobs, n, before, some, t, ids);
    }
  }

  lemma OneMoreIsAppended(s: Store, jobs: seq<Job>, n: nat, before: Store, some: seq<JobId>, t: Store, ids: seq<JobId>)
    requires Keyless(jobs) && 0 < n <= |jobs| && AppendedFirst(s, before, jobs, some, n - 1)
    requires OneMore(before, some, t, ids, jobs[n - 1])
    ensures AppendedFirst(s, t, jobs, ids, n)
  {
  }

  /** A batch without keys appends exactly its jobs, in batch order, and leaves what was there. */
  lemma BulkWithoutKeysAppends(s: Store, batch: seq<Dispatch>)
    requires Valid(s) && FreshIds(s, NewJobs(batch)) && forall i :: 0 <= i < |batch| ==> batch[i].options.uniqueFor.None?
    ensures var (t, ids) := PushAll(s, batch); Extends(s, t) && AppendedFirst(s, t, NewJobs(batch), ids, |batch|)
  {
    var (t, ids) := PushAll(s, batch);
    KeylessJobsAreAppended(s, NewJobs(batch), |batch|, t, ids);
    PrefixStays(s, NewJobs(batch), 0, s, [], |batch|, t, ids);
  }
}
