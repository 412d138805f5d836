/**
 * The transactions of the IndexedDB driver against the insertion-ordered map of the memory driver: on equal jobs they
 * leave equal jobs and give equal answers, save that the table knows no insertion order.
 */
module IndexedDbRefinement {
  import opened JsStrings
  import opened Options
  import opened Jobs
  import opened WorkerPolicy
  import opened IndexedDbModel
  import MS = MemoryStore

  /** Removing, failing and releasing do to the table what they do to the map. */
  lemma SettlingRefines(s: MS.Store, id: JobId, v: Verdict, now: int)
    requires MS.Valid(s)
    ensures SettleTx(s.jobs, id, v, now) == SettleStore(s, id, v, now).jobs
  {
  }

  lemma ClearingRefines(s: MS.Store, queue: JsString)
    requires MS.Valid(s)
    ensures ClearTx(s.jobs, queue) == MS.Clear(s, queue).jobs
  {
  }

  /** No two jobs in flight have this unique id, as is so in every sound run. */
  predicate OneHolder(jobs: Table, uid: Option<JsString>) {
    forall a, b :: a in jobs && b in jobs && Blocks(jobs[a], uid) && Blocks(jobs[b], uid) ==> a == b
  }

  /** Where a key has one holder, the last one in key order is the first one in insertion order. */
  lemma HolderRefines(s: MS.Store, uid: Option<JsString>, existing: Option<JobId>)
    requires MS.Valid(s) && OneHolder(s.jobs, uid) && LastBlocking(s.jobs, uid, existing)
    ensures existing == MS.FirstBlocking(s.order, s.jobs, uid)
  {
    var first := MS.FirstBlocking(s.order, s.jobs, uid);
    if first.Some? {
      var id := first.value;
      assert id in s.jobs && Blocks(s.jobs[id], uid);
    } else if existing.Some? {
      MS.NothingBlocks(s.order, s.jobs, uid, existing.value);
    }
  }

  /** Where keys in flight are unique, a push leaves the jobs that the map's push leaves and answers the same id. */
  lemma PushRefines(s: MS.Store, job: Job, existing: Option<JobId>)
    requires MS.Valid(s) && Unique(s.jobs) && LastBlocking(s.jobs, job.spec.uniqueId, existing)
    ensures PushTx(s.jobs, job, existing) == (MS.Push(s, job).0.jobs, MS.Push(s, job).1)
  {
    if Deduplicated(job) {
      UniqueMeansOneHolder(s.jobs, job.spec.uniqueId);
      HolderRefines(s, job.spec.uniqueId, existing);
    }
  }

  lemma UniqueMeansOneHolder(jobs: Table, uid: Option<JsString>)
    requires Unique(jobs) && uid.Some? && Truthy(uid.value)
    ensures OneHolder(jobs, uid)
  {
    forall a, b | a in jobs && b in jobs && Blocks(jobs[a], uid) && Blocks(jobs[b], uid) ensures a == b {
      assert SameKeyInFlight(jobs[a], jobs[b]);
    }
  }

  /** No two jobs that could be popped now were created at the same time. */
  predicate NoTies(jobs: Table, queue: JsString, now: int) {
    forall a, b :: a in jobs && b in jobs && Eligible(jobs[a], queue, now) && Eligible(jobs[b], queue, now) && a != b ==>
      jobs[a].spec.createdAt != jobs[b].spec.createdAt
  }

  /** Where creation times do not tie, the cursor scan chooses what the map's scan finds. */
  lemma ScanRefines(s: MS.Store, queue: JsString, now: int, chosen: Option<JobId>)
    requires MS.Valid(s) && NoTies(s.jobs, queue, now) && Chosen(s.jobs, queue, now, chosen)
    ensures chosen == MS.Oldest(s.order, s.jobs, queue, now)
  {
    var i := MS.OldestIsLeast(s.order, s.jobs, queue, now);
    match chosen {
      case None =>
        OldestIsStored(s, queue, now);
      case Some(best) =>
        var k := PositionOf(s.order, best);
        assert Eligible(s.jobs[s.order[k]], queue, now);
    }
  }

  lemma OldestIsStored(s: MS.Store, queue: JsString, now: int)
    requires MS.Valid(s)
    ensures var oldest := MS.Oldest(s.order, s.jobs, queue, now);
            oldest.Some? ==> var id := oldest.value; id in s.jobs && Eligible(s.jobs[id], queue, now)
  {
  }

  lemma {:induction false} PositionOf(order: seq<JobId>, id: JobId) returns (k: nat)
    requires id in MS.Ids(order)
    ensures k < |order| && order[k] == id
  {
    k := |order| - 1;
    if order[k] != id {
      k := PositionOf(order[..k], id);
    }
  }

  /** Undisturbed and without ties, the transactions of a pop do what the map's pop does. */
  lemma PopRefines(s: MS.Store, queue: JsString, now: int, chosen: Option<JobId>)
    requires MS.Valid(s) && queue !in s.paused && NoTies(s.jobs, queue, now) && Chosen(s.jobs, queue, now, chosen)
    ensures var (t, job) := MS.Pop(s, queue, now);
            match chosen
            case None => job.None? && t == s
            case Some(id) => job == Some(ReservedAt(s.jobs[id], now)) && ReserveTx(s.jobs, s.jobs[id], now) == t.jobs
  {
    ScanRefines(s, queue, now, chosen);
  }
}
