/**
 * What every disciplined run of the worker protocol keeps: exclusive reservation, the agreement of each
 * held job with the store, the attempt budget, and the ledger of outcomes behind every job's status.
 */
module WorkerInvariants {
  import opened Options
  import opened Jobs
  import opened WorkerPolicy
  import opened WorkerProtocol
  import MS = MemoryStore

  predicate Retried(policy: Policy, spec: JobSpec, k: int, outcome: Outcome) {
    Decide(policy, spec, k, outcome).Retry?
  }

  /** Every reservation but a current one has an outcome; all outcomes but the last led to a retry. */
  predicate Ledger(policy: Policy, r: Record) {
    && r.born.attempts == 0
    && |r.pops| == |r.outcomes| + (if r.holder.Some? then 1 else 0)
    && |r.pops| <= Budget(r.born.spec)
    && (forall k :: 0 <= k < |r.outcomes| && k + 1 < |r.pops| ==>
          Retried(policy, r.born.spec, k + 1, r.outcomes[k]))
  }

  /** The verdict of the last attempt that has ended. */
  function LastVerdict(policy: Policy, r: Record): Verdict
    requires r.outcomes != []
  {
    Decide(policy, r.born.spec, |r.outcomes|, r.outcomes[|r.outcomes| - 1])
  }

  /** The status of a stored job is the verdict of its last attempt, unless it was failed from outside; Reserved means held. */
  predicate StoredAs(policy: Policy, r: Record, job: Job) {
    && job.spec == r.born.spec && job.attempts == |r.pops| && !r.wiped
    && match job.status
       case Pending | Delayed => r.holder.None? && !r.failedOutside && (r.outcomes != [] ==> LastVerdict(policy, r).Retry?)
       case Reserved => r.holder.Some? && !r.failedOutside
       case Failed =>
         r.holder.None? && if r.failedOutside then r.outcomes != [] ==> LastVerdict(policy, r).Retry?
                           else r.outcomes != [] && LastVerdict(policy, r).GiveUp?
       case _ => false
  }

  /** A job that is gone was wiped, or its last attempt succeeded. */
  predicate Gone(policy: Policy, r: Record) {
    r.wiped || (r.holder.None? && r.outcomes != [] && LastVerdict(policy, r).Done?)
  }

  predicate JobOk(sys: System, s: State, id: JobId)
    requires id in s.records
  {
    var r := s.records[id];
    && r.born.spec.id == id
    && Ledger(sys.policy, r)
    && (if id in s.store.jobs then StoredAs(sys.policy, r, s.store.jobs[id]) else Gone(sys.policy, r))
    && (r.holder.Some? ==> r.holder.value in s.phase && s.phase[r.holder.value].Holding()
                           && s.phase[r.holder.value].job.spec.id == id)
  }

  /** A worker's reservation is its own, and the store, if it still has the job, has it exactly as the worker sees it. */
  predicate WorkerOk(s: State, w: WorkerId)
    requires w in s.phase
  {
    s.phase[w].Holding() ==>
      var job := s.phase[w].job;
      var id := job.spec.id;
      && id in s.records && s.records[id].holder == Some(w)
      && job.spec == s.records[id].born.spec && job.status == Reserved && job.attempts == |s.records[id].pops|
      && (id in s.store.jobs ==> s.store.jobs[id] == job)
  }

  predicate Inv(sys: System, s: State) {
    && MS.Valid(s.store) && s.phase.Keys == sys.tubeOf.Keys
    && s.store.jobs.Keys <= s.records.Keys
    && (forall id :: id in s.records ==> JobOk(sys, s, id))
    && (forall w :: w in s.phase ==> WorkerOk(s, w))
  }

  lemma InitSatisfiesInv(sys: System, now: int)
    ensures Inv(sys, Init(sys, now))
  {
  }

  lemma PushKeepsJobs(sys: System, s: State, d: Dispatch, id: JobId)
    requires Inv(sys, s) && Enabled(s, Push(d)) && id in StepPush(s, d).records
    ensures JobOk(sys, StepPush(s, d), id)
  {
  }

  lemma PushKeepsInv(sys: System, s: State, d: Dispatch)
    requires Inv(sys, s) && Enabled(s, Push(d))
    ensures Inv(sys, StepPush(s, d))
  {
    var t := StepPush(s, d);
    MS.PushKeepsValid(s.store, NewJob(d));
    forall id | id in t.records ensures JobOk(sys, t, id) {
      PushKeepsJobs(sys, s, d, id);
    }
    forall w | w in t.phase ensures WorkerOk(t, w) {
      assert WorkerOk(s, w);
    }
  }

  /** A pop that takes a job takes one that nobody holds. */
  lemma PopTakesAFreeJob(sys: System, s: State, w: WorkerId)
    requires Inv(sys, s) && Enabled(s, Pop(w))
    ensures var t := StepPop(sys, s, w);
            if t.phase[w].Idle? then t == s
            else
              var job := t.phase[w].job;
              var id := job.spec.id;
              && id in s.store.jobs && s.records[id].holder.None?
              && Eligible(s.store.jobs[id], sys.tubeOf[w], s.now) && job == ReservedAt(s.store.jobs[id], s.now)
              && t == s.(store := s.store.(jobs := s.store.jobs[id := job]), phase := s.phase[w := Popped(job)],
                         records := s.records[id := Reservation(s.records[id], w, s.now)])
  {
    var (_, popped) := MS.Pop(s.store, sys.tubeOf[w], s.now);
    if popped.Some? {
      MS.PopTakesOne(s.store, sys.tubeOf[w], s.now);
      assert JobOk(sys, s, popped.value.spec.id);
    }
  }

  lemma PopKeepsJobs(sys: System, s: State, w: WorkerId, id: JobId)
    requires Inv(sys, s) && Enabled(s, Pop(w)) && id in s.records
    ensures JobOk(sys, StepPop(sys, s, w), id)
  {
    PopTakesAFreeJob(sys, s, w);
    assert JobOk(sys, s, id);
  }

  lemma PopKeepsWorkers(sys: System, s: State, w: WorkerId, v: WorkerId)
    requires Inv(sys, s) && Enabled(s, Pop(w)) && v in s.phase
    ensures WorkerOk(StepPop(sys, s, w), v)
  {
    PopTakesAFreeJob(sys, s, w);
    assert WorkerOk(s, v);
    if v == w && !StepPop(sys, s, w).phase[w].Idle? {
      assert JobOk(sys, s, StepPop(sys, s, w).phase[w].job.spec.id);
    }
  }

  lemma PopKeepsInv(sys: System, s: State, w: WorkerId)
    requires Inv(sys, s) && Enabled(s, Pop(w))
    ensures Inv(sys, StepPop(sys, s, w))
  {
    MS.PopKeepsValid(s.store, sys.tubeOf[w], s.now);
    PopTakesAFreeJob(sys, s, w);
    var t := StepPop(sys, s, w);
    forall id | id in t.records ensures JobOk(sys, t, id) {
      PopKeepsJobs(sys, s, w, id);
    }
    forall v | v in t.phase ensures WorkerOk(t, v) {
      PopKeepsWorkers(sys, s, w, v);
    }
  }

  lemma SettleKeepsJobs(sys: System, s: State, w: WorkerId, outcome: Outcome, id: JobId)
    requires Inv(sys, s) && Enabled(s, Settle(w, outcome)) && id in s.records
    ensures JobOk(sys, StepSettle(sys, s, w, outcome), id)
  {
  }

  lemma SettleKeepsWorkers(sys: System, s: State, w: WorkerId, outcome: Outcome, v: WorkerId)
    requires Inv(sys, s) && Enabled(s, Settle(w, outcome)) && v in s.phase
    ensures WorkerOk(StepSettle(sys, s, w, outcome), v)
  {
  }

  lemma SettleKeepsInv(sys: System, s: State, w: WorkerId, outcome: Outcome)
    requires Inv(sys, s) && Enabled(s, Settle(w, outcome))
    ensures Inv(sys, StepSettle(sys, s, w, outcome))
  {
    var t := StepSettle(sys, s, w, outcome);
    StepKeepsStoreValid(sys, s, Settle(w, outcome));
    assert WorkerOk(s, w);
    forall id | id in t.records ensures JobOk(sys, t, id) {
      SettleKeepsJobs(sys, s, w, outcome, id);
    }
    forall v | v in t.phase ensures WorkerOk(t, v) {
      SettleKeepsWorkers(sys, s, w, outcome, v);
    }
  }

  predicate SameReservation(p: Phase, q: Phase) {
    p.Holding() == q.Holding() && (p.Holding() ==> p.job == q.job)
  }

  /** Steps that leave the jobs, their records and the reservations alone. */
  lemma SameHoldersKeepInv(sys: System, s: State, t: State)
    requires Inv(sys, s) && t.store.order == s.store.order && t.store.jobs == s.store.jobs
    requires t.records == s.records && t.phase.Keys == s.phase.Keys
    requires forall w :: w in s.phase ==> SameReservation(s.phase[w], t.phase[w])
    ensures Inv(sys, t)
  {
    forall id | id in t.records ensures JobOk(sys, t, id) {
      assert JobOk(sys, s, id);
      if s.records[id].holder.Some? {
        var w := s.records[id].holder.value;
        assert w in s.phase;
      }
    }
    forall w | w in t.phase ensures WorkerOk(t, w) {
      assert WorkerOk(s, w);
    }
  }

  /** Dropping jobs from the store keeps everything, for the dropped jobs are recorded as wiped. */
  lemma WipingKeepsInv(sys: System, s: State, t: State, gone: set<JobId>)
    requires Inv(sys, s) && gone <= s.store.jobs.Keys
    requires MS.Valid(t.store) && t.store.jobs == s.store.jobs - gone
    requires t.records == Wipe(s.records, gone) && t.phase == s.phase
    ensures Inv(sys, t)
  {
  }

  /** An outside call on a job that is not reserved leaves every reservation alone. */
  lemma OutsideCallKeepsInv(sys: System, s: State, a: Action)
    requires Inv(sys, s) && (a.OutsideRelease? || a.OutsideFail?) && Proper(s, a)
    ensures Inv(sys, Step(sys, s, a))
  {
    var t := Step(sys, s, a);
    StepKeepsStoreValid(sys, s, a);
    forall id | id in t.records ensures JobOk(sys, t, id) {
      OutsideCallKeepsJobs(sys, s, a, id);
    }
    forall w | w in t.phase ensures WorkerOk(t, w) {
      OutsideCallKeepsWorkers(sys, s, a, w);
    }
  }

  lemma OutsideCallKeepsJobs(sys: System, s: State, a: Action, id: JobId)
    requires Inv(sys, s) && (a.OutsideRelease? || a.OutsideFail?) && Proper(s, a) && id in s.records
    ensures JobOk(sys, Step(sys, s, a), id)
  {
    assert JobOk(sys, s, id);
  }

  lemma OutsideCallKeepsWorkers(sys: System, s: State, a: Action, w: WorkerId)
    requires Inv(sys, s) && (a.OutsideRelease? || a.OutsideFail?) && Proper(s, a) && w in s.phase
    ensures WorkerOk(Step(sys, s, a), w)
  {
    assert WorkerOk(s, w);
  }

  /** Any other outside call leaves its job in a state that no disciplined run reaches. */
  lemma ImproperCallBreaksInv(sys: System, s: State, a: Action)
    requires Inv(sys, s) && Enabled(s, a) && !Proper(s, a)
    ensures !Inv(sys, Step(sys, s, a))
  {
    var t := Step(sys, s, a);
    assert JobOk(sys, s, a.id);
    assert !JobOk(sys, t, a.id);
  }

  lemma DroppingKeepsInv(sys: System, s: State, a: Action)
    requires Inv(sys, s) && (a.Clear? || a.Close? || a.Remove?)
    ensures Inv(sys, Step(sys, s, a))
  {
    var t := Step(sys, s, a);
    match a
    case Clear(queue) =>
      MS.ClearKeepsValid(s.store, queue);
      WipingKeepsInv(sys, s, t, MS.OnTube(s.store.jobs, queue));
    case Close =>
      assert s.store.jobs - s.store.jobs.Keys == map[];
      WipingKeepsInv(sys, s, t, s.store.jobs.Keys);
    case Remove(id) =>
      MS.RemoveKeepsValid(s.store, id);
      assert s.store.jobs - {id} == s.store.jobs - s.store.jobs.Keys * {id};
      WipingKeepsInv(sys, s, t, s.store.jobs.Keys * {id});
  }

  lemma StepKeepsInv(sys: System, s: State, a: Action)
    requires Inv(sys, s) && Enabled(s, a) && Proper(s, a)
    ensures Inv(sys, Step(sys, s, a))
  {
    var t := Step(sys, s, a);
    match a
    case Push(d) => PushKeepsInv(sys, s, d);
    case Pop(w) => PopKeepsInv(sys, s, w);
    case Settle(w, outcome) => SettleKeepsInv(sys, s, w, outcome);
    case Clear(_) => DroppingKeepsInv(sys, s, a);
    case Close => DroppingKeepsInv(sys, s, a);
    case Remove(_) => DroppingKeepsInv(sys, s, a);
    case OutsideRelease(_, _) => OutsideCallKeepsInv(sys, s, a);
    case OutsideFail(_, _) => OutsideCallKeepsInv(sys, s, a);
    case _ => SameHoldersKeepInv(sys, s, t);
  }

  /** A step keeps the agreement of workers, store and history if and only if it is proper. */
  lemma StepKeepsInvExactly(sys: System, s: State, a: Action)
    requires Inv(sys, s) && Enabled(s, a)
    ensures Inv(sys, Step(sys, s, a)) <==> Proper(s, a)
  {
    if Proper(s, a) {
      StepKeepsInv(sys, s, a);
    } else {
      ImproperCallBreaksInv(sys, s, a);
    }
  }

  lemma {:induction false} RunKeepsInv(sys: System, s: State, run: seq<Action>)
    requires Inv(sys, s) && Disciplined(sys, s, run) && Exec(sys, s, run).Some?
    ensures Inv(sys, Exec(sys, s, run).value)
  {
    if run != [] {
      var n := |run| - 1;
      RunKeepsInv(sys, s, run[..n]);
      StepKeepsInv(sys, Exec(sys, s, run[..n]).value, run[n]);
    }
  }

  /** At every point of the run workers, store and history agree. */
  ghost predicate SoundThroughout(sys: System, s: State, run: seq<Action>)
    requires MS.Valid(s.store)
  {
    && (Exec(sys, s, run).Some? ==> Inv(sys, Exec(sys, s, run).value))
    && (run != [] ==> SoundThroughout(sys, s, run[..|run| - 1]))
  }

  /** They do so throughout a run if and only if every outside call in it was proper. */
  lemma {:induction false} SoundExactlyWhenDisciplined(sys: System, s: State, run: seq<Action>)
    requires Inv(sys, s) && Exec(sys, s, run).Some?
    ensures SoundThroughout(sys, s, run) <==> Disciplined(sys, s, run)
  {
    if run != [] {
      var n := |run| - 1;
      SoundExactlyWhenDisciplined(sys, s, run[..n]);
      if Disciplined(sys, s, run[..n]) {
        RunKeepsInv(sys, s, run[..n]);
        StepKeepsInvExactly(sys, Exec(sys, s, run[..n]).value, run[n]);
      }
    }
  }
}
