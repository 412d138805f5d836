/** The guarantees of the worker protocol, for every system of workers and every disciplined run from the empty store. */
module WorkerTheorems {
  import opened Options
  import opened Backoff
  import opened Jobs
  import opened WorkerPolicy
  import opened WorkerProtocol
  import opened WorkerInvariants
  import MS = MemoryStore

  /** `run` is possible from an empty store, and nobody outside touches a reservation or revives a failed job. */
  ghost predicate Run(sys: System, start: int, run: seq<Action>) {
    Exec(sys, Init(sys, start), run).Some? && Disciplined(sys, Init(sys, start), run)
  }

  ghost function Final(sys: System, start: int, run: seq<Action>): State
    requires Run(sys, start, run)
  {
    Exec(sys, Init(sys, start), run).value
  }

  lemma FinalSatisfiesInv(sys: System, start: int, run: seq<Action>)
    requires Run(sys, start, run)
    ensures Inv(sys, Final(sys, start, run))
  {
    InitSatisfiesInv(sys, start);
    RunKeepsInv(sys, Init(sys, start), run);
  }

  /** The last step of a run starts where the rest of it ends. */
  lemma LastStep(sys: System, start: int, run: seq<Action>)
    requires Run(sys, start, run) && run != []
    ensures var (front, a) := (run[..|run| - 1], run[|run| - 1]);
            && Run(sys, start, front)
            && var s := Final(sys, start, front);
               && Inv(sys, s) && Enabled(s, a) && Proper(s, a) && Final(sys, start, run) == Step(sys, s, a)
               && (Final(sys, start, run).steady ==> s.steady)
  {
    FinalSatisfiesInv(sys, start, run[..|run| - 1]);
  }

  // ---- exclusive reservation ----

  lemma ExclusiveReservation(sys: System, start: int, run: seq<Action>, w: WorkerId, v: WorkerId)
    requires Run(sys, start, run)
    requires var s := Final(sys, start, run); w in s.phase && v in s.phase && s.phase[w].Holding()
    ensures var s := Final(sys, start, run);
            var id := s.phase[w].job.spec.id;
            && (s.phase[v].Holding() && s.phase[v].job.spec.id == id ==> v == w)
            && (id in s.store.jobs ==> s.store.jobs[id] == s.phase[w].job && s.store.jobs[id].status == Reserved)
  {
    FinalSatisfiesInv(sys, start, run);
    var s := Final(sys, start, run);
    assert WorkerOk(s, w) && WorkerOk(s, v);
  }

  /** No reservation is orphaned: whoever finds a Reserved job in the store can name its holder. */
  lemma ReservedJobsAreHeld(sys: System, start: int, run: seq<Action>, id: JobId) returns (w: WorkerId)
    requires Run(sys, start, run)
    requires id in Final(sys, start, run).store.jobs && Final(sys, start, run).store.jobs[id].status == Reserved
    ensures var s := Final(sys, start, run); w in s.phase && s.phase[w].Holding() && s.phase[w].job.spec.id == id
  {
    FinalSatisfiesInv(sys, start, run);
    assert JobOk(sys, Final(sys, start, run), id);
    w := Final(sys, start, run).records[id].holder.value;
  }

  // ---- attempt budget ----

  /** A stored job's attempt count is the number of its reservations, and never exceeds its budget. */
  lemma AttemptBudget(sys: System, start: int, run: seq<Action>, id: JobId)
    requires Run(sys, start, run) && id in Final(sys, start, run).records
    ensures var s := Final(sys, start, run);
            var r := s.records[id];
            && |r.pops| <= Budget(r.born.spec)
            && (id in s.store.jobs ==>
                  var job := s.store.jobs[id];
                  && job.attempts == |r.pops|
                  && (Waiting(job.status) && job.attempts > 0 ==> job.attempts < job.spec.maxAttempts))
  {
    FinalSatisfiesInv(sys, start, run);
    assert JobOk(sys, Final(sys, start, run), id);
  }

  /** Every accepted job that was not wiped waits, is held, has failed, or succeeded and is gone: never two of these. */
  lemma EveryJobIsAccountedFor(sys: System, start: int, run: seq<Action>, id: JobId)
    requires Run(sys, start, run)
    requires id in Final(sys, start, run).records && !Final(sys, start, run).records[id].wiped
    ensures var s := Final(sys, start, run);
            var r := s.records[id];
            if id !in s.store.jobs then r.holder.None? && r.outcomes != [] && r.outcomes[|r.outcomes| - 1] == Ok
            else match s.store.jobs[id].status
                 case Pending | Delayed => r.holder.None? && |r.outcomes| == |r.pops|
                 case Reserved => r.holder.Some? && |r.outcomes| + 1 == |r.pops|
                 case Failed =>
                   && r.holder.None? && |r.outcomes| == |r.pops|
                   && (r.failedOutside || (r.outcomes != [] && r.outcomes[|r.outcomes| - 1] != Ok))
                 case _ => false
  {
    FinalSatisfiesInv(sys, start, run);
    assert JobOk(sys, Final(sys, start, run), id);
  }

  // ---- in-flight uniqueness ----

  lemma PushKeepsUnique(store: MS.Store, job: Job)
    requires MS.Valid(store) && Unique(store.jobs) && job.spec.id !in store.jobs
    ensures Unique(MS.Push(store, job).0.jobs)
  {
    var after := MS.Push(store, job).0;
    forall a, b | a in after.jobs && b in after.jobs && a != b
      ensures !SameKeyInFlight(after.jobs[a], after.jobs[b])
    {
      if a in store.jobs && b in store.jobs {
        assert !SameKeyInFlight(store.jobs[a], store.jobs[b]);
      } else if Deduplicated(job) {
        MS.NothingBlocks(store.order, store.jobs, job.spec.uniqueId, if a in store.jobs then a else b);
      }
    }
  }

  lemma PopKeepsUnique(sys: System, s: State, w: WorkerId)
    requires Inv(sys, s) && Unique(s.store.jobs) && Enabled(s, Pop(w))
    ensures Unique(StepPop(sys, s, w).store.jobs)
  {
    PopTakesAFreeJob(sys, s, w);
    FewerInFlightKeepsUnique(s.store.jobs, StepPop(sys, s, w).store.jobs);
  }

  lemma SettleKeepsUnique(sys: System, s: State, w: WorkerId, outcome: Outcome)
    requires Inv(sys, s) && Unique(s.store.jobs) && Enabled(s, Settle(w, outcome))
    ensures Unique(StepSettle(sys, s, w, outcome).store.jobs)
  {
    assert WorkerOk(s, w);
    FewerInFlightKeepsUnique(s.store.jobs, StepSettle(sys, s, w, outcome).store.jobs);
  }

  lemma StepKeepsUnique(sys: System, s: State, a: Action)
    requires Inv(sys, s) && Unique(s.store.jobs) && Enabled(s, a) && Proper(s, a)
    ensures Unique(Step(sys, s, a).store.jobs)
  {
    match a
    case Push(d) => PushKeepsUnique(s.store, NewJob(d));
    case Pop(w) => PopKeepsUnique(sys, s, w);
    case Settle(w, outcome) => SettleKeepsUnique(sys, s, w, outcome);
    case _ =>
      OtherStepsOnJobs(sys, s, a);
      FewerInFlightKeepsUnique(s.store.jobs, Step(sys, s, a).store.jobs);
  }

  /** A proper step other than a push, a pop or a settlement puts no job in flight. */
  lemma OtherStepsOnJobs(sys: System, s: State, a: Action)
    requires MS.Valid(s.store) && Enabled(s, a) && Proper(s, a) && !a.Push? && !a.Pop? && !a.Settle?
    ensures forall id :: id in Step(sys, s, a).store.jobs ==>
              var job := Step(sys, s, a).store.jobs[id];
              id in s.store.jobs && job.spec == s.store.jobs[id].spec && (InFlight(job.status) ==> InFlight(s.store.jobs[id].status))
  {
  }

  /** At most one job per non-empty unique id is in flight, in every state of every disciplined run. */
  lemma {:induction false} InFlightUniqueness(sys: System, start: int, run: seq<Action>)
    requires Run(sys, start, run)
    ensures Unique(Final(sys, start, run).store.jobs)
  {
    if run != [] {
      var front := run[..|run| - 1];
      LastStep(sys, start, run);
      InFlightUniqueness(sys, start, front);
      StepKeepsUnique(sys, Final(sys, start, front), run[|run| - 1]);
    }
  }

  /** In plain words: of two stored jobs with one non-empty unique id, one has failed. */
  lemma NoKeyIsInFlightTwice(sys: System, start: int, run: seq<Action>, a: JobId, b: JobId)
    requires Run(sys, start, run)
    requires var jobs := Final(sys, start, run).store.jobs;
             && a in jobs && b in jobs && a != b
             && jobs[a].spec.uniqueId == jobs[b].spec.uniqueId && jobs[a].spec.uniqueId.Some? && |jobs[a].spec.uniqueId.value| > 0
    ensures var jobs := Final(sys, start, run).store.jobs; jobs[a].status == Failed || jobs[b].status == Failed
  {
    InFlightUniqueness(sys, start, run);
    FinalSatisfiesInv(sys, start, run);
    var s := Final(sys, start, run);
    assert JobOk(sys, s, a) && JobOk(sys, s, b);
    assert !SameKeyInFlight(s.store.jobs[a], s.store.jobs[b]);
  }

  /** Nobody else in flight has the job's unique id: what the duplicate scan of `push` would find. */
  predicate KeyIsFree(store: MS.Store, id: JobId)
    requires id in store.jobs
  {
    forall other :: other in store.jobs && other != id ==> !Blocks(store.jobs[other], store.jobs[id].spec.uniqueId)
  }

  /** Whoever releases whatever job: uniqueness survives if and only if it was in flight, carries no key, or its key is free. */
  lemma ReleaseKeepsUniqueExactly(store: MS.Store, id: JobId, delayMs: int, now: int)
    requires MS.Valid(store) && Unique(store.jobs) && id in store.jobs
    ensures Unique(MS.Release(store, id, delayMs, now).jobs)
            <==> InFlight(store.jobs[id].status) || !Deduplicated(store.jobs[id]) || KeyIsFree(store, id)
  {
    var after := MS.Release(store, id, delayMs, now).jobs;
    if InFlight(store.jobs[id].status) {
      FewerInFlightKeepsUnique(store.jobs, after);
    } else if Deduplicated(store.jobs[id]) && !KeyIsFree(store, id) {
      var other :| other in store.jobs && other != id && Blocks(store.jobs[other], store.jobs[id].spec.uniqueId);
      assert SameKeyInFlight(after[id], after[other]);
    } else {
      forall a, b | a in after && b in after && a != b ensures !SameKeyInFlight(after[a], after[b]) {
        assert !SameKeyInFlight(store.jobs[a], store.jobs[b]);
      }
    }
  }

  // ---- outcomes do not depend on the schedule ----

  predicate Obeys(r: Record, oracle: int -> Outcome) {
    forall k :: 0 <= k < |r.outcomes| ==> r.outcomes[k] == oracle(k + 1)
  }

  /** As long as attempts are retried, the fate lies ahead of them. */
  lemma {:induction false} FateSurvivesRetries(policy: Policy, r: Record, oracle: int -> Outcome, n: nat)
    requires Obeys(r, oracle) && n <= |r.outcomes|
    requires forall k :: 0 <= k < n ==> Retried(policy, r.born.spec, k + 1, r.outcomes[k])
    ensures FateFrom(policy, r.born.spec, oracle, 1) == FateFrom(policy, r.born.spec, oracle, n + 1)
  {
    if n > 0 {
      FateSurvivesRetries(policy, r, oracle, n - 1);
      assert Retried(policy, r.born.spec, n, r.outcomes[n - 1]);
    }
  }

  predicate Finished(s: State, id: JobId)
    requires id in s.records
  {
    s.records[id].holder.None? && (id !in s.store.jobs || s.store.jobs[id].status == Failed)
  }

  /** A finished job ended as its own outcomes dictate; an unfinished one has not used up the attempts its fate needs. */
  lemma FinishedAsFated(sys: System, s: State, id: JobId, oracle: int -> Outcome)
    requires Inv(sys, s) && id in s.records && Obeys(s.records[id], oracle)
    requires !s.records[id].wiped && !s.records[id].failedOutside
    ensures var r := s.records[id];
            var fate := FateFrom(sys.policy, r.born.spec, oracle, 1);
            if Finished(s, id) then fate == Fate(id !in s.store.jobs, |r.pops|)
            else |r.outcomes| < fate.attempts
  {
    var r := s.records[id];
    assert JobOk(sys, s, id);
    var n := if Finished(s, id) then |r.outcomes| - 1 else |r.outcomes|;
    FateSurvivesRetries(sys.policy, r, oracle, n);
    if !Finished(s, id) {
      FateIsFirstFinalAttempt(sys.policy, r.born.spec, oracle, 1);
      FateIsAhead(sys.policy, r.born.spec, oracle, n + 1);
    }
  }

  lemma {:induction false} FateIsAhead(policy: Policy, spec: JobSpec, oracle: int -> Outcome, k: int)
    ensures FateFrom(policy, spec, oracle, k).attempts >= k
    decreases spec.maxAttempts - k
  {
    if Decide(policy, spec, k, oracle(k)).Retry? {
      FateIsAhead(policy, spec, oracle, k + 1);
    }
  }

  /** Every processor run of the trace ends as `oracle` says for that job and attempt. */
  predicate Follows(sys: System, start: int, run: seq<Action>, oracle: (JobId, int) -> Outcome) {
    run != [] ==>
      var n := |run| - 1;
      && Follows(sys, start, run[..n], oracle)
      && match Exec(sys, Init(sys, start), run[..n])
         case None => true
         case Some(s) =>
           run[n].Settle? && Enabled(s, run[n]) ==>
             run[n].outcome == oracle(s.phase[run[n].w].job.spec.id, s.phase[run[n].w].job.attempts)
  }

  lemma StepKeepsObeys(sys: System, s: State, a: Action, oracle: int -> Outcome, id: JobId)
    requires Inv(sys, s) && Enabled(s, a) && id in Step(sys, s, a).records
    requires id in s.records ==> Obeys(s.records[id], oracle)
    requires a.Settle? && s.phase[a.w].job.spec.id == id ==> a.outcome == oracle(s.phase[a.w].job.attempts)
    ensures Obeys(Step(sys, s, a).records[id], oracle)
  {
  }

  lemma {:induction false} RecordsObey(sys: System, start: int, run: seq<Action>, oracle: (JobId, int) -> Outcome, id: JobId)
    requires Run(sys, start, run) && Follows(sys, start, run, oracle) && id in Final(sys, start, run).records
    ensures Obeys(Final(sys, start, run).records[id], k => oracle(id, k))
  {
    if run != [] {
      LastStep(sys, start, run);
      var (front, a) := (run[..|run| - 1], run[|run| - 1]);
      var s := Final(sys, start, front);
      if id in s.records {
        RecordsObey(sys, start, front, oracle, id);
      }
      StepKeepsObeys(sys, s, a, k => oracle(id, k), id);
    }
  }

  /**
   * Two runs under the same policy, with any workers and any interleavings, and a processor whose result depends only
   * on the job and the attempt number: a job that both have finished (and nobody outside ended) was removed by both or
   * failed by both, after the same number of attempts, and that number is the first final one.
   */
  lemma {:induction false} OutcomeIsScheduleIndependent(sys1: System, start1: int, run1: seq<Action>,
                                     sys2: System, start2: int, run2: seq<Action>,
                                     oracle: (JobId, int) -> Outcome, id: JobId)
    requires sys1.policy == sys2.policy && Run(sys1, start1, run1) && Run(sys2, start2, run2)
    requires Follows(sys1, start1, run1, oracle) && Follows(sys2, start2, run2, oracle)
    requires var s := Final(sys1, start1, run1);
             id in s.records && !s.records[id].wiped && !s.records[id].failedOutside && Finished(s, id)
    requires var t := Final(sys2, start2, run2);
             id in t.records && !t.records[id].wiped && !t.records[id].failedOutside && Finished(t, id)
    requires Final(sys1, start1, run1).records[id].born.spec.maxAttempts
             == Final(sys2, start2, run2).records[id].born.spec.maxAttempts
    ensures var (s, t) := (Final(sys1, start1, run1), Final(sys2, start2, run2));
            && (id in s.store.jobs <==> id in t.store.jobs)
            && |s.records[id].pops| == |t.records[id].pops|
            && (id in s.store.jobs ==> s.store.jobs[id].status == t.store.jobs[id].status == Failed)
            && FateFrom(sys1.policy, s.records[id].born.spec, k => oracle(id, k), 1)
               == Fate(id !in s.store.jobs, |s.records[id].pops|)
  {
    var (s, t) := (Final(sys1, start1, run1), Final(sys2, start2, run2));
    var own := k => oracle(id, k);
    FinalSatisfiesInv(sys1, start1, run1);
    FinalSatisfiesInv(sys2, start2, run2);
    RecordsObey(sys1, start1, run1, oracle, id);
    RecordsObey(sys2, start2, run2, oracle, id);
    FinishedAsFated(sys1, s, id, own);
    FinishedAsFated(sys2, t, id, own);
    FateDependsOnBudgetOnly(sys1.policy, s.records[id].born.spec, t.records[id].born.spec, own, 1);
  }

  lemma {:induction false} FateDependsOnBudgetOnly(policy: Policy, a: JobSpec, b: JobSpec, oracle: int -> Outcome, k: int)
    requires a.maxAttempts == b.maxAttempts
    ensures FateFrom(policy, a, oracle, k) == FateFrom(policy, b, oracle, k)
    decreases a.maxAttempts - k
  {
    if Decide(policy, a, k, oracle(k)).Retry? {
      FateDependsOnBudgetOnly(policy, a, b, oracle, k + 1);
    }
  }

  // ---- retry timing ----

  function EarliestPop(sys: System, r: Record, k: nat): int {
    r.born.availableAt + TotalDelay(k, r.born.spec.backoffMs, sys.policy.maxBackoffMs)
  }

  /** Unless somebody outside released the job: no reservation came early, and none can. */
  predicate OnTime(sys: System, s: State, id: JobId)
    requires id in s.records
  {
    var r := s.records[id];
    !r.releasedOutside ==>
    && (forall k :: 0 <= k < |r.pops| ==> EarliestPop(sys, r, k + 1) <= r.pops[k] <= s.now)
    && (id in s.store.jobs && Waiting(s.store.jobs[id].status) ==>
          EarliestPop(sys, r, |r.pops| + 1) <= s.store.jobs[id].availableAt)
  }

  lemma PopKeepsOnTime(sys: System, s: State, w: WorkerId, id: JobId)
    requires Inv(sys, s) && Enabled(s, Pop(w)) && id in s.records && OnTime(sys, s, id)
    ensures OnTime(sys, StepPop(sys, s, w), id)
  {
    PopTakesAFreeJob(sys, s, w);
    assert JobOk(sys, s, id);
  }

  /** What settling does to one job: its record gets the outcome, and the verdict decides its place in the store. */
  lemma SettleDecides(sys: System, s: State, w: WorkerId, outcome: Outcome, id: JobId)
    requires Inv(sys, s) && Enabled(s, Settle(w, outcome)) && id in s.records
    ensures var t := StepSettle(sys, s, w, outcome);
            var r := s.records[id];
            var v := Decide(sys.policy, r.born.spec, |r.pops|, outcome);
            if s.phase[w].job.spec.id != id then
              && t.records[id] == r && (id in t.store.jobs <==> id in s.store.jobs)
              && (id in s.store.jobs ==> t.store.jobs[id] == s.store.jobs[id])
            else
              && t.records[id] == Concluded(r, outcome, s.now) && r.holder == Some(w) && |r.pops| > 0
              && (id in t.store.jobs <==> id in s.store.jobs && !v.Done?)
              && (id in t.store.jobs ==>
                    t.store.jobs[id] == match v
                                        case Retry(delayMs) => ReleasedAt(s.store.jobs[id], delayMs, s.now)
                                        case GiveUp(reason) => FailedAt(s.store.jobs[id], reason, s.now)
                                        case Done => s.store.jobs[id])
  {
  }

  lemma SettleKeepsOnTime(sys: System, s: State, w: WorkerId, outcome: Outcome, id: JobId)
    requires Inv(sys, s) && Enabled(s, Settle(w, outcome)) && id in s.records && OnTime(sys, s, id)
    ensures OnTime(sys, StepSettle(sys, s, w, outcome), id)
  {
    SettleDecides(sys, s, w, outcome, id);
    var r := s.records[id];
    if s.phase[w].job.spec.id == id {
      var k := |r.pops|;
      assert !r.releasedOutside ==> EarliestPop(sys, r, k) <= r.pops[k - 1] <= s.now;
      assert EarliestPop(sys, r, k + 1)
             == EarliestPop(sys, r, k) + ComputeBackoff(k + 1, r.born.spec.backoffMs, sys.policy.maxBackoffMs);
    }
  }

  lemma StepKeepsOnTime(sys: System, s: State, a: Action, id: JobId)
    requires Inv(sys, s) && Enabled(s, a)
    requires id in s.records ==> OnTime(sys, s, id)
    requires Step(sys, s, a).steady && id in Step(sys, s, a).records
    ensures OnTime(sys, Step(sys, s, a), id)
  {
    match a
    case Pop(w) => PopKeepsOnTime(sys, s, w, id);
    case Settle(w, outcome) => SettleKeepsOnTime(sys, s, w, outcome, id);
    case Push(d) => PushKeepsOnTime(sys, s, d, id);
    case _ => OtherStepsKeepOnTime(sys, s, a, id);
  }

  lemma PushKeepsOnTime(sys: System, s: State, d: Dispatch, id: JobId)
    requires Inv(sys, s) && Enabled(s, Push(d)) && (id in s.records ==> OnTime(sys, s, id)) && id in StepPush(s, d).records
    ensures OnTime(sys, StepPush(s, d), id)
  {
  }

  lemma OtherStepsKeepOnTime(sys: System, s: State, a: Action, id: JobId)
    requires Inv(sys, s) && Enabled(s, a) && !a.Push? && !a.Pop? && !a.Settle?
    requires id in s.records && OnTime(sys, s, id) && Step(sys, s, a).steady
    ensures OnTime(sys, Step(sys, s, a), id)
  {
    OtherStepsKeepPops(sys, s, a, id);
  }

  lemma OtherStepsKeepPops(sys: System, s: State, a: Action, id: JobId)
    requires MS.Valid(s.store) && Enabled(s, a) && !a.Push? && !a.Pop? && !a.Settle? && id in s.records
    ensures var t := Step(sys, s, a);
            && id in t.records && t.records[id].born == s.records[id].born && t.records[id].pops == s.records[id].pops
            && (!t.records[id].releasedOutside ==> !s.records[id].releasedOutside)
            && (t.steady ==> s.now <= t.now)
            && (id in t.store.jobs && Waiting(t.store.jobs[id].status) && !t.records[id].releasedOutside ==>
                  id in s.store.jobs && t.store.jobs[id] == s.store.jobs[id])
  {
  }

  /** While the clock never goes back, the k-th reservation comes no earlier than the initial delay plus all backoffs. */
  lemma {:induction false} RetryTiming(sys: System, start: int, run: seq<Action>, id: JobId)
    requires Run(sys, start, run) && id in Final(sys, start, run).records && Final(sys, start, run).steady
    ensures OnTime(sys, Final(sys, start, run), id)
  {
    if run != [] {
      LastStep(sys, start, run);
      var (front, a) := (run[..|run| - 1], run[|run| - 1]);
      var s := Final(sys, start, front);
      if id in s.records {
        RetryTiming(sys, start, front, id);
      }
      StepKeepsOnTime(sys, s, a, id);
    }
  }
}
