/**
 * In every disciplined run a job is what its dispatch and its history make it, field by field: what was pushed is what
 * is stored and handed to the worker, each retry waits exactly as long as the policy says, and a job that was given up
 * keeps the reason.
 */
module WorkerHistories {
  import opened JsStrings
  import opened Options
  import opened Backoff
  import opened Jobs
  import opened WorkerPolicy
  import opened WorkerProtocol
  import opened WorkerInvariants
  import opened WorkerTheorems
  import opened JobHistory
  import EG = EventGrammar
  import MS = MemoryStore

  function HistoryOf(r: Record): History {
    History(r.given, r.pops, r.outcomes, r.settled)
  }

  function MeddlingWith(r: Record): Meddling {
    Meddling(r.releasedOutside, r.failedOutside, r.outsideReason)
  }

  predicate HistoryOk(sys: System, s: State, id: JobId)
    requires id in s.records
  {
    var r := s.records[id];
    && r.given.id == id && r.born == NewJob(r.given)
    && (id in s.store.jobs ==> Told(sys.policy, HistoryOf(r), MeddlingWith(r), s.store.jobs[id]))
  }

  lemma PushKeepsHistory(sys: System, s: State, d: Dispatch, id: JobId)
    requires Inv(sys, s) && Enabled(s, Push(d)) && id in StepPush(s, d).records
    requires id in s.records ==> HistoryOk(sys, s, id)
    ensures HistoryOk(sys, StepPush(s, d), id)
  {
    if id !in s.records {
      AcceptedIsTold(sys.policy, d);
    }
  }

  lemma PopKeepsHistory(sys: System, s: State, w: WorkerId, id: JobId)
    requires Inv(sys, s) && Enabled(s, Pop(w)) && id in s.records && HistoryOk(sys, s, id)
    ensures HistoryOk(sys, StepPop(sys, s, w), id)
  {
    PopTakesAFreeJob(sys, s, w);
    var (t, r) := (StepPop(sys, s, w), s.records[id]);
    if !t.phase[w].Idle? && t.phase[w].job.spec.id == id {
      ReservedIsTold(sys.policy, HistoryOf(r), MeddlingWith(r), s.store.jobs[id], s.now);
    }
  }

  lemma SettleKeepsHistory(sys: System, s: State, w: WorkerId, outcome: Outcome, id: JobId)
    requires Inv(sys, s) && Enabled(s, Settle(w, outcome)) && id in s.records && HistoryOk(sys, s, id)
    ensures HistoryOk(sys, StepSettle(sys, s, w, outcome), id)
  {
    SettleDecides(sys, s, w, outcome, id);
    var r := s.records[id];
    if id in s.store.jobs && s.phase[w].job.spec.id == id {
      assert WorkerOk(s, w);
      var (h, m, job) := (HistoryOf(r), MeddlingWith(r), s.store.jobs[id]);
      DecidedByRules(sys.policy, h, m, job, outcome);
      if TriesAgain(sys.policy, h.given, |h.pops|, outcome) {
        RetriedIsTold(sys.policy, h, m, job, outcome, s.now);
      } else if outcome != Ok {
        GivenUpIsTold(sys.policy, h, m, job, outcome, s.now);
      }
    }
  }

  lemma OutsideCallKeepsHistory(sys: System, s: State, a: Action, id: JobId)
    requires Inv(sys, s) && (a.OutsideRelease? || a.OutsideFail?) && Proper(s, a) && id in s.records && HistoryOk(sys, s, id)
    ensures HistoryOk(sys, Step(sys, s, a), id)
  {
    var r := s.records[id];
    if id == a.id && id in s.store.jobs {
      var (h, m, job) := (HistoryOf(r), MeddlingWith(r), s.store.jobs[id]);
      if a.OutsideRelease? {
        ReleasedOutsideIsTold(sys.policy, h, m, job, a.delayMs, s.now);
      } else {
        FailedOutsideIsTold(sys.policy, h, m, job, a.reason, s.now);
      }
    }
  }

  lemma QuietStepKeepsHistory(sys: System, s: State, a: Action, id: JobId)
    requires Inv(sys, s) && Enabled(s, a) && id in s.records && HistoryOk(sys, s, id)
    requires !a.Push? && !a.Pop? && !a.Settle? && !a.OutsideRelease? && !a.OutsideFail?
    ensures HistoryOk(sys, Step(sys, s, a), id)
  {
  }

  lemma StepKeepsHistory(sys: System, s: State, a: Action, id: JobId)
    requires Inv(sys, s) && Enabled(s, a) && Proper(s, a) && id in Step(sys, s, a).records
    requires id in s.records ==> HistoryOk(sys, s, id)
    ensures HistoryOk(sys, Step(sys, s, a), id)
  {
    match a
    case Push(d) => PushKeepsHistory(sys, s, d, id);
    case Pop(w) => PopKeepsHistory(sys, s, w, id);
    case Settle(w, outcome) => SettleKeepsHistory(sys, s, w, outcome, id);
    case OutsideRelease(_, _) => OutsideCallKeepsHistory(sys, s, a, id);
    case OutsideFail(_, _) => OutsideCallKeepsHistory(sys, s, a, id);
    case _ => QuietStepKeepsHistory(sys, s, a, id);
  }

  /** In every disciplined run each stored job is, field by field, what its dispatch and its history say. */
  lemma {:induction false} JobsFollowTheirHistory(sys: System, start: int, run: seq<Action>, id: JobId)
    requires Run(sys, start, run) && id in Final(sys, start, run).records
    ensures HistoryOk(sys, Final(sys, start, run), id)
  {
    if run != [] {
      LastStep(sys, start, run);
      var (front, a) := (run[..|run| - 1], run[|run| - 1]);
      var s := Final(sys, start, front);
      if id in s.records {
        JobsFollowTheirHistory(sys, start, front, id);
      }
      StepKeepsHistory(sys, s, a, id);
    }
  }

  lemma StepKeepsGiven(sys: System, s: State, a: Action, id: JobId)
    requires MS.Valid(s.store) && Enabled(s, a) && id in Step(sys, s, a).records
    ensures var r := Step(sys, s, a).records[id];
            if id in s.records then r.given == s.records[id].given else a == Push(r.given)
  {
  }

  /** Every accepted job was pushed, by the very dispatch on record. */
  lemma {:induction false} AcceptedJobsWerePushed(sys: System, start: int, run: seq<Action>, id: JobId)
    requires Exec(sys, Init(sys, start), run).Some? && id in Exec(sys, Init(sys, start), run).value.records
    ensures Push(Exec(sys, Init(sys, start), run).value.records[id].given) in run
  {
    if run != [] {
      var n := |run| - 1;
      var s := Exec(sys, Init(sys, start), run[..n]).value;
      StepKeepsGiven(sys, s, run[n], id);
      if id in s.records {
        AcceptedJobsWerePushed(sys, start, run[..n], id);
      }
    }
  }

  // ---- what that means in a state `s` that a disciplined run reaches ----

  ghost predicate Reached(sys: System, start: int, run: seq<Action>, s: State) {
    Run(sys, start, run) && s == Final(sys, start, run)
  }

  lemma StoredJobIsTold(sys: System, start: int, run: seq<Action>, s: State, id: JobId)
    requires Reached(sys, start, run, s) && id in s.store.jobs
    ensures id in s.records && Told(sys.policy, HistoryOf(s.records[id]), MeddlingWith(s.records[id]), s.store.jobs[id])
  {
    FinalSatisfiesInv(sys, start, run);
    JobsFollowTheirHistory(sys, start, run, id);
  }

  /** Every stored job, and every job a worker holds, has the id, name, payload and options that were pushed under its id. */
  lemma JobsCarryTheirDispatch(sys: System, start: int, run: seq<Action>, s: State, id: JobId)
    requires Reached(sys, start, run, s) && id in s.records
    ensures var d := s.records[id].given;
            && Push(d) in run && d.id == id
            && (id in s.store.jobs ==> AsDispatched(d, s.store.jobs[id].spec))
            && (forall w :: w in s.phase && s.phase[w].Holding() && s.phase[w].job.spec.id == id ==>
                  AsDispatched(d, s.phase[w].job.spec))
  {
    JobsFollowTheirHistory(sys, start, run, id);
    AcceptedJobsWerePushed(sys, start, run, id);
    FinalSatisfiesInv(sys, start, run);
    forall w | w in s.phase && s.phase[w].Holding() && s.phase[w].job.spec.id == id
      ensures AsDispatched(s.records[id].given, s.phase[w].job.spec)
    {
      assert WorkerOk(s, w);
      AcceptedIsTold(sys.policy, s.records[id].given);
    }
  }

  /**
   * A job that waits after k attempts, and that nobody outside released, is due exactly min(base * 2^k, cap) after its k-th
   * attempt was settled, and at first exactly its delay after it was pushed.
   */
  lemma RetriesWaitExactly(sys: System, start: int, run: seq<Action>, s: State, id: JobId)
    requires Reached(sys, start, run, s) && id in s.store.jobs && Waiting(s.store.jobs[id].status)
    ensures && id in s.records
            && var (r, job) := (s.records[id], s.store.jobs[id]);
               var k := |r.outcomes|;
               && |r.settled| == k == job.attempts
               && (!r.releasedOutside ==>
                     if k == 0 then job.availableAt == r.given.now + FirstGiven([r.given.options.delayMs], 0)
                     else job.availableAt == r.settled[k - 1] + Min(job.spec.backoffMs * Pow2(k), sys.policy.maxBackoffMs))
  {
    StoredJobIsTold(sys, start, run, s, id);
    RetryIsDue(sys.policy, HistoryOf(s.records[id]), MeddlingWith(s.records[id]), s.store.jobs[id]);
  }

  /** With no negative option, no worker puts a job off for longer than the cap. */
  lemma NoRetryWaitsLongerThanTheCap(sys: System, start: int, run: seq<Action>, s: State, id: JobId)
    requires Reached(sys, start, run, s) && id in s.store.jobs
    requires Waiting(s.store.jobs[id].status) && s.store.jobs[id].attempts > 0
    requires s.store.jobs[id].spec.backoffMs >= 0 && sys.policy.maxBackoffMs >= 0
    ensures && id in s.records
            && (!s.records[id].releasedOutside ==> WaitsWithinCap(sys.policy, HistoryOf(s.records[id]), s.store.jobs[id]))
  {
    StoredJobIsTold(sys, start, run, s, id);
    if !s.records[id].releasedOutside {
      WaitIsCapped(sys.policy, HistoryOf(s.records[id]), MeddlingWith(s.records[id]), s.store.jobs[id]);
    }
  }

  /** A stored failed job keeps its reason: the outside caller's, the timeout's, or that its attempts are used up. */
  lemma FailuresKeepTheirReason(sys: System, start: int, run: seq<Action>, s: State, id: JobId)
    requires Reached(sys, start, run, s) && id in s.store.jobs && s.store.jobs[id].status == Failed
    ensures && id in s.records
            && var (r, job) := (s.records[id], s.store.jobs[id]);
               if r.outsideReason.Some? then job.lastError == r.outsideReason
               else
                 && r.outcomes != []
                 && var last := r.outcomes[|r.outcomes| - 1];
                    if last == Timeout && sys.policy.failOnTimeout then job.lastError == Some(TimeoutReason)
                    else |r.outcomes| >= job.spec.maxAttempts && job.lastError == Some(AttemptsReason(|r.outcomes|))
  {
    StoredJobIsTold(sys, start, run, s, id);
  }

  /** Processing, TimedOut if it timed out, Released with the wait before attempt k + 1, Attempted. */
  predicate ReportsRetry(policy: Policy, job: Job, outcome: Outcome, trail: seq<EventKind>) {
    job.attempts >= 0
    && trail == [JobProcessing] + (if outcome == Timeout then [JobTimedOut] else [])
                + [JobReleased(Min(job.spec.backoffMs * Pow2(job.attempts), policy.maxBackoffMs))] + [JobAttempted]
  }

  /** Once a retried attempt is over, its events tell the retry and how long the job waits for it. */
  lemma RetriesAreReported(sys: System, start: int, run: seq<Action>, s: State, id: JobId)
    requires Reached(sys, start, run, s) && id in s.store.jobs && Waiting(s.store.jobs[id].status)
    requires s.store.jobs[id].attempts > 0 && EG.Unhandled(s, id, s.store.jobs[id].attempts)
    ensures && id in s.records
            && var (job, k) := (s.store.jobs[id], s.store.jobs[id].attempts);
               && |s.records[id].outcomes| == k
               && ReportsRetry(sys.policy, job, s.records[id].outcomes[k - 1], EG.Trail(s.log, id, k))
  {
    StoredJobIsTold(sys, start, run, s, id);
    RetriedTrail(sys, start, run, s, id);
    var r := s.records[id];
    DelayReported(sys.policy, HistoryOf(r), MeddlingWith(r), s.store.jobs[id]);
  }

  lemma RetriedTrail(sys: System, start: int, run: seq<Action>, s: State, id: JobId)
    requires Reached(sys, start, run, s) && id in s.records && id in s.store.jobs
    requires var k := s.store.jobs[id].attempts; k == |s.records[id].outcomes| > 0 && EG.Unhandled(s, id, k)
    ensures var (job, k) := (s.store.jobs[id], s.store.jobs[id].attempts);
            EG.Trail(s.log, id, k) == EG.Complete(sys.policy, job.spec, k, s.records[id].outcomes[k - 1])
  {
    EG.EventsFollowTheGrammar(sys, start, run);
    FinalSatisfiesInv(sys, start, run);
    var k := s.store.jobs[id].attempts;
    assert JobOk(sys, s, id) && EG.TrailOk(sys, s, id, k) && EG.Known(s, id, k);
  }

  lemma DelayReported(policy: Policy, h: History, m: Meddling, job: Job)
    requires Told(policy, h, m, job) && Waiting(job.status) && job.attempts > 0
    ensures var k := job.attempts;
            && |h.outcomes| == k
            && ReportsRetry(policy, job, h.outcomes[k - 1], EG.Complete(policy, job.spec, k, h.outcomes[k - 1]))
  {
    assert TriesAgain(policy, h.given, job.attempts, h.outcomes[job.attempts - 1]);
  }
}
