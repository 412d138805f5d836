/**
 * What becomes of jobs under the IndexedDB driver, in every run whose reserves find the scanned copy still stored
 * (src/connections/indexeddb.connection.ts:141-293): a success deletes the job for good, a failure keeps it Failed with its
 * reason, and a retry waits exactly as long as the policy says.
 */
module IndexedDbOutcomes {
  import opened JsStrings
  import opened Options
  import opened Backoff
  import opened Jobs
  import opened WorkerPolicy
  import opened IndexedDbModel
  import opened JobHistory
  import MS = MemoryStore

  function HistoryOf(r: Record): History {
    History(r.given, r.pops, r.outcomes, r.settled)
  }

  /** A stored job is what its history says; one that is gone was wiped or has succeeded, and success comes last. */
  predicate RecordOk(policy: Policy, r: Record, stored: Option<Job>) {
    var n := |r.outcomes|;
    && r.born == NewJob(r.given)
    && |r.settled| == n && |r.pops| == n + (if r.holder.Some? then 1 else 0)
    && AllRetried(policy, HistoryOf(r), if r.holder.Some? || n == 0 then n else n - 1)
    && match stored
       case Some(job) => !r.wiped && Told(policy, HistoryOf(r), UNTOUCHED, job)
       case None => r.wiped || (r.holder.None? && n > 0 && r.outcomes[n - 1] == Ok)
  }

  function Lookup(jobs: Table, id: JobId): Option<Job> {
    if id in jobs then Some(jobs[id]) else None
  }

  predicate HistoryOk(sys: System, s: State, id: JobId)
    requires id in s.records
  {
    s.records[id].given.id == id && RecordOk(sys.policy, s.records[id], Lookup(s.jobs, id))
  }

  lemma PushKeepsHistory(sys: System, s: State, a: Action, id: JobId)
    requires Inv(sys, s) && a.Push? && Enabled(sys, s, a) && id in Step(sys, s, a).records
    requires id in s.records ==> HistoryOk(sys, s, id)
    ensures HistoryOk(sys, Step(sys, s, a), id)
  {
    if id !in s.records {
      AcceptedIsTold(sys.policy, a.d);
    }
  }

  lemma ReserveKeepsHistory(sys: System, s: State, w: WorkerId, id: JobId)
    requires Inv(sys, s) && Enabled(sys, s, Reserve(w)) && Fresh(s, Reserve(w)) && id in s.records && HistoryOk(sys, s, id)
    ensures HistoryOk(sys, StepReserve(s, w), id)
  {
    assert WorkerOk(s, w);
    if s.phase[w].job.spec.id == id {
      assert JobOk(s, id);
      ReservedIsTold(sys.policy, HistoryOf(s.records[id]), UNTOUCHED, s.jobs[id], s.now);
    }
  }

  /** What settling makes of a stored job. */
  function Decided(policy: Policy, stored: Option<Job>, outcome: Outcome, now: int): Option<Job> {
    if stored.None? then None
    else
      match Decide(policy, stored.value.spec, stored.value.attempts, outcome)
      case Done => None
      case GiveUp(reason) => Some(FailedAt(stored.value, reason, now))
      case Retry(delayMs) => Some(ReleasedAt(stored.value, delayMs, now))
  }

  lemma SettleDecides(sys: System, s: State, w: WorkerId, outcome: Outcome, id: JobId)
    requires Inv(sys, s) && Enabled(sys, s, Settle(w, outcome)) && id in s.records
    ensures var (t, r) := (StepSettle(sys, s, w, outcome), s.records[id]);
            if s.phase[w].job.spec.id != id then t.records[id] == r && Lookup(t.jobs, id) == Lookup(s.jobs, id)
            else
              && t.records[id] == Concluded(r, outcome, s.now) && r.holder == Some(w)
              && (id in s.jobs ==> s.jobs[id].status == Reserved)
              && Lookup(t.jobs, id) == Decided(sys.policy, Lookup(s.jobs, id), outcome, s.now)
  {
    assert WorkerOk(s, w);
  }

  lemma DecidedIsOk(policy: Policy, r: Record, stored: Option<Job>, outcome: Outcome, now: int)
    requires RecordOk(policy, r, stored) && r.holder.Some? && (stored.Some? ==> stored.value.status == Reserved)
    ensures RecordOk(policy, Concluded(r, outcome, now), Decided(policy, stored, outcome, now))
  {
    if stored.Some? {
      var h := HistoryOf(r);
      DecidedByRules(policy, h, UNTOUCHED, stored.value, outcome);
      if TriesAgain(policy, h.given, |h.pops|, outcome) {
        RetriedIsTold(policy, h, UNTOUCHED, stored.value, outcome, now);
      } else if outcome != Ok {
        GivenUpIsTold(policy, h, UNTOUCHED, stored.value, outcome, now);
      }
    }
  }

  lemma SettleKeepsHistory(sys: System, s: State, w: WorkerId, outcome: Outcome, id: JobId)
    requires Inv(sys, s) && Enabled(sys, s, Settle(w, outcome)) && id in s.records && HistoryOk(sys, s, id)
    ensures HistoryOk(sys, StepSettle(sys, s, w, outcome), id)
  {
    SettleDecides(sys, s, w, outcome, id);
    if s.phase[w].job.spec.id == id {
      DecidedIsOk(sys.policy, s.records[id], Lookup(s.jobs, id), outcome, s.now);
    }
  }

  lemma QuietStepKeepsHistory(sys: System, s: State, a: Action, id: JobId)
    requires Inv(sys, s) && Enabled(sys, s, a) && id in s.records && HistoryOk(sys, s, id)
    requires !a.Push? && !a.Reserve? && !a.Settle?
    ensures HistoryOk(sys, Step(sys, s, a), id)
  {
  }

  lemma StepKeepsHistory(sys: System, s: State, a: Action, id: JobId)
    requires Inv(sys, s) && Enabled(sys, s, a) && Fresh(s, a) && id in Step(sys, s, a).records
    requires id in s.records ==> HistoryOk(sys, s, id)
    ensures HistoryOk(sys, Step(sys, s, a), id)
  {
    match a
    case Push(_, _) => PushKeepsHistory(sys, s, a, id);
    case Reserve(w) => ReserveKeepsHistory(sys, s, w, id);
    case Settle(w, outcome) => SettleKeepsHistory(sys, s, w, outcome, id);
    case _ => QuietStepKeepsHistory(sys, s, a, id);
  }

  /** `s` is where a run leads whose reserves all find the scanned copy still stored. */
  predicate Reached(sys: System, start: int, run: seq<Action>, s: State) {
    Exec(sys, Init(sys, start), run) == Some(s) && FreshRun(sys, Init(sys, start), run)
  }

  lemma LastStep(sys: System, start: int, run: seq<Action>, s: State) returns (before: State)
    requires Reached(sys, start, run, s) && run != []
    ensures var (front, a) := (run[..|run| - 1], run[|run| - 1]);
            && Reached(sys, start, front, before) && Inv(sys, before)
            && Enabled(sys, before, a) && Fresh(before, a) && s == Step(sys, before, a)
  {
    before := Exec(sys, Init(sys, start), run[..|run| - 1]).value;
    FreshRunsAreSound(sys, start, run[..|run| - 1]);
  }

  lemma {:induction false} JobsFollowTheirHistory(sys: System, start: int, run: seq<Action>, s: State, id: JobId)
    requires Reached(sys, start, run, s) && id in s.records
    ensures HistoryOk(sys, s, id)
  {
    if run != [] {
      var before := LastStep(sys, start, run, s);
      if id in before.records {
        JobsFollowTheirHistory(sys, start, run[..|run| - 1], before, id);
      }
      StepKeepsHistory(sys, before, run[|run| - 1], id);
    }
  }

  /** What the last outcome makes of a job: gone, waiting for exactly the backoff, or failed with the reason. */
  predicate AsLastOutcome(policy: Policy, r: Record, stored: Option<Job>) {
    var n := |r.outcomes|;
    && n == |r.settled| == |r.pops|
    && (n > 0 ==>
          var last := r.outcomes[n - 1];
          if last == Ok then stored.None?
          else
            && stored.Some? && AsDispatched(r.given, stored.value.spec) && stored.value.attempts == n
            && if TriesAgain(policy, r.given, n, last) then
                 && Waiting(stored.value.status)
                 && stored.value.availableAt
                    == r.settled[n - 1] + Min(stored.value.spec.backoffMs * Pow2(n), policy.maxBackoffMs)
               else stored.value.status == Failed && stored.value.lastError == Some(GivenUpFor(policy, n, last)))
  }

  lemma RecordDecides(policy: Policy, r: Record, stored: Option<Job>)
    requires RecordOk(policy, r, stored) && r.holder.None? && !r.wiped
    requires stored.Some? ==> stored.value.status != Reserved
    ensures AsLastOutcome(policy, r, stored)
  {
  }

  /**
   * Where nobody holds a job and nobody wiped it, its last outcome decides: after a success it is gone; after a failure with
   * attempts to spare it waits until exactly the backoff since its settling has passed; after any other failure it is stored
   * as Failed, with the reason.
   */
  lemma LastOutcomeDecides(sys: System, start: int, run: seq<Action>, s: State, id: JobId)
    requires Reached(sys, start, run, s) && id in s.records && s.records[id].holder.None? && !s.records[id].wiped
    ensures AsLastOutcome(sys.policy, s.records[id], Lookup(s.jobs, id))
  {
    JobsFollowTheirHistory(sys, start, run, s, id);
    FreshRunsAreSound(sys, start, run);
    assert JobOk(s, id);
    RecordDecides(sys.policy, s.records[id], Lookup(s.jobs, id));
  }

  lemma RetriedMeansFailed(policy: Policy, h: History, n: nat, k: nat)
    requires n <= |h.outcomes| && AllRetried(policy, h, n) && k < |h.outcomes|
    ensures h.outcomes[k] == Ok ==> k >= n
  {
  }

  /** A job that has succeeded once is never stored again, and succeeds only once. */
  lemma SuccessIsFinal(sys: System, start: int, run: seq<Action>, s: State, id: JobId, k: nat)
    requires Reached(sys, start, run, s) && id in s.records && k < |s.records[id].outcomes| && s.records[id].outcomes[k] == Ok
    ensures id !in s.jobs && k == |s.records[id].outcomes| - 1 && s.records[id].holder.None?
  {
    JobsFollowTheirHistory(sys, start, run, s, id);
    FreshRunsAreSound(sys, start, run);
    assert JobOk(s, id);
    var r := s.records[id];
    var n := if r.holder.Some? then |r.outcomes| else |r.outcomes| - 1;
    RetriedMeansFailed(sys.policy, HistoryOf(r), n, k);
  }

  /** What the table holds, and what a worker gets, is what was pushed. */
  lemma JobsCarryTheirDispatch(sys: System, start: int, run: seq<Action>, s: State, id: JobId)
    requires Reached(sys, start, run, s) && id in s.records
    ensures var d := s.records[id].given;
            && d.id == id
            && (id in s.jobs ==> AsDispatched(d, s.jobs[id].spec))
            && (forall w :: w in s.phase && s.phase[w].Scanned? && s.phase[w].job.spec.id == id ==> AsDispatched(d, s.phase[w].job.spec))
  {
    JobsFollowTheirHistory(sys, start, run, s, id);
    FreshRunsAreSound(sys, start, run);
    AcceptedIsTold(sys.policy, s.records[id].given);
    forall w | w in s.phase && s.phase[w].Scanned? && s.phase[w].job.spec.id == id
      ensures AsDispatched(s.records[id].given, s.phase[w].job.spec)
    {
      assert WorkerOk(s, w);
    }
  }

  // ---- no job is popped early ----

  /** No reservation came before the job was due, and no scanned copy is ahead of its time. */
  predicate OnTime(sys: System, s: State) {
    && (forall id, k :: id in s.records && 0 <= k < |s.records[id].pops| && k <= |s.records[id].settled| ==>
          DueAt(sys.policy, HistoryOf(s.records[id]), k) <= s.records[id].pops[k])
    && (forall w :: w in s.phase && s.phase[w].Scanned? ==> s.phase[w].job.availableAt <= s.now)
  }

  lemma ReserveIsOnTime(sys: System, s: State, w: WorkerId, id: JobId, k: nat)
    requires Inv(sys, s) && Enabled(sys, s, Reserve(w)) && Fresh(s, Reserve(w)) && OnTime(sys, s)
    requires id in s.records && HistoryOk(sys, s, id)
    requires var r := StepReserve(s, w).records[id]; k < |r.pops| && k <= |r.settled|
    ensures var r := StepReserve(s, w).records[id]; DueAt(sys.policy, HistoryOf(r), k) <= r.pops[k]
  {
    assert WorkerOk(s, w);
    var (r, t) := (s.records[id], StepReserve(s, w).records[id]);
    assert DueAt(sys.policy, HistoryOf(t), k) == DueAt(sys.policy, HistoryOf(r), k);
    if k == |r.pops| {
      assert JobOk(s, id);
      assert WaitsSince(sys.policy, HistoryOf(r), s.jobs[id], k);
    }
  }

  lemma SettleIsOnTime(sys: System, s: State, w: WorkerId, outcome: Outcome, id: JobId, k: nat)
    requires Inv(sys, s) && Enabled(sys, s, Settle(w, outcome)) && OnTime(sys, s)
    requires id in s.records && HistoryOk(sys, s, id)
    requires var r := StepSettle(sys, s, w, outcome).records[id]; k < |r.pops| && k <= |r.settled|
    ensures var r := StepSettle(sys, s, w, outcome).records[id]; DueAt(sys.policy, HistoryOf(r), k) <= r.pops[k]
  {
    var (r, t) := (s.records[id], StepSettle(sys, s, w, outcome).records[id]);
    assert k <= |r.settled|;
    assert DueAt(sys.policy, HistoryOf(t), k) == DueAt(sys.policy, HistoryOf(r), k);
  }

  lemma OtherStepsAreOnTime(sys: System, s: State, a: Action, id: JobId, k: nat)
    requires Inv(sys, s) && Enabled(sys, s, a) && OnTime(sys, s) && !a.Reserve? && !a.Settle?
    requires id in Step(sys, s, a).records
    requires var r := Step(sys, s, a).records[id]; k < |r.pops| && k <= |r.settled|
    ensures var r := Step(sys, s, a).records[id]; DueAt(sys.policy, HistoryOf(r), k) <= r.pops[k]
  {
    var t := Step(sys, s, a).records[id];
    assert id in s.records && t.pops == s.records[id].pops && t.settled == s.records[id].settled && t.given == s.records[id].given;
    assert DueAt(sys.policy, HistoryOf(t), k) == DueAt(sys.policy, HistoryOf(s.records[id]), k);
  }

  lemma ScannedCopiesAreDue(sys: System, s: State, a: Action)
    requires Enabled(sys, s, a) && OnTime(sys, s) && Step(sys, s, a).steady
    ensures var t := Step(sys, s, a); forall w :: w in t.phase && t.phase[w].Scanned? ==> t.phase[w].job.availableAt <= t.now
  {
  }

  lemma StepKeepsOnTime(sys: System, s: State, a: Action)
    requires Inv(sys, s) && Enabled(sys, s, a) && Fresh(s, a) && OnTime(sys, s) && Step(sys, s, a).steady
    requires forall id :: id in s.records ==> HistoryOk(sys, s, id)
    ensures OnTime(sys, Step(sys, s, a))
  {
    var t := Step(sys, s, a);
    ScannedCopiesAreDue(sys, s, a);
    forall id, k | id in t.records && 0 <= k < |t.records[id].pops| && k <= |t.records[id].settled|
      ensures DueAt(sys.policy, HistoryOf(t.records[id]), k) <= t.records[id].pops[k]
    {
      match a
      case Reserve(w) => ReserveIsOnTime(sys, s, w, id, k);
      case Settle(w, outcome) => SettleIsOnTime(sys, s, w, outcome, id, k);
      case _ => OtherStepsAreOnTime(sys, s, a, id, k);
    }
  }

  /**
   * While the clock never goes back, a job's first reservation comes no earlier than its delay after the dispatch, and each
   * later one no earlier than the full backoff after the attempt before it was settled.
   */
  lemma {:induction false} NothingIsPoppedEarly(sys: System, start: int, run: seq<Action>, s: State)
    requires Reached(sys, start, run, s) && s.steady
    ensures OnTime(sys, s)
  {
    if run != [] {
      var before := LastStep(sys, start, run, s);
      NothingIsPoppedEarly(sys, start, run[..|run| - 1], before);
      forall id | id in before.records ensures HistoryOk(sys, before, id) {
        JobsFollowTheirHistory(sys, start, run[..|run| - 1], before, id);
      }
      StepKeepsOnTime(sys, before, run[|run| - 1]);
    }
  }
}
