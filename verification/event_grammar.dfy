/** The lifecycle events that handling an attempt emits, in every interleaving, and their totals over the life of a job. */
module EventGrammar {
  import opened Jobs
  import opened WorkerPolicy
  import opened WorkerProtocol
  import opened WorkerInvariants
  import opened WorkerTheorems
  import MS = MemoryStore

  predicate Concerns(e: Event, id: JobId, k: int) {
    e.JobEvent? && e.id == id && e.attempt == k
  }

  /** The events of attempt `k` of job `id`, in the order of the log. */
  function Trail(log: seq<Event>, id: JobId, k: int): seq<EventKind> {
    if log == [] then []
    else
      var n := |log| - 1;
      if Concerns(log[n], id, k) then Trail(log[..n], id, k) + [log[n].kind] else Trail(log[..n], id, k)
  }

  function UpToSettling(outcome: Outcome): seq<EventKind> {
    if outcome.Timeout? then [JobProcessing] + [JobTimedOut] else [JobProcessing]
  }

  /** A complete attempt: Processing, an optional TimedOut, one of Processed, Failed and Released, then Attempted. */
  function Complete(policy: Policy, spec: JobSpec, k: int, outcome: Outcome): seq<EventKind> {
    UpToSettling(outcome) + [Report(Decide(policy, spec, k, outcome))] + [JobAttempted]
  }

  /** The part of an attempt that a worker in this phase has emitted. */
  function SoFar(policy: Policy, p: Phase): seq<EventKind> {
    match p
    case Idle => []
    case Popped(_) => []
    case Running(_) => [JobProcessing]
    case Settled(_, outcome) => UpToSettling(outcome)
    case Reported(job, outcome) => UpToSettling(outcome) + [Report(Decide(policy, job.spec, job.attempts, outcome))]
  }

  predicate Handles(p: Phase, id: JobId, k: int) {
    !p.Idle? && p.job.spec.id == id && p.job.attempts == k
  }

  predicate Known(s: State, id: JobId, k: int) {
    id in s.records && 1 <= k <= |s.records[id].pops|
  }

  /** A worker handles a reservation that was made, and what it reports is the recorded outcome. */
  predicate HandlerOk(s: State, w: WorkerId)
    requires w in s.phase
  {
    !s.phase[w].Idle? ==>
      var job := s.phase[w].job;
      var id := job.spec.id;
      && Known(s, id, job.attempts) && job.spec == s.records[id].born.spec
      && (!s.phase[w].Holding() ==>
            && job.attempts <= |s.records[id].outcomes|
            && s.phase[w].outcome == s.records[id].outcomes[job.attempts - 1])
  }

  predicate Together(p: Phase, q: Phase) {
    !p.Idle? && !q.Idle? && p.job.spec.id == q.job.spec.id && p.job.attempts == q.job.attempts
  }

  /** No two workers handle the same attempt. */
  predicate OneHandler(s: State) {
    forall w, v :: w in s.phase && v in s.phase && w != v ==> !Together(s.phase[w], s.phase[v])
  }

  predicate Unhandled(s: State, id: JobId, k: int) {
    forall w :: w in s.phase ==> !Handles(s.phase[w], id, k)
  }

  predicate TrailOk(sys: System, s: State, id: JobId, k: int) {
    var trail := Trail(s.log, id, k);
    if !Known(s, id, k) then trail == []
    else
      && (forall w :: w in s.phase && Handles(s.phase[w], id, k) ==> trail == SoFar(sys.policy, s.phase[w]))
      && (Unhandled(s, id, k) ==>
            var r := s.records[id];
            k <= |r.outcomes| && trail == Complete(sys.policy, r.born.spec, k, r.outcomes[k - 1]))
  }

  ghost predicate LogOk(sys: System, s: State) {
    && (forall w :: w in s.phase ==> HandlerOk(s, w))
    && OneHandler(s)
    && (forall id, k :: TrailOk(sys, s, id, k))
  }

  lemma EmittedTrail(log: seq<Event>, kind: EventKind, job: Job, id: JobId, k: int)
    ensures Trail(Emit(log, kind, job), id, k)
            == Trail(log, id, k) + if job.spec.id == id && job.attempts == k then [kind] else []
  {
  }

  lemma PopKeepsHandlers(sys: System, s: State, w: WorkerId)
    requires Inv(sys, s) && LogOk(sys, s) && Enabled(s, Pop(w))
    ensures var t := StepPop(sys, s, w);
            (forall v :: v in t.phase ==> HandlerOk(t, v)) && OneHandler(t)
  {
    PopTakesAFreeJob(sys, s, w);
    var t := StepPop(sys, s, w);
    forall v | v in t.phase ensures HandlerOk(t, v) {
      assert HandlerOk(s, v);
      if v == w && !t.phase[w].Idle? {
        assert JobOk(sys, s, t.phase[w].job.spec.id);
      }
    }
    forall u, v | u in t.phase && v in t.phase && u != v ensures !Together(t.phase[u], t.phase[v]) {
      assert HandlerOk(s, u) && HandlerOk(s, v) && !Together(s.phase[u], s.phase[v]);
      if (u == w || v == w) && !t.phase[w].Idle? {
        assert JobOk(sys, s, t.phase[w].job.spec.id);
      }
    }
  }

  /** A worker that stays on its attempt, or leaves it, meets no other worker there. */
  lemma MovingOnKeepsOneHandler(s: State, t: State, w: WorkerId)
    requires OneHandler(s) && w in s.phase && !s.phase[w].Idle?
    requires w in t.phase && t.phase == s.phase[w := t.phase[w]]
    requires t.phase[w].Idle? || t.phase[w].job == s.phase[w].job
    ensures OneHandler(t)
  {
  }

  lemma SettleKeepsHandlers(sys: System, s: State, w: WorkerId, outcome: Outcome)
    requires Inv(sys, s) && LogOk(sys, s) && Enabled(s, Settle(w, outcome))
    ensures var t := StepSettle(sys, s, w, outcome);
            (forall v :: v in t.phase ==> HandlerOk(t, v)) && OneHandler(t)
  {
  }

  lemma StepKeepsHandlers(sys: System, s: State, a: Action)
    requires Inv(sys, s) && LogOk(sys, s) && Enabled(s, a) && Proper(s, a)
    ensures var t := Step(sys, s, a);
            (forall w :: w in t.phase ==> HandlerOk(t, w)) && OneHandler(t)
  {
    if a.Pop? {
      PopKeepsHandlers(sys, s, a.w);
    } else if a.Settle? {
      SettleKeepsHandlers(sys, s, a.w, a.outcome);
    } else if Quiet(a) {
      QuietStepKeepsHandlers(sys, s, a);
    } else {
      MovingOnKeepsHandlers(sys, s, a);
    }
  }

  lemma MovingOnKeepsHandlers(sys: System, s: State, a: Action)
    requires MS.Valid(s.store) && LogOk(sys, s) && Enabled(s, a) && (a.Begin? || a.Announce? || a.Finish?)
    ensures var t := Step(sys, s, a);
            (forall w :: w in t.phase ==> HandlerOk(t, w)) && OneHandler(t)
  {
    var t := Step(sys, s, a);
    MovingOnKeepsOneHandler(s, t, a.w);
    forall w | w in t.phase ensures HandlerOk(t, w) {
      assert HandlerOk(s, w);
    }
  }

  lemma QuietStepKeepsHandlers(sys: System, s: State, a: Action)
    requires MS.Valid(s.store) && LogOk(sys, s) && Enabled(s, a) && Quiet(a)
    ensures var t := Step(sys, s, a);
            (forall w :: w in t.phase ==> HandlerOk(t, w)) && OneHandler(t)
  {
    QuietStepKeepsPhase(sys, s, a);
    forall w | w in s.phase ensures HandlerOk(Step(sys, s, a), w) {
      QuietStepKeepsHandler(sys, s, a, w);
    }
  }

  lemma QuietStepKeepsPhase(sys: System, s: State, a: Action)
    requires MS.Valid(s.store) && Enabled(s, a) && Quiet(a)
    ensures Step(sys, s, a).phase == s.phase
  {
  }

  /** Steps that no worker takes. */
  predicate Quiet(a: Action) {
    a.Push? || a.Clear? || a.Close? || a.Pause? || a.Resume? || a.Remove? || a.SetClock? || a.OutsideRelease? || a.OutsideFail?
  }

  lemma QuietStepKeepsHandler(sys: System, s: State, a: Action, w: WorkerId)
    requires MS.Valid(s.store) && Enabled(s, a) && Quiet(a) && w in s.phase && HandlerOk(s, w)
    ensures HandlerOk(Step(sys, s, a), w)
  {
  }

  lemma PopKeepsTrail(sys: System, s: State, w: WorkerId, id: JobId, k: int)
    requires Inv(sys, s) && LogOk(sys, s) && Enabled(s, Pop(w))
    ensures TrailOk(sys, StepPop(sys, s, w), id, k)
  {
    PopTakesAFreeJob(sys, s, w);
    var t := StepPop(sys, s, w);
    assert TrailOk(sys, s, id, k);
    if !t.phase[w].Idle? {
      var popped := t.phase[w].job.spec.id;
      assert JobOk(sys, s, popped) && JobOk(sys, s, popped);
      if id == popped && k == t.phase[w].job.attempts {
        assert Handles(t.phase[w], id, k);
        forall v | v in t.phase && Handles(t.phase[v], id, k) ensures v == w {
          assert HandlerOk(s, v);
        }
      } else if Unhandled(t, id, k) {
        forall v | v in s.phase ensures !Handles(s.phase[v], id, k) {
          assert v != w ==> !Handles(t.phase[v], id, k);
        }
      }
    }
  }

  /** A worker that moves on within its attempt, emitting `emitted`, keeps the trails. */
  lemma MovingOnKeepsTrail(sys: System, s: State, t: State, w: WorkerId, emitted: seq<EventKind>, id: JobId, k: int)
    requires OneHandler(s) && w in s.phase && HandlerOk(s, w) && TrailOk(sys, s, id, k)
    requires !s.phase[w].Idle? && w in t.phase && t.phase == s.phase[w := t.phase[w]]
    requires Trail(t.log, id, k) == Trail(s.log, id, k) + if Handles(s.phase[w], id, k) then emitted else []
    requires Known(s, id, k) ==>
               var (r, q) := (s.records[id], t.phase[w]);
               && Known(t, id, k) && t.records[id].born == r.born && r.outcomes <= t.records[id].outcomes
               && (if !q.Idle? then q.job == s.phase[w].job && SoFar(sys.policy, q) == SoFar(sys.policy, s.phase[w]) + emitted
                   else s.phase[w].Reported? && emitted == [JobAttempted])
    requires Known(t, id, k) ==> Known(s, id, k)
    ensures TrailOk(sys, t, id, k)
  {
    if Known(s, id, k) {
      if Handles(s.phase[w], id, k) {
        forall v | v in s.phase && v != w ensures !Handles(s.phase[v], id, k) {
          assert !Together(s.phase[w], s.phase[v]);
        }
        assert t.phase[w].Idle? || Handles(t.phase[w], id, k);
      } else {
        forall v | v in s.phase ensures Handles(s.phase[v], id, k) <==> Handles(t.phase[v], id, k) {
        }
      }
    }
  }

  lemma BeginKeepsTrail(sys: System, s: State, w: WorkerId, id: JobId, k: int)
    requires Inv(sys, s) && LogOk(sys, s) && Enabled(s, Begin(w))
    ensures TrailOk(sys, Step(sys, s, Begin(w)), id, k)
  {
    assert HandlerOk(s, w) && TrailOk(sys, s, id, k);
    EmittedTrail(s.log, JobProcessing, s.phase[w].job, id, k);
    MovingOnKeepsTrail(sys, s, Step(sys, s, Begin(w)), w, [JobProcessing], id, k);
  }

  lemma AnnounceKeepsTrail(sys: System, s: State, w: WorkerId, id: JobId, k: int)
    requires Inv(sys, s) && LogOk(sys, s) && Enabled(s, Announce(w))
    ensures TrailOk(sys, Step(sys, s, Announce(w)), id, k)
  {
    assert HandlerOk(s, w) && TrailOk(sys, s, id, k);
    var p := s.phase[w];
    var kind := Report(Decide(sys.policy, p.job.spec, p.job.attempts, p.outcome));
    EmittedTrail(s.log, kind, s.phase[w].job, id, k);
    MovingOnKeepsTrail(sys, s, Step(sys, s, Announce(w)), w, [kind], id, k);
  }

  lemma FinishKeepsTrail(sys: System, s: State, w: WorkerId, id: JobId, k: int)
    requires Inv(sys, s) && LogOk(sys, s) && Enabled(s, Finish(w))
    ensures TrailOk(sys, Step(sys, s, Finish(w)), id, k)
  {
    assert HandlerOk(s, w) && TrailOk(sys, s, id, k);
    EmittedTrail(s.log, JobAttempted, s.phase[w].job, id, k);
    MovingOnKeepsTrail(sys, s, Step(sys, s, Finish(w)), w, [JobAttempted], id, k);
  }

  lemma SettleFrame(sys: System, s: State, w: WorkerId, outcome: Outcome, id: JobId)
    requires w in s.phase && s.phase[w].Running?
    ensures var t := StepSettle(sys, s, w, outcome);
            && t.phase == s.phase[w := Settled(s.phase[w].job, outcome)]
            && t.records.Keys == s.records.Keys
            && (id in s.records ==>
                  && t.records[id].born == s.records[id].born && t.records[id].pops == s.records[id].pops
                  && s.records[id].outcomes <= t.records[id].outcomes)
  {
  }

  lemma SettleKeepsTrail(sys: System, s: State, w: WorkerId, outcome: Outcome, id: JobId, k: int)
    requires Inv(sys, s) && LogOk(sys, s) && Enabled(s, Settle(w, outcome))
    ensures TrailOk(sys, StepSettle(sys, s, w, outcome), id, k)
  {
    assert HandlerOk(s, w) && TrailOk(sys, s, id, k);
    SettleFrame(sys, s, w, outcome, id);
    EmittedTrail(s.log, JobTimedOut, s.phase[w].job, id, k);
    MovingOnKeepsTrail(sys, s, StepSettle(sys, s, w, outcome), w,
                       if outcome.Timeout? then [JobTimedOut] else [], id, k);
  }

  lemma QuietStepKeepsHistory(sys: System, s: State, a: Action, id: JobId, k: int)
    requires MS.Valid(s.store) && Enabled(s, a) && Quiet(a)
    ensures var t := Step(sys, s, a);
            && t.log == s.log && t.phase == s.phase && (Known(t, id, k) <==> Known(s, id, k))
            && (Known(s, id, k) ==> t.records[id].born == s.records[id].born && t.records[id].outcomes == s.records[id].outcomes)
  {
  }

  lemma QuietStepKeepsTrail(sys: System, s: State, a: Action, id: JobId, k: int)
    requires MS.Valid(s.store) && TrailOk(sys, s, id, k) && Enabled(s, a)
    requires Quiet(a)
    ensures TrailOk(sys, Step(sys, s, a), id, k)
  {
    QuietStepKeepsHistory(sys, s, a, id, k);
  }

  lemma StepKeepsLogOk(sys: System, s: State, a: Action)
    requires Inv(sys, s) && LogOk(sys, s) && Enabled(s, a) && Proper(s, a)
    ensures LogOk(sys, Step(sys, s, a))
  {
    StepKeepsHandlers(sys, s, a);
    forall id, k ensures TrailOk(sys, Step(sys, s, a), id, k) {
      assert TrailOk(sys, s, id, k);
      if a.Pop? {
        PopKeepsTrail(sys, s, a.w, id, k);
      } else if a.Begin? {
        BeginKeepsTrail(sys, s, a.w, id, k);
      } else if a.Settle? {
        SettleKeepsTrail(sys, s, a.w, a.outcome, id, k);
      } else if a.Announce? {
        AnnounceKeepsTrail(sys, s, a.w, id, k);
      } else if a.Finish? {
        FinishKeepsTrail(sys, s, a.w, id, k);
      } else {
        QuietStepKeepsTrail(sys, s, a, id, k);
      }
    }
  }

  /** In every reachable state, the log of each attempt is complete, or cut off where its handler is. */
  lemma {:induction false} EventsFollowTheGrammar(sys: System, start: int, run: seq<Action>)
    requires Run(sys, start, run)
    ensures LogOk(sys, Final(sys, start, run))
  {
    if run != [] {
      var front := run[..|run| - 1];
      LastStep(sys, start, run);
      EventsFollowTheGrammar(sys, start, front);
      StepKeepsLogOk(sys, Final(sys, start, front), run[|run| - 1]);
    }
  }

  // ---- totals over the life of a job ----

  datatype Label = Started | Succeeded | Expired | GaveUp | Rescheduled | Handled

  function LabelOf(kind: EventKind): Label {
    match kind
    case JobProcessing => Started
    case JobProcessed => Succeeded
    case JobTimedOut => Expired
    case JobFailed => GaveUp
    case JobReleased(_) => Rescheduled
    case JobAttempted => Handled
  }

  /** How often the log reports `tag` about job `id`. */
  function Tally(log: seq<Event>, id: JobId, tag: Label): int {
    if log == [] then 0
    else
      var n := |log| - 1;
      var e := log[n];
      Tally(log[..n], id, tag) + if e.JobEvent? && e.id == id && LabelOf(e.kind) == tag then 1 else 0
  }

  function TallyTrail(trail: seq<EventKind>, tag: Label): int {
    if trail == [] then 0
    else
      var n := |trail| - 1;
      TallyTrail(trail[..n], tag) + if LabelOf(trail[n]) == tag then 1 else 0
  }

  function TallyAttempts(log: seq<Event>, id: JobId, n: nat, tag: Label): int {
    if n == 0 then 0 else TallyAttempts(log, id, n - 1, tag) + TallyTrail(Trail(log, id, n), tag)
  }

  lemma TallyTrailOfOneMore(trail: seq<EventKind>, kind: EventKind, tag: Label)
    ensures TallyTrail(trail + [kind], tag) == TallyTrail(trail, tag) + if LabelOf(kind) == tag then 1 else 0
  {
  }

  lemma {:induction false} TallyAttemptsOfOneMore(log: seq<Event>, id: JobId, n: nat, tag: Label)
    requires log != []
    ensures var e := log[|log| - 1];
            TallyAttempts(log, id, n, tag) == TallyAttempts(log[..|log| - 1], id, n, tag)
              + if e.JobEvent? && e.id == id && 1 <= e.attempt <= n && LabelOf(e.kind) == tag then 1 else 0
  {
    if n > 0 {
      TallyAttemptsOfOneMore(log, id, n - 1, tag);
      var e := log[|log| - 1];
      var before := Trail(log[..|log| - 1], id, n);
      if Concerns(e, id, n) {
        TallyTrailOfOneMore(before, e.kind, tag);
      }
    }
  }

  /** When only attempts 1 to n of a job have events, its events are those of these attempts. */
  lemma {:induction false} TallyByAttempt(log: seq<Event>, id: JobId, n: nat, tag: Label)
    requires forall k :: k < 1 || k > n ==> Trail(log, id, k) == []
    ensures Tally(log, id, tag) == TallyAttempts(log, id, n, tag)
  {
    if log == [] {
      NoEventsNoTally(id, n, tag);
    } else {
      TallyAttemptsOfOneMore(log, id, n, tag);
      var e := log[|log| - 1];
      if e.JobEvent? && e.id == id {
        assert Trail(log, id, e.attempt) != [];
      }
      forall k {:trigger Trail(log[..|log| - 1], id, k)} | k < 1 || k > n
        ensures Trail(log[..|log| - 1], id, k) == []
      {
        assert Trail(log, id, k) == [];
      }
      TallyByAttempt(log[..|log| - 1], id, n, tag);
    }
  }

  lemma {:induction false} NoEventsNoTally(id: JobId, n: nat, tag: Label)
    ensures TallyAttempts([], id, n, tag) == 0
  {
    if n > 0 {
      NoEventsNoTally(id, n - 1, tag);
    }
  }

  lemma TallyComplete(policy: Policy, spec: JobSpec, k: int, outcome: Outcome, tag: Label)
    ensures var v := Decide(policy, spec, k, outcome);
            TallyTrail(Complete(policy, spec, k, outcome), tag) ==
            match tag
            case Started => 1
            case Handled => 1
            case Expired => if outcome.Timeout? then 1 else 0
            case Succeeded => if v.Done? then 1 else 0
            case GaveUp => if v.GiveUp? then 1 else 0
            case Rescheduled => if v.Retry? then 1 else 0
  {
    var started := UpToSettling(outcome);
    var told := started + [Report(Decide(policy, spec, k, outcome))];
    TallyTrailOfOneMore(told, JobAttempted, tag);
    TallyTrailOfOneMore(started, Report(Decide(policy, spec, k, outcome)), tag);
    assert [JobProcessing][..0] == [];
    TallyTrailOfOneMore([JobProcessing], JobTimedOut, tag);
  }

  function TimeoutsIn(outcomes: seq<Outcome>): int {
    if outcomes == [] then 0
    else
      var n := |outcomes| - 1;
      TimeoutsIn(outcomes[..n]) + if outcomes[n].Timeout? then 1 else 0
  }

  lemma HolderHandles(sys: System, s: State, id: JobId)
    requires Inv(sys, s) && id in s.records && s.records[id].holder.Some?
    ensures !Unhandled(s, id, |s.records[id].pops|)
  {
    assert JobOk(sys, s, id) && WorkerOk(s, s.records[id].holder.value);
  }

  /** Every attempt of the job is settled and reported in full; all but the last were retried. */
  predicate AllHandled(policy: Policy, log: seq<Event>, r: Record) {
    && |r.outcomes| == |r.pops|
    && (forall k :: 0 <= k < |r.pops| ==>
          && Trail(log, r.born.spec.id, k + 1) == Complete(policy, r.born.spec, k + 1, r.outcomes[k])
          && (k + 1 < |r.pops| ==> Decide(policy, r.born.spec, k + 1, r.outcomes[k]).Retry?))
  }

  lemma UnhandledMeansAllHandled(sys: System, s: State, id: JobId)
    requires Inv(sys, s) && LogOk(sys, s) && id in s.records && forall k :: Unhandled(s, id, k)
    ensures AllHandled(sys.policy, s.log, s.records[id])
  {
    var r := s.records[id];
    assert JobOk(sys, s, id);
    if r.holder.Some? {
      HolderHandles(sys, s, id);
      assert false;
    }
    forall k | 0 <= k < |r.pops|
      ensures Trail(s.log, id, k + 1) == Complete(sys.policy, r.born.spec, k + 1, r.outcomes[k])
      ensures k + 1 < |r.pops| ==> Retried(sys.policy, r.born.spec, k + 1, r.outcomes[k])
    {
      assert TrailOk(sys, s, id, k + 1) && Unhandled(s, id, k + 1);
    }
  }

  /** What the first `n` attempts add up to when all of them have been handled. */
  function HandledTally(policy: Policy, r: Record, n: nat, tag: Label): int
    requires |r.outcomes| == |r.pops| && n <= |r.pops|
  {
    var last := n > 0 && n == |r.pops|;
    match tag
    case Started => n
    case Handled => n
    case Rescheduled => if last && !LastVerdict(policy, r).Retry? then n - 1 else n
    case Expired => TimeoutsIn(r.outcomes[..n])
    case Succeeded => if last && LastVerdict(policy, r).Done? then 1 else 0
    case GaveUp => if last && LastVerdict(policy, r).GiveUp? then 1 else 0
  }

  lemma HandledTallyOfOneMore(policy: Policy, r: Record, n: nat, tag: Label)
    requires |r.outcomes| == |r.pops| && 0 < n <= |r.pops|
    requires n < |r.pops| ==> Decide(policy, r.born.spec, n, r.outcomes[n - 1]).Retry?
    ensures HandledTally(policy, r, n, tag)
            == HandledTally(policy, r, n - 1, tag) + TallyTrail(Complete(policy, r.born.spec, n, r.outcomes[n - 1]), tag)
  {
    TallyComplete(policy, r.born.spec, n, r.outcomes[n - 1], tag);
    assert r.outcomes[..n][..n - 1] == r.outcomes[..n - 1];
  }

  lemma {:induction false} TallyOfHandledAttempts(policy: Policy, log: seq<Event>, r: Record, n: nat, tag: Label)
    requires AllHandled(policy, log, r) && n <= |r.pops|
    ensures TallyAttempts(log, r.born.spec.id, n, tag) == HandledTally(policy, r, n, tag)
  {
    if n > 0 {
      TallyOfHandledAttempts(policy, log, r, n - 1, tag);
      HandledTrail(policy, log, r, n);
      HandledTallyOfOneMore(policy, r, n, tag);
    }
  }

  lemma HandledTrail(policy: Policy, log: seq<Event>, r: Record, n: nat)
    requires AllHandled(policy, log, r) && 0 < n <= |r.pops|
    ensures Trail(log, r.born.spec.id, n) == Complete(policy, r.born.spec, n, r.outcomes[n - 1])
    ensures n < |r.pops| ==> Decide(policy, r.born.spec, n, r.outcomes[n - 1]).Retry?
  {
    assert Trail(log, r.born.spec.id, n - 1 + 1) == Complete(policy, r.born.spec, n - 1 + 1, r.outcomes[n - 1]);
  }

  /**
   * A job that ended after k attempts, with nobody handling it any more and never wiped, has been reported as processing
   * k times and attempted k times. Unless it was failed from outside, while it waited for attempt k + 1, it has been
   * released k - 1 times and reported exactly once as either processed or failed.
   */
  lemma EventTotals(sys: System, start: int, run: seq<Action>, id: JobId)
    requires Run(sys, start, run)
    requires var s := Final(sys, start, run);
             && id in s.records && !s.records[id].wiped && Finished(s, id)
             && forall k :: Unhandled(s, id, k)
    ensures var s := Final(sys, start, run);
            var (k, outside) := (|s.records[id].pops|, s.records[id].failedOutside && id in s.store.jobs);
            && (k >= 1 || outside)
            && Tally(s.log, id, Started) == k && Tally(s.log, id, Handled) == k
            && Tally(s.log, id, Rescheduled) == (if outside then k else k - 1)
            && Tally(s.log, id, Succeeded) == (if id in s.store.jobs then 0 else 1)
            && Tally(s.log, id, GaveUp) == (if id in s.store.jobs && !outside then 1 else 0)
            && Tally(s.log, id, Expired) == TimeoutsIn(s.records[id].outcomes)
  {
    var s := Final(sys, start, run);
    FinalSatisfiesInv(sys, start, run);
    EventsFollowTheGrammar(sys, start, run);
    assert JobOk(sys, s, id);
    var n := |s.records[id].pops|;
    forall k | k < 1 || k > n ensures Trail(s.log, id, k) == [] {
      assert TrailOk(sys, s, id, k);
    }
    var r := s.records[id];
    UnhandledMeansAllHandled(sys, s, id);
    forall tag: Label ensures Tally(s.log, id, tag) == TallyAttempts(s.log, id, n, tag) {
      TallyByAttempt(s.log, id, n, tag);
    }
    TallyOfHandledAttempts(sys.policy, s.log, r, n, Started);
    TallyOfHandledAttempts(sys.policy, s.log, r, n, Handled);
    TallyOfHandledAttempts(sys.policy, s.log, r, n, Rescheduled);
    TallyOfHandledAttempts(sys.policy, s.log, r, n, Succeeded);
    TallyOfHandledAttempts(sys.policy, s.log, r, n, GaveUp);
    TallyOfHandledAttempts(sys.policy, s.log, r, n, Expired);
    assert r.outcomes[..n] == r.outcomes;
  }
}
