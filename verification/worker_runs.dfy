/**
 * What runs of the worker protocol have to do with draining and counting, and why the discipline on runs is needed:
 * concrete runs in which an outside release or fail breaks the guarantees.
 */
module WorkerRuns {
  import opened JsStrings
  import opened Options
  import opened Jobs
  import opened WorkerPolicy
  import opened WorkerProtocol
  import opened WorkerInvariants
  import opened WorkerTheorems
  import opened MemoryStoreLaws
  import MS = MemoryStore
  import D = Drain
  import PO = PushOrder

  // ---- counting in runs ----

  lemma StepUsesFourStatuses(sys: System, s: State, a: Action)
    requires Enabled(s, a) && MS.Valid(s.store) && UsesFourStatuses(s.store)
    ensures UsesFourStatuses(Step(sys, s, a).store)
  {
  }

  /** After any run whatever, disciplined or not, every tube's size is the sum of its status counts. */
  lemma {:induction false} SizesAddUp(sys: System, start: int, run: seq<Action>, queue: JsString)
    requires Exec(sys, Init(sys, start), run).Some?
    ensures var store := Exec(sys, Init(sys, start), run).value.store;
            && UsesFourStatuses(store)
            && MS.Size(store, queue)
               == MS.SizeOf(store, queue, Pending) + MS.SizeOf(store, queue, Delayed) + MS.SizeOf(store, queue, Reserved)
  {
    if run != [] {
      var n := |run| - 1;
      SizesAddUp(sys, start, run[..n], queue);
      StepUsesFourStatuses(sys, Exec(sys, Init(sys, start), run[..n]).value, run[n]);
    }
    SizeIsConserved(Exec(sys, Init(sys, start), run).value.store, queue);
  }

  // ---- draining from a reachable state ----

  /** Where no worker holds a job of an unpaused tube, the tube is ready to be drained. */
  lemma ReachableTubeIsReady(sys: System, start: int, run: seq<Action>, queue: JsString)
    requires Run(sys, start, run)
    requires var s := Final(sys, start, run);
             && queue !in s.store.paused
             && forall w :: w in s.phase && s.phase[w].Holding() ==> s.phase[w].job.spec.queue != queue
    ensures D.Ready(Final(sys, start, run).store, queue)
  {
    FinalSatisfiesInv(sys, start, run);
    var s := Final(sys, start, run);
    forall id | id in s.store.jobs && s.store.jobs[id].spec.queue == queue
      ensures match s.store.jobs[id].status
              case Pending | Delayed => 0 <= s.store.jobs[id].attempts < Budget(s.store.jobs[id].spec)
              case Failed => true
              case _ => false
    {
      assert JobOk(sys, s, id);
      var holder := s.records[id].holder;
      assert holder.Some? ==> WorkerOk(s, holder.value);
    }
  }

  lemma SettleKeepsCreatedBy(sys: System, s: State, w: WorkerId, outcome: Outcome)
    requires PO.CreatedBy(s.store, s.now) && Enabled(s, Settle(w, outcome))
    ensures PO.CreatedBy(StepSettle(sys, s, w, outcome).store, s.now)
  {
    var t := StepSettle(sys, s, w, outcome);
    var job := s.phase[w].job;
    StepKeepsStoreValid(sys, s, Settle(w, outcome));
    if Decide(sys.policy, job.spec, job.attempts, outcome).Done? {
      PO.DropKeepsCreatedBy(s.store, t.store, {job.spec.id}, s.now);
    } else {
      PO.UpdateKeepsCreatedBy(s.store, t.store, s.now);
    }
  }

  lemma StepKeepsCreatedBy(sys: System, s: State, a: Action)
    requires Inv(sys, s) && PO.CreatedBy(s.store, s.now) && Enabled(s, a)
    requires Step(sys, s, a).steady
    ensures var t := Step(sys, s, a); PO.CreatedBy(t.store, t.now)
  {
    var t := Step(sys, s, a);
    StepKeepsStoreValid(sys, s, a);
    match a
    case Push(d) => PO.PushKeepsCreatedBy(s.store, NewJob(d), s.now);
    case Pop(w) =>
      PopTakesAFreeJob(sys, s, w);
      PO.UpdateKeepsCreatedBy(s.store, t.store, s.now);
    case Settle(w, outcome) => SettleKeepsCreatedBy(sys, s, w, outcome);
    case Clear(queue) => PO.DropKeepsCreatedBy(s.store, t.store, MS.OnTube(s.store.jobs, queue), s.now);
    case Remove(id) => PO.DropKeepsCreatedBy(s.store, t.store, {id}, s.now);
    case _ => OtherStepsKeepCreatedBy(sys, s, a);
  }

  lemma OtherStepsKeepCreatedBy(sys: System, s: State, a: Action)
    requires PO.CreatedBy(s.store, s.now) && Enabled(s, a) && Step(sys, s, a).steady
    requires !a.Push? && !a.Pop? && !a.Settle? && !a.Clear? && !a.Remove?
    ensures var t := Step(sys, s, a); PO.CreatedBy(t.store, t.now)
  {
    var t := Step(sys, s, a);
    StepKeepsStoreValid(sys, s, a);
    if a.OutsideRelease? || a.OutsideFail? {
      PO.UpdateKeepsCreatedBy(s.store, t.store, s.now);
    }
  }

  /** While the clock never goes back, insertion order is creation order in every disciplined run. */
  lemma {:induction false} SteadyRunsCreateInOrder(sys: System, start: int, run: seq<Action>)
    requires Run(sys, start, run) && Final(sys, start, run).steady
    ensures var s := Final(sys, start, run); PO.CreatedBy(s.store, s.now)
  {
    if run != [] {
      var front := run[..|run| - 1];
      LastStep(sys, start, run);
      SteadyRunsCreateInOrder(sys, start, front);
      StepKeepsCreatedBy(sys, Final(sys, start, front), run[|run| - 1]);
    }
  }

  lemma ExecThen(sys: System, s: State, run: seq<Action>, u: State, a: Action)
    requires MS.Valid(s.store) && Exec(sys, s, run) == Some(u) && Enabled(u, a)
    ensures Exec(sys, s, run + [a]) == Some(Step(sys, u, a)) && MS.Valid(Step(sys, u, a).store)
  {
  }

  /** From a running processor on: settle, announce, finish. */
  lemma SettlingIsARun(sys: System, s: State, run: seq<Action>, u: State, w: WorkerId, outcome: Outcome) returns (t: State)
    requires MS.Valid(s.store) && Exec(sys, s, run) == Some(u) && w in u.phase && u.phase[w].Running?
    ensures Exec(sys, s, run + [Settle(w, outcome)] + [Announce(w)] + [Finish(w)]) == Some(t)
    ensures var job := u.phase[w].job;
            && t.store == SettleStore(u.store, job.spec.id, Decide(sys.policy, job.spec, job.attempts, outcome), u.now)
            && t.phase == u.phase[w := Idle] && t.now == u.now
  {
    ExecThen(sys, s, run, u, Settle(w, outcome));
    var u1 := StepSettle(sys, u, w, outcome);
    ExecThen(sys, s, run + [Settle(w, outcome)], u1, Announce(w));
    var u2 := Step(sys, u1, Announce(w));
    ExecThen(sys, s, run + [Settle(w, outcome)] + [Announce(w)], u2, Finish(w));
    t := Step(sys, u2, Finish(w));
  }

  /** A worker that is about to poll an orderly store. */
  predicate Polls(sys: System, s: State, w: WorkerId) {
    MS.Valid(s.store) && s.store.jobs.Keys <= s.records.Keys && w in sys.tubeOf && w in s.phase && s.phase[w].Idle?
  }

  /** What a worker does for one job, with the clock at `later` when its processor is done. */
  function Attempt(w: WorkerId, later: int, outcome: Outcome): (run: seq<Action>)
    ensures NoOutsideCalls(run)
  {
    [Pop(w), Begin(w)] + [SetClock(later)] + [Settle(w, outcome)] + [Announce(w)] + [Finish(w)]
  }

  /** What a worker does in a tick that pops `job`. */
  function TickSteps(w: WorkerId, job: Job, p: D.Processor, now: int): (run: seq<Action>)
    ensures NoOutsideCalls(run)
  {
    Attempt(w, now + p.took(job.spec.id, job.attempts), p.outcome(job.spec.id, job.attempts))
  }

  /** A tick of the draining worker is six steps of the protocol in which nobody else but the clock moves. */
  lemma TickIsARun(sys: System, s: State, w: WorkerId, p: D.Processor, run: seq<Action>) returns (t: State)
    requires Polls(sys, s, w) && MS.Pop(s.store, sys.tubeOf[w], s.now).1.Some?
    requires run == TickSteps(w, MS.Pop(s.store, sys.tubeOf[w], s.now).1.value, p, s.now)
    ensures Exec(sys, s, run) == Some(t)
    ensures var tick := D.Tick(s.store, sys.tubeOf[w], sys.policy, p, s.now);
            t.store == tick.store && t.phase == s.phase && t.now == tick.now
  {
    var (popped, job) := MS.Pop(s.store, sys.tubeOf[w], s.now);
    var later := s.now + p.took(job.value.spec.id, job.value.attempts);
    D.TickSettles(s.store, sys.tubeOf[w], sys.policy, p, s.now);
    t := AttemptIsARun(sys, s, w, popped, job.value, later, p.outcome(job.value.spec.id, job.value.attempts), run);
  }

  lemma AttemptIsARun(sys: System, s: State, w: WorkerId, popped: MS.Store, job: Job, later: int, outcome: Outcome, run: seq<Action>)
    returns (t: State)
    requires Polls(sys, s, w) && MS.Pop(s.store, sys.tubeOf[w], s.now) == (popped, Some(job)) && run == Attempt(w, later, outcome)
    ensures Exec(sys, s, run) == Some(t)
    ensures t.store == SettleStore(popped, job.spec.id, Decide(sys.policy, job.spec, job.attempts, outcome), later)
    ensures t.phase == s.phase && t.now == later
  {
    var u := PoppingIsARun(sys, s, w);
    MS.PopKeepsValid(s.store, sys.tubeOf[w], s.now);
    var v := ClockIsARun(sys, s, [Pop(w), Begin(w)], u, later);
    t := SettlingIsARun(sys, s, [Pop(w), Begin(w)] + [SetClock(later)], v, w, outcome);
    assert t.phase == s.phase;
  }

  lemma ClockIsARun(sys: System, s: State, run: seq<Action>, u: State, later: int) returns (t: State)
    requires MS.Valid(s.store) && Exec(sys, s, run) == Some(u)
    ensures Exec(sys, s, run + [SetClock(later)]) == Some(t)
    ensures t.store == u.store && t.phase == u.phase && t.now == later
  {
    ExecThen(sys, s, run, u, SetClock(later));
    t := Step(sys, u, SetClock(later));
  }

  lemma ExecTwo(sys: System, s: State, a: Action, t: State, b: Action)
    requires MS.Valid(s.store) && Enabled(s, a) && t == Step(sys, s, a) && MS.Valid(t.store) && Enabled(t, b)
    ensures Exec(sys, s, [a, b]) == Some(Step(sys, t, b))
  {
    assert [a, b][..1] == [a] && [a][..0] == [];
    assert Exec(sys, s, [a]) == Some(t);
  }

  lemma PoppingIsARun(sys: System, s: State, w: WorkerId) returns (u: State)
    requires Polls(sys, s, w) && MS.Pop(s.store, sys.tubeOf[w], s.now).1.Some?
    ensures Exec(sys, s, [Pop(w), Begin(w)]) == Some(u)
    ensures var (store, job) := MS.Pop(s.store, sys.tubeOf[w], s.now);
            u.store == store && u.phase == s.phase[w := Running(job.value)] && u.now == s.now
  {
    MS.PopTakesOne(s.store, sys.tubeOf[w], s.now);
    StepKeepsStoreValid(sys, s, Pop(w));
    var t := StepPop(sys, s, w);
    u := Step(sys, t, Begin(w));
    ExecTwo(sys, s, Pop(w), t, Begin(w));
  }

  lemma ExecOneMore(sys: System, s: State, run: seq<Action>, a: Action)
    requires MS.Valid(s.store)
    ensures Exec(sys, s, run + [a]).Some?
            <==> Exec(sys, s, run).Some? && Enabled(Exec(sys, s, run).value, a)
    ensures Exec(sys, s, run + [a]).Some? ==> Exec(sys, s, run + [a]).value == Step(sys, Exec(sys, s, run).value, a)
  {
    assert (run + [a])[..|run|] == run;
  }

  lemma {:induction false} ExecConcat(sys: System, s: State, first: seq<Action>, u: State, second: seq<Action>)
    requires MS.Valid(s.store) && Exec(sys, s, first) == Some(u) && MS.Valid(u.store)
    ensures Exec(sys, s, first + second) == Exec(sys, u, second)
  {
    if second == [] {
      assert first + second == first;
    } else {
      var (front, last) := (second[..|second| - 1], second[|second| - 1]);
      ExecConcat(sys, s, first, u, front);
      ExecOneMore(sys, s, first + front, last);
      ExecOneMore(sys, u, front, last);
      assert first + second == first + front + [last] && second == front + [last];
    }
  }

  predicate NoOutsideCalls(run: seq<Action>) {
    forall i :: 0 <= i < |run| ==> !run[i].OutsideRelease? && !run[i].OutsideFail?
  }

  lemma {:induction false} NoOutsideCallsIsDisciplined(sys: System, s: State, run: seq<Action>)
    requires MS.Valid(s.store) && NoOutsideCalls(run)
    ensures Disciplined(sys, s, run)
  {
    if run != [] {
      NoOutsideCallsIsDisciplined(sys, s, run[..|run| - 1]);
    }
  }

  /** The whole drain is a run of the protocol without outside calls: ticks of one worker, and the clock moved on. */
  lemma {:induction false} DrainIsARun(sys: System, s: State, w: WorkerId, p: D.Processor) returns (run: seq<Action>, t: State)
    requires Inv(sys, s) && w in s.phase && s.phase[w].Idle? && D.Ready(s.store, sys.tubeOf[w])
    ensures NoOutsideCalls(run) && Exec(sys, s, run) == Some(t)
    ensures var r := D.DrainTube(s.store, sys.tubeOf[w], sys.policy, p, s.now);
            t.store == r.store && t.now == r.now && t.phase == s.phase
    decreases D.Remaining(s.store.order, s.store.jobs, sys.tubeOf[w]),
              if D.Tick(s.store, sys.tubeOf[w], sys.policy, p, s.now).popped.Some? then 0 else 1
  {
    var queue := sys.tubeOf[w];
    D.ReadyHasNaturalShares(s.store, queue);
    if D.Tick(s.store, queue, sys.policy, p, s.now).popped.Some? {
      D.TickSpendsAnAttempt(s.store, queue, sys.policy, p, s.now);
    } else if D.NextDue(s.store.order, s.store.jobs, queue).Some? {
      D.DueJobIsPopped(s.store, queue, sys.policy, p, s.now);
    } else {
      return [], s;
    }
    var first, u := DrainMovesOn(sys, s, w, p);
    var rest: seq<Action>;
    rest, t := DrainIsARun(sys, u, w, p);
    ExecConcat(sys, s, first, u, rest);
    run := first + rest;
  }

  /** One round of the drain: a tick that pops, or the clock moved to the next due time. */
  lemma DrainMovesOn(sys: System, s: State, w: WorkerId, p: D.Processor) returns (run: seq<Action>, t: State)
    requires Inv(sys, s) && w in s.phase && s.phase[w].Idle?
    requires D.Tick(s.store, sys.tubeOf[w], sys.policy, p, s.now).popped.None? ==>
               D.NextDue(s.store.order, s.store.jobs, sys.tubeOf[w]).Some?
    ensures NoOutsideCalls(run) && Exec(sys, s, run) == Some(t) && Inv(sys, t) && t.phase == s.phase
    ensures var tick := D.Tick(s.store, sys.tubeOf[w], sys.policy, p, s.now);
            if tick.popped.Some? then t.store == tick.store && t.now == tick.now
            else t.store == s.store && t.now == D.NextDue(s.store.order, s.store.jobs, sys.tubeOf[w]).value
  {
    var tick := D.Tick(s.store, sys.tubeOf[w], sys.policy, p, s.now);
    if tick.popped.Some? {
      run := TickSteps(w, MS.Pop(s.store, sys.tubeOf[w], s.now).1.value, p, s.now);
      t := TickIsARun(sys, s, w, p, run);
    } else {
      var due := D.NextDue(s.store.order, s.store.jobs, sys.tubeOf[w]).value;
      ExecThen(sys, s, [], s, SetClock(due));
      run, t := [] + [SetClock(due)], Step(sys, s, SetClock(due));
    }
    NoOutsideCallsIsDisciplined(sys, s, run);
    RunKeepsInv(sys, s, run);
  }

  /**
   * After any disciplined run with a steady clock: if nobody holds a job of an unpaused tube and all its waiting jobs are
   * due, a worker whose processor succeeds, however long it takes, pops them in the order in which they were pushed.
   */
  lemma SteadyRunsDrainInPushOrder(sys: System, start: int, run: seq<Action>, queue: JsString, p: D.Processor)
    requires Run(sys, start, run) && Final(sys, start, run).steady
    requires forall id, k :: p.outcome(id, k) == Ok && p.took(id, k) >= 0
    requires var s := Final(sys, start, run);
             && queue !in s.store.paused
             && (forall w :: w in s.phase && s.phase[w].Holding() ==> s.phase[w].job.spec.queue != queue)
             && PO.AllDue(s.store.jobs.Keys, s.store.jobs, queue, s.now)
    ensures var s := Final(sys, start, run);
            && D.Ready(s.store, queue) && MS.Listed(s.store.order, s.store.jobs)
            && D.DrainTube(s.store, queue, sys.policy, p, s.now).pops == PO.WaitingOn(s.store.order, s.store.jobs, queue)
  {
    ReachableTubeIsReady(sys, start, run, queue);
    SteadyRunsCreateInOrder(sys, start, run);
    var s := Final(sys, start, run);
    PO.ProcessedInPushOrder(s.store, queue, sys.policy, p, s.now);
  }

  // ---- why runs must be disciplined ----

  lemma FirstPush(sys: System, d: Dispatch) returns (u: State)
    ensures Exec(sys, Init(sys, d.now), [] + [Push(d)]) == Some(u)
    ensures u.store == MS.Store([d.id], map[d.id := NewJob(d)], {}) && MS.Valid(u.store)
    ensures u.now == d.now && u.phase == Init(sys, d.now).phase && u.records.Keys == {d.id}
  {
    var s := Init(sys, d.now);
    ExecThen(sys, s, [], s, Push(d));
    u := StepPush(s, d);
  }

  /** The only job of a store is popped when it is eligible. */
  lemma PopOnlyJob(sys: System, u: State, w: WorkerId, id: JobId) returns (t: State)
    requires Polls(sys, u, w) && u.store.order == [id] && id in u.store.jobs
    requires Eligible(u.store.jobs[id], sys.tubeOf[w], u.now) && sys.tubeOf[w] !in u.store.paused
    ensures t == Step(sys, u, Pop(w)) && MS.Valid(t.store)
    ensures var job := ReservedAt(u.store.jobs[id], u.now);
            && t.store == u.store.(jobs := u.store.jobs[id := job]) && t.phase == u.phase[w := Popped(job)]
            && t.now == u.now && t.records.Keys == u.records.Keys
  {
    StepKeepsStoreValid(sys, u, Pop(w));
    assert u.store.order[..0] == [];
    assert MS.Oldest([], u.store.jobs, sys.tubeOf[w], u.now) == None;
    t := StepPop(sys, u, w);
  }

  /** In every system with two workers on one tube, an outside release of a reserved job can hand it to the second one. */
  lemma OutsideReleaseBreaksExclusivity(sys: System, w: WorkerId, v: WorkerId, id: JobId, now: int)
    requires w in sys.tubeOf && v in sys.tubeOf && w != v && sys.tubeOf[w] == sys.tubeOf[v]
    ensures var d := DueDispatch(id, now, sys.tubeOf[w], None);
            var t := Exec(sys, Init(sys, now), [] + [Push(d)] + [Pop(w)] + [OutsideRelease(id, 0)] + [Pop(v)]);
            && t.Some? && w in t.value.phase && v in t.value.phase
            && t.value.phase[w].Holding() && t.value.phase[v].Holding()
            && t.value.phase[w].job.spec.id == t.value.phase[v].job.spec.id
  {
    var d := DueDispatch(id, now, sys.tubeOf[w], None);
    var u := FirstPush(sys, d);
    var t := JobTakenOver(sys, Init(sys, now), [] + [Push(d)], u, w, v, id);
  }

  /** The only job is popped, released from outside, and popped by another worker. */
  lemma JobTakenOver(sys: System, s: State, run: seq<Action>, u: State, w: WorkerId, v: WorkerId, id: JobId) returns (t: State)
    requires MS.Valid(s.store) && Exec(sys, s, run) == Some(u) && Polls(sys, u, w) && Polls(sys, u, v)
    requires u.store.order == [id] && id in u.store.jobs && w != v && sys.tubeOf[w] == sys.tubeOf[v]
    requires Eligible(u.store.jobs[id], sys.tubeOf[w], u.now) && sys.tubeOf[w] !in u.store.paused
    ensures Exec(sys, s, run + [Pop(w)] + [OutsideRelease(id, 0)] + [Pop(v)]) == Some(t)
    ensures && w in t.phase && v in t.phase && t.phase[w].Holding() && t.phase[v].Holding()
            && t.phase[w].job.spec.id == t.phase[v].job.spec.id == id
  {
    var u1 := PopOnlyJob(sys, u, w, id);
    StepKeepsStoreValid(sys, u1, OutsideRelease(id, 0));
    var u2 := Step(sys, u1, OutsideRelease(id, 0));
    t := PopOnlyJob(sys, u2, v, id);
    ExecThree(sys, s, run, u, Pop(w), u1, OutsideRelease(id, 0), u2, Pop(v));
  }

  /** An outside release of a failed job puts it beside the job that took over its unique id. */
  lemma OutsideReleaseBreaksUniqueness(sys: System, d: Dispatch, e: Dispatch, queue: JsString, key: JsString, reason: Reason)
    requires Truthy(key) && d.id != e.id && d.now == e.now
    requires d == DueDispatch(d.id, d.now, queue, Some(key)) && e == DueDispatch(e.id, d.now, queue, Some(key))
    ensures var run := [] + [Push(d)] + [OutsideFail(d.id, reason)] + [Push(e)] + [OutsideRelease(d.id, 0)];
            var t := Exec(sys, Init(sys, d.now), run);
            t.Some? && !Unique(t.value.store.jobs)
  {
    var u := FirstPush(sys, d);
    var t := KeyTakenOver(sys, Init(sys, d.now), [] + [Push(d)], u, d.id, e, reason);
    assert SameKeyInFlight(t.store.jobs[d.id], t.store.jobs[e.id]);
  }

  /** The only job is failed from outside, a second one is accepted, and the first is released. */
  lemma KeyTakenOver(sys: System, s: State, run: seq<Action>, u: State, id: JobId, e: Dispatch, reason: Reason)
    returns (t: State)
    requires MS.Valid(s.store) && Exec(sys, s, run) == Some(u) && MS.Valid(u.store) && u.store.order == [id]
    requires id in u.store.jobs && e.id != id && u.records.Keys == {id} && u.now == e.now
    ensures Exec(sys, s, run + [OutsideFail(id, reason)] + [Push(e)] + [OutsideRelease(id, 0)]) == Some(t)
    ensures && id in t.store.jobs && t.store.jobs[id] == ReleasedAt(FailedAt(u.store.jobs[id], reason, u.now), 0, u.now)
            && e.id in t.store.jobs && t.store.jobs[e.id] == NewJob(e)
  {
    var u1 := OutsideCall(sys, u, OutsideFail(id, reason));
    var u2 := PushPastFailedJob(sys, u1, id, e);
    t := OutsideCall(sys, u2, OutsideRelease(id, 0));
    ExecThree(sys, s, run, u, OutsideFail(id, reason), u1, Push(e), u2, OutsideRelease(id, 0));
  }

  lemma ExecThree(sys: System, s: State, run: seq<Action>, u: State, a: Action, v: State, b: Action, w: State, c: Action)
    requires MS.Valid(s.store) && Exec(sys, s, run) == Some(u) && Enabled(u, a) && v == Step(sys, u, a)
    requires MS.Valid(v.store) && Enabled(v, b) && w == Step(sys, v, b) && MS.Valid(w.store) && Enabled(w, c)
    ensures Exec(sys, s, run + [a] + [b] + [c]) == Some(Step(sys, w, c))
  {
    ExecThen(sys, s, run, u, a);
    ExecThen(sys, s, run + [a], v, b);
    ExecThen(sys, s, run + [a] + [b], w, c);
  }

  lemma OutsideCall(sys: System, u: State, a: Action) returns (t: State)
    requires MS.Valid(u.store) && (a.OutsideRelease? || a.OutsideFail?) && a.id in u.store.jobs
    ensures t == Step(sys, u, a) && MS.Valid(t.store) && t.store.order == u.store.order
    ensures t.now == u.now && t.records.Keys == u.records.Keys && t.phase == u.phase
    ensures var job := u.store.jobs[a.id];
            t.store.jobs == u.store.jobs[a.id := if a.OutsideFail? then FailedAt(job, a.reason, u.now)
                                                 else ReleasedAt(job, a.delayMs, u.now)]
  {
    StepKeepsStoreValid(sys, u, a);
    t := Step(sys, u, a);
  }

  lemma PushPastFailedJob(sys: System, u: State, id: JobId, e: Dispatch) returns (t: State)
    requires MS.Valid(u.store) && Enabled(u, Push(e)) && u.store.order == [id] && id in u.store.jobs && e.id != id
    requires u.store.jobs[id].status == Failed
    ensures t == Step(sys, u, Push(e)) && MS.Valid(t.store) && t.now == u.now && t.records.Keys == u.records.Keys + {e.id}
    ensures t.store.jobs == u.store.jobs[e.id := NewJob(e)]
  {
    StepKeepsStoreValid(sys, u, Push(e));
    assert u.store.order[..0] == [];
    assert MS.FirstBlocking([], u.store.jobs, NewJob(e).spec.uniqueId) == None;
    t := StepPush(u, e);
  }

  /** An explicit unique id deduplicates a second push exactly when it is not the empty string. */
  lemma OnlyNonEmptyKeysDeduplicate(s: MS.Store, d: Dispatch, again: Dispatch)
    requires MS.Valid(s) && d.id !in s.jobs && again.id !in s.jobs && d.id != again.id
    requires d.options.uniqueFor.Some? && again.options.uniqueFor.Some?
    requires d.options.uniqueId.Some? && d.options.uniqueId == again.options.uniqueId
    ensures var (t, id) := MS.Push(s, NewJob(d));
            MS.Valid(t) && (MS.Push(t, NewJob(again)).1 == id <==> Truthy(d.options.uniqueId.value))
  {
    MS.PushKeepsValid(s, NewJob(d));
    if Truthy(d.options.uniqueId.value) {
      PushedJobBlocksFirst(s, NewJob(d));
    }
  }
}
