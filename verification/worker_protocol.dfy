/**
 * N polling workers over one in-memory connection, as interleaved atomic steps.
 *
 * No method of the memory driver awaits, so each call is one step (src/connections/memory.connection.ts).
 * A worker is interrupted only where src/services/worker.service.ts:116-230 awaits: after `pop`, during the
 * processor run, after the call that settles the job, and after the failure policy. Any other worker, any
 * dispatch, pause, removal or clock change may happen in between.
 */
module WorkerProtocol {
  import opened JsStrings
  import opened Options
  import opened Jobs
  import opened WorkerPolicy
  import MS = MemoryStore

  type WorkerId = int

  datatype System = System(tubeOf: map<WorkerId, JsString>, policy: Policy)

  datatype Phase =
    | Idle
    | Popped(job: Job)
    | Running(job: Job)
    | Settled(job: Job, outcome: Outcome)
    | Reported(job: Job, outcome: Outcome)
  {
    /** The worker has the reservation of its job. */
    predicate Holding() {
      Popped? || Running?
    }
  }

  /** What has happened to an accepted job so far: a history kept beside the run and read by none of its steps. */
  datatype Record = Record(
    given: Dispatch,            // the dispatch that was accepted under this id
    born: Job,                  // the job as it was accepted
    pops: seq<int>,             // when it was reserved
    outcomes: seq<Outcome>,     // how its attempts ended
    settled: seq<int>,          // and when
    holder: Option<WorkerId>,   // who has the current reservation
    wiped: bool,                // dropped by clear, close or an outside remove
    failedOutside: bool,        // failed, while it waited, by somebody other than a worker
    outsideReason: Option<Reason>,  // the last reason that such a caller gave
    releasedOutside: bool)      // released by somebody other than its holder

  /** `steady`: the clock has never gone back. */
  datatype State = State(
    store: MS.Store,
    now: int,
    phase: map<WorkerId, Phase>,
    log: seq<Event>,
    records: map<JobId, Record>,
    steady: bool)

  datatype Action =
    | Push(d: Dispatch)
    | Pop(w: WorkerId)
    | Begin(w: WorkerId)
    | Settle(w: WorkerId, outcome: Outcome)
    | Announce(w: WorkerId)
    | Finish(w: WorkerId)
    | Clear(queue: JsString)
    | Close
    | Pause(queue: JsString)
    | Resume(queue: JsString)
    | Remove(id: JobId)
    | SetClock(time: int)
    | OutsideRelease(id: JobId, delayMs: int)
    | OutsideFail(id: JobId, reason: Reason)

  function Init(sys: System, now: int): State {
    State(MS.EMPTY, now, map w | w in sys.tubeOf :: Idle, [], map[], true)
  }

  predicate Enabled(s: State, a: Action) {
    match a
    case Push(d) => d.id !in s.records && d.now == s.now
    case Pop(w) => w in s.phase && s.phase[w].Idle?
    case Begin(w) => w in s.phase && s.phase[w].Popped?
    case Settle(w, _) => w in s.phase && s.phase[w].Running?
    case Announce(w) => w in s.phase && s.phase[w].Settled?
    case Finish(w) => w in s.phase && s.phase[w].Reported?
    case _ => true
  }

  function Emit(log: seq<Event>, kind: EventKind, job: Job): seq<Event> {
    log + [JobEvent(kind, job.spec.id, job.attempts)]
  }

  function StepPush(s: State, d: Dispatch): State
    requires MS.Valid(s.store)
  {
    var (store, id) := MS.Push(s.store, NewJob(d));
    if id != d.id then s
    else s.(store := store, records := s.records[id := Record(d, NewJob(d), [], [], [], None, false, false, None, false)])
  }

  function Reservation(r: Record, w: WorkerId, now: int): Record {
    r.(pops := r.pops + [now], holder := Some(w))
  }

  function Concluded(r: Record, outcome: Outcome, now: int): Record {
    r.(outcomes := r.outcomes + [outcome], settled := r.settled + [now], holder := None)
  }

  function FailedOutside(r: Record, status: Status, reason: Reason): Record {
    r.(failedOutside := r.failedOutside || Waiting(status), outsideReason := Some(reason))
  }

  function StepPop(sys: System, s: State, w: WorkerId): State
    requires MS.Valid(s.store)
  {
    if w !in sys.tubeOf then s
    else
      var (store, job) := MS.Pop(s.store, sys.tubeOf[w], s.now);
      if job.None? || job.value.spec.id !in s.records then s.(store := store)
      else
        var id := job.value.spec.id;
        s.(store := store, phase := s.phase[w := Popped(job.value)],
           records := s.records[id := Reservation(s.records[id], w, s.now)])
  }

  function StepSettle(sys: System, s: State, w: WorkerId, outcome: Outcome): State
    requires w in s.phase && s.phase[w].Running?
  {
    var job := s.phase[w].job;
    var id := job.spec.id;
    s.(store := SettleStore(s.store, id, Decide(sys.policy, job.spec, job.attempts, outcome), s.now),
       phase := s.phase[w := Settled(job, outcome)],
       log := if outcome.Timeout? then Emit(s.log, JobTimedOut, job) else s.log,
       records := if id in s.records then s.records[id := Concluded(s.records[id], outcome, s.now)] else s.records)
  }

  function Wipe(records: map<JobId, Record>, gone: set<JobId>): map<JobId, Record> {
    map id | id in records :: if id in gone then records[id].(wiped := true) else records[id]
  }

  function Step(sys: System, s: State, a: Action): State
    requires Enabled(s, a) && MS.Valid(s.store)
  {
    match a
    case Push(d) => StepPush(s, d)
    case Pop(w) => StepPop(sys, s, w)
    case Begin(w) =>
      var job := s.phase[w].job;
      s.(phase := s.phase[w := Running(job)], log := Emit(s.log, JobProcessing, job))
    case Settle(w, outcome) => StepSettle(sys, s, w, outcome)
    case Announce(w) =>
      var (job, outcome) := (s.phase[w].job, s.phase[w].outcome);
      s.(phase := s.phase[w := Reported(job, outcome)],
         log := Emit(s.log, Report(Decide(sys.policy, job.spec, job.attempts, outcome)), job))
    case Finish(w) =>
      s.(phase := s.phase[w := Idle], log := Emit(s.log, JobAttempted, s.phase[w].job))
    case Clear(queue) =>
      s.(store := MS.Clear(s.store, queue), records := Wipe(s.records, MS.OnTube(s.store.jobs, queue)))
    case Close => s.(store := MS.Close(s.store), records := Wipe(s.records, s.store.jobs.Keys))
    case Pause(queue) => s.(store := MS.Pause(s.store, queue))
    case Resume(queue) => s.(store := MS.Resume(s.store, queue))
    case Remove(id) =>
      s.(store := MS.Remove(s.store, id), records := Wipe(s.records, s.store.jobs.Keys * {id}))
    case SetClock(time) => s.(now := time, steady := s.steady && s.now <= time)
    case OutsideRelease(id, delayMs) =>
      s.(store := MS.Release(s.store, id, delayMs, s.now),
         records := if id in s.store.jobs && id in s.records then s.records[id := s.records[id].(releasedOutside := true)]
                    else s.records)
    case OutsideFail(id, reason) =>
      s.(store := MS.Fail(s.store, id, reason, s.now),
         records := if id in s.store.jobs && id in s.records
                    then s.records[id := FailedOutside(s.records[id], s.store.jobs[id].status, reason)] else s.records)
  }

  lemma StepKeepsStoreValid(sys: System, s: State, a: Action)
    requires Enabled(s, a) && MS.Valid(s.store)
    ensures MS.Valid(Step(sys, s, a).store)
  {
    match a
    case Push(d) => MS.PushKeepsValid(s.store, NewJob(d));
    case Pop(w) => if w in sys.tubeOf { MS.PopKeepsValid(s.store, sys.tubeOf[w], s.now); }
    case Settle(w, outcome) =>
      var job := s.phase[w].job;
      MS.RemoveKeepsValid(s.store, job.spec.id);
      match Decide(sys.policy, job.spec, job.attempts, outcome) {
        case Done =>
        case GiveUp(reason) => MS.FailKeepsValid(s.store, job.spec.id, reason, s.now);
        case Retry(delayMs) => MS.ReleaseKeepsValid(s.store, job.spec.id, delayMs, s.now);
      }
    case Clear(queue) => MS.ClearKeepsValid(s.store, queue);
    case Remove(id) => MS.RemoveKeepsValid(s.store, id);
    case OutsideRelease(id, delayMs) => MS.ReleaseKeepsValid(s.store, id, delayMs, s.now);
    case OutsideFail(id, reason) => MS.FailKeepsValid(s.store, id, reason, s.now);
    case _ =>
  }

  /** The state after a run, or None when one of its actions was not possible. */
  function Exec(sys: System, s: State, run: seq<Action>): (r: Option<State>)
    requires MS.Valid(s.store)
    ensures r.Some? ==> MS.Valid(r.value.store)
  {
    if run == [] then Some(s)
    else
      var n := |run| - 1;
      match Exec(sys, s, run[..n])
      case None => None
      case Some(t) =>
        if !Enabled(t, run[n]) then None
        else
          StepKeepsStoreValid(sys, t, run[n]);
          Some(Step(sys, t, run[n]))
  }

  /** Others than the holder release a job only while it waits, and fail it only while it is not reserved. */
  predicate Proper(s: State, a: Action) {
    match a
    case OutsideRelease(id, _) => id in s.store.jobs ==> Waiting(s.store.jobs[id].status)
    case OutsideFail(id, _) => id in s.store.jobs ==> s.store.jobs[id].status != Reserved
    case _ => true
  }

  predicate Disciplined(sys: System, s: State, run: seq<Action>)
    requires MS.Valid(s.store)
  {
    run != [] ==>
      var n := |run| - 1;
      Disciplined(sys, s, run[..n]) && (Exec(sys, s, run[..n]).Some? ==> Proper(Exec(sys, s, run[..n]).value, run[n]))
  }
}
