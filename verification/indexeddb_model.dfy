/**
 * The IndexedDB driver as interleaved transactions (src/connections/indexeddb.connection.ts). Each transaction is atomic
 * (section 2.7 of the W3C Indexed Database API), but `pop` is three of them: it reads the pause flag, scans for a job,
 * and then writes back a reserved copy of what the scan saw. Anything may happen in between.
 */
module IndexedDbModel {
  import opened JsStrings
  import opened Options
  import opened Jobs
  import opened WorkerPolicy
  import MS = MemoryStore

  type Table = map<JobId, Job>

  // ---- the transactions ----

  /** The scan's choice: the eligible job that is least by (createdAt, id), for cursors run in the order of primary keys. */
  predicate Chosen(jobs: Table, queue: JsString, now: int, r: Option<JobId>) {
    match r
    case None => forall id :: id in jobs ==> !Eligible(jobs[id], queue, now)
    case Some(best) =>
      && best in jobs && Eligible(jobs[best], queue, now)
      && forall id :: id in jobs && Eligible(jobs[id], queue, now) ==>
           jobs[best].spec.createdAt < jobs[id].spec.createdAt
           || (jobs[best].spec.createdAt == jobs[id].spec.createdAt && best <= id)
  }

  /** The duplicate found by `push`: the last in-flight holder of the unique id in key order. */
  predicate LastBlocking(jobs: Table, uid: Option<JsString>, r: Option<JobId>) {
    match r
    case None => forall id :: id in jobs ==> !Blocks(jobs[id], uid)
    case Some(last) => last in jobs && Blocks(jobs[last], uid) && forall id :: id in jobs && Blocks(jobs[id], uid) ==> id <= last
  }

  function PushTx(jobs: Table, job: Job, existing: Option<JobId>): (Table, JobId) {
    if Deduplicated(job) && existing.Some? then (jobs, existing.value) else (jobs[job.spec.id := job], job.spec.id)
  }

  /** The reserve transaction writes the scanned copy, whatever the table holds by then. */
  function ReserveTx(jobs: Table, scanned: Job, now: int): Table {
    jobs[scanned.spec.id := ReservedAt(scanned, now)]
  }

  function SettleTx(jobs: Table, id: JobId, v: Verdict, now: int): Table {
    match v
    case Done => jobs - {id}
    case GiveUp(reason) => if id in jobs then jobs[id := FailedAt(jobs[id], reason, now)] else jobs
    case Retry(delayMs) => if id in jobs then jobs[id := ReleasedAt(jobs[id], delayMs, now)] else jobs
  }

  function ClearTx(jobs: Table, queue: JsString): Table {
    jobs - MS.OnTube(jobs, queue)
  }

  // ---- poppers and holders ----

  type WorkerId = int

  datatype Phase =
    | Idle
    | Unpaused                 // the pause flag was read, and clear
    | Scanned(job: Job)        // the scan chose this copy
    | Holding(job: Job)
  {
    predicate Popping() {
      Unpaused? || Scanned?
    }
  }

  /** What has happened to an accepted job so far: a history that no transaction reads. */
  datatype Record = Record(
    given: Dispatch,            // the dispatch that was accepted under this id
    born: Job,                  // the job as it was accepted
    dispatches: int,            // how often a pop returned it
    pops: seq<int>,             // and when
    outcomes: seq<Outcome>,     // how its attempts ended
    settled: seq<int>,          // and when
    holder: Option<WorkerId>,   // who has the current reservation
    wiped: bool)                // dropped by a clear or an outside remove

  datatype System = System(tubeOf: map<WorkerId, JsString>, policy: Policy)

  /** `steady`: the clock has never gone back. */
  datatype State = State(
    jobs: Table,
    paused: set<JsString>,
    now: int,
    phase: map<WorkerId, Phase>,
    records: map<JobId, Record>,
    steady: bool)

  datatype Action =
    | Push(d: Dispatch, existing: Option<JobId>)
    | ReadPause(w: WorkerId)
    | Scan(w: WorkerId, chosen: Option<JobId>)
    | Reserve(w: WorkerId)
    | Settle(w: WorkerId, outcome: Outcome)
    | Clear(queue: JsString)
    | Remove(id: JobId)
    | Pause(queue: JsString)
    | Resume(queue: JsString)
    | SetClock(time: int)

  function Init(sys: System, now: int): State {
    State(map[], {}, now, map w | w in sys.tubeOf :: Idle, map[], true)
  }

  predicate Enabled(sys: System, s: State, a: Action) {
    match a
    case Push(d, existing) =>
      d.id !in s.records && d.now == s.now && LastBlocking(s.jobs, NewJob(d).spec.uniqueId, existing)
    case ReadPause(w) => w in s.phase && s.phase[w].Idle?
    case Scan(w, chosen) => w in s.phase && s.phase[w].Unpaused? && w in sys.tubeOf && Chosen(s.jobs, sys.tubeOf[w], s.now, chosen)
    case Reserve(w) => w in s.phase && s.phase[w].Scanned?
    case Settle(w, _) => w in s.phase && s.phase[w].Holding?
    case _ => true
  }

  function Reservation(r: Record, w: WorkerId, now: int): Record {
    r.(dispatches := r.dispatches + 1, pops := r.pops + [now], holder := Some(w))
  }

  function Concluded(r: Record, outcome: Outcome, now: int): Record {
    r.(outcomes := r.outcomes + [outcome], settled := r.settled + [now], holder := None)
  }

  function Wipe(records: map<JobId, Record>, gone: set<JobId>): map<JobId, Record> {
    map id | id in records :: if id in gone then records[id].(wiped := true) else records[id]
  }

  function StepReserve(s: State, w: WorkerId): State
    requires w in s.phase && s.phase[w].Scanned?
  {
    var job := s.phase[w].job;
    var id := job.spec.id;
    s.(jobs := ReserveTx(s.jobs, job, s.now), phase := s.phase[w := Holding(ReservedAt(job, s.now))],
       records := if id !in s.records then s.records else s.records[id := Reservation(s.records[id], w, s.now)])
  }

  function StepSettle(sys: System, s: State, w: WorkerId, outcome: Outcome): State
    requires w in s.phase && s.phase[w].Holding?
  {
    var job := s.phase[w].job;
    var id := job.spec.id;
    s.(jobs := SettleTx(s.jobs, id, Decide(sys.policy, job.spec, job.attempts, outcome), s.now), phase := s.phase[w := Idle],
       records := if id !in s.records then s.records else s.records[id := Concluded(s.records[id], outcome, s.now)])
  }

  function Step(sys: System, s: State, a: Action): State
    requires Enabled(sys, s, a)
  {
    match a
    case Push(d, existing) =>
      var (jobs, id) := PushTx(s.jobs, NewJob(d), existing);
      s.(jobs := jobs, records := if id == d.id then s.records[d.id := Record(d, NewJob(d), 0, [], [], [], None, false)] else s.records)
    case ReadPause(w) =>
      if w in sys.tubeOf && sys.tubeOf[w] !in s.paused then s.(phase := s.phase[w := Unpaused]) else s
    case Scan(w, chosen) =>
      s.(phase := s.phase[w := if chosen.None? then Idle else Scanned(s.jobs[chosen.value])])
    case Reserve(w) => StepReserve(s, w)
    case Settle(w, outcome) => StepSettle(sys, s, w, outcome)
    case Clear(queue) => s.(jobs := ClearTx(s.jobs, queue), records := Wipe(s.records, MS.OnTube(s.jobs, queue)))
    case Remove(id) => s.(jobs := s.jobs - {id}, records := Wipe(s.records, s.jobs.Keys * {id}))
    case Pause(queue) => s.(paused := s.paused + {queue})
    case Resume(queue) => s.(paused := s.paused - {queue})
    case SetClock(time) => s.(now := time, steady := s.steady && s.now <= time)
  }

  /** The table holds this very copy. */
  predicate Stored(jobs: Table, job: Job) {
    job.spec.id in jobs && jobs[job.spec.id] == job
  }

  /** The comparison that the reserve transaction does not make: the table still holds what the scan saw. */
  predicate Fresh(s: State, a: Action) {
    a.Reserve? && a.w in s.phase && s.phase[a.w].Scanned? ==> Stored(s.jobs, s.phase[a.w].job)
  }

  /** A pop begins only when no other pop on its tube is under way. */
  predicate AloneOnTube(sys: System, s: State, a: Action) {
    a.ReadPause? ==> forall v :: v in s.phase && s.phase[v].Popping() ==> !SameTube(sys, v, a.w)
  }

  predicate SameTube(sys: System, w: WorkerId, v: WorkerId) {
    w in sys.tubeOf && v in sys.tubeOf && sys.tubeOf[w] == sys.tubeOf[v]
  }

  /** No clear or remove hits a job that a pop has chosen and not yet reserved. */
  predicate Spares(s: State, a: Action) {
    match a
    case Clear(queue) => forall v :: v in s.phase && s.phase[v].Scanned? ==> s.phase[v].job.spec.queue != queue
    case Remove(id) => forall v :: v in s.phase && s.phase[v].Scanned? ==> s.phase[v].job.spec.id != id
    case _ => true
  }

  function Exec(sys: System, s: State, run: seq<Action>): Option<State> {
    if run == [] then Some(s)
    else
      var n := |run| - 1;
      match Exec(sys, s, run[..n])
      case None => None
      case Some(t) => if Enabled(sys, t, run[n]) then Some(Step(sys, t, run[n])) else None
  }

  /** At every reserve of the run the table still holds the scanned copy. */
  predicate FreshRun(sys: System, s: State, run: seq<Action>) {
    run != [] ==>
      var n := |run| - 1;
      FreshRun(sys, s, run[..n]) && (Exec(sys, s, run[..n]).Some? ==> Fresh(Exec(sys, s, run[..n]).value, run[n]))
  }

  /** One pop per tube at a time, and no clear or remove of a chosen job. */
  predicate CarefulRun(sys: System, s: State, run: seq<Action>) {
    run != [] ==>
      var n := |run| - 1;
      && CarefulRun(sys, s, run[..n])
      && (Exec(sys, s, run[..n]).Some? ==>
            var t := Exec(sys, s, run[..n]).value; AloneOnTube(sys, t, run[n]) && Spares(t, run[n]))
  }

  // ---- the invariant ----

  predicate JobOk(s: State, id: JobId)
    requires id in s.records
  {
    var r := s.records[id];
    && r.born.spec.id == id
    && (r.holder.Some? ==> r.holder.value in s.phase && s.phase[r.holder.value].Holding?
                           && s.phase[r.holder.value].job.spec.id == id)
    && (id in s.jobs ==>
          var job := s.jobs[id];
          && job.spec == r.born.spec && job.attempts == r.dispatches
          && (job.status == Reserved <==> r.holder.Some?)
          && (Waiting(job.status) || job.status == Reserved || job.status == Failed))
  }

  /** A scanned copy is current, or counts fewer attempts than were dispatched; a held job is stored as its holder has it. */
  predicate WorkerOk(s: State, w: WorkerId)
    requires w in s.phase
  {
    match s.phase[w]
    case Scanned(job) =>
      var id := job.spec.id;
      && id in s.records && job.spec == s.records[id].born.spec && Waiting(job.status)
      && job.attempts <= s.records[id].dispatches
      && (id in s.jobs && job.attempts == s.records[id].dispatches ==> s.jobs[id] == job)
    case Holding(job) =>
      var id := job.spec.id;
      && id in s.records && s.records[id].holder == Some(w) && s.records[id].dispatches == job.attempts
      && job.status == Reserved && (id in s.jobs ==> s.jobs[id] == job)
    case _ => true
  }

  predicate Inv(sys: System, s: State) {
    && s.phase.Keys == sys.tubeOf.Keys && s.jobs.Keys <= s.records.Keys
    && (forall id {:trigger s.jobs[id]} :: id in s.jobs ==> s.jobs[id].spec.id == id)
    && (forall id :: id in s.records ==> JobOk(s, id))
    && (forall w :: w in s.phase ==> WorkerOk(s, w))
  }

  lemma JobsStayOk(sys: System, s: State, a: Action, id: JobId)
    requires Inv(sys, s) && Enabled(sys, s, a) && Fresh(s, a) && id in Step(sys, s, a).records
    ensures JobOk(Step(sys, s, a), id)
  {
    match a
    case Push(_, _) =>
    case Reserve(w) => ReserveKeepsJobs(sys, s, w, id);
    case Settle(w, outcome) => SettleKeepsJobs(sys, s, w, outcome, id);
    case _ => QuietStepKeepsJobs(sys, s, a, id);
  }

  lemma ReserveKeepsJobs(sys: System, s: State, w: WorkerId, id: JobId)
    requires Inv(sys, s) && Enabled(sys, s, Reserve(w)) && Fresh(s, Reserve(w)) && id in s.records
    ensures JobOk(StepReserve(s, w), id)
  {
    assert WorkerOk(s, w);
  }

  lemma SettleKeepsJobs(sys: System, s: State, w: WorkerId, outcome: Outcome, id: JobId)
    requires Inv(sys, s) && Enabled(sys, s, Settle(w, outcome)) && id in s.records
    ensures JobOk(StepSettle(sys, s, w, outcome), id)
  {
    assert WorkerOk(s, w);
  }

  lemma QuietStepKeepsJobs(sys: System, s: State, a: Action, id: JobId)
    requires Inv(sys, s) && Enabled(sys, s, a) && !a.Push? && !a.Reserve? && !a.Settle? && id in s.records
    ensures JobOk(Step(sys, s, a), id)
  {
    assert JobOk(s, id);
  }

  lemma WorkersStayOk(sys: System, s: State, a: Action, v: WorkerId)
    requires Inv(sys, s) && Enabled(sys, s, a) && Fresh(s, a) && v in s.phase
    ensures WorkerOk(Step(sys, s, a), v)
  {
    assert WorkerOk(s, v);
    match a
    case Reserve(w) => ReserveKeepsWorkers(sys, s, w, v);
    case Settle(w, outcome) => SettleKeepsWorkers(sys, s, w, outcome, v);
    case _ => QuietStepKeepsWorkers(sys, s, a, v);
  }

  lemma ReserveKeepsWorkers(sys: System, s: State, w: WorkerId, v: WorkerId)
    requires Inv(sys, s) && Enabled(sys, s, Reserve(w)) && Fresh(s, Reserve(w)) && v in s.phase
    ensures WorkerOk(StepReserve(s, w), v)
  {
    assert WorkerOk(s, v) && WorkerOk(s, w);
  }

  lemma SettleKeepsWorkers(sys: System, s: State, w: WorkerId, outcome: Outcome, v: WorkerId)
    requires Inv(sys, s) && Enabled(sys, s, Settle(w, outcome)) && v in s.phase
    ensures WorkerOk(StepSettle(sys, s, w, outcome), v)
  {
    assert WorkerOk(s, v) && WorkerOk(s, w);
  }

  lemma QuietStepKeepsWorkers(sys: System, s: State, a: Action, v: WorkerId)
    requires Inv(sys, s) && Enabled(sys, s, a) && !a.Reserve? && !a.Settle? && v in s.phase
    ensures WorkerOk(Step(sys, s, a), v)
  {
    assert WorkerOk(s, v);
  }

  lemma StepKeepsKeys(sys: System, s: State, a: Action)
    requires Inv(sys, s) && Enabled(sys, s, a)
    ensures var t := Step(sys, s, a);
            && t.phase.Keys == s.phase.Keys && t.jobs.Keys <= t.records.Keys
            && (forall id {:trigger t.jobs[id]} :: id in t.jobs ==> t.jobs[id].spec.id == id)
  {
  }

  lemma StepKeepsInv(sys: System, s: State, a: Action)
    requires Inv(sys, s) && Enabled(sys, s, a) && Fresh(s, a)
    ensures Inv(sys, Step(sys, s, a))
  {
    var t := Step(sys, s, a);
    StepKeepsKeys(sys, s, a);
    forall id | id in t.records ensures JobOk(t, id) {
      JobsStayOk(sys, s, a, id);
    }
    forall w | w in t.phase ensures WorkerOk(t, w) {
      WorkersStayOk(sys, s, a, w);
    }
  }

  lemma PushKeepsUnique(jobs: Table, job: Job, existing: Option<JobId>)
    requires Unique(jobs) && job.spec.id !in jobs && LastBlocking(jobs, job.spec.uniqueId, existing)
    ensures Unique(PushTx(jobs, job, existing).0)
  {
  }

  lemma StepKeepsUnique(sys: System, s: State, a: Action)
    requires Inv(sys, s) && Unique(s.jobs) && Enabled(sys, s, a) && Fresh(s, a)
    ensures Unique(Step(sys, s, a).jobs)
  {
    match a
    case Push(d, existing) => PushKeepsUnique(s.jobs, NewJob(d), existing);
    case Settle(w, _) =>
      assert WorkerOk(s, w);
      FewerInFlightKeepsUnique(s.jobs, Step(sys, s, a).jobs);
    case _ => FewerInFlightKeepsUnique(s.jobs, Step(sys, s, a).jobs);
  }

  lemma {:induction false} FreshRunsAreSound(sys: System, start: int, run: seq<Action>)
    requires Exec(sys, Init(sys, start), run).Some? && FreshRun(sys, Init(sys, start), run)
    ensures var s := Exec(sys, Init(sys, start), run).value; Inv(sys, s) && Unique(s.jobs)
  {
    if run != [] {
      var n := |run| - 1;
      FreshRunsAreSound(sys, start, run[..n]);
      var s := Exec(sys, Init(sys, start), run[..n]).value;
      StepKeepsInv(sys, s, run[n]);
      StepKeepsUnique(sys, s, run[n]);
    }
  }

  /**
   * As long as every reserve finds the scanned copy still stored: no two workers hold one job, a held job is stored as
   * its holder has it or not at all, and a stored job's attempts count the pops that returned it.
   */
  lemma ExclusiveReservation(sys: System, start: int, run: seq<Action>, w: WorkerId, v: WorkerId)
    requires Exec(sys, Init(sys, start), run).Some? && FreshRun(sys, Init(sys, start), run)
    requires var s := Exec(sys, Init(sys, start), run).value; w in s.phase && v in s.phase && s.phase[w].Holding?
    ensures var s := Exec(sys, Init(sys, start), run).value;
            var id := s.phase[w].job.spec.id;
            && (s.phase[v].Holding? && s.phase[v].job.spec.id == id ==> v == w)
            && (id in s.jobs ==> s.jobs[id] == s.phase[w].job && s.jobs[id].status == Reserved)
            && id in s.records && s.phase[w].job.attempts == s.records[id].dispatches
            && Counted(s) && Unique(s.jobs)
  {
    FreshRunsAreSound(sys, start, run);
    var s := Exec(sys, Init(sys, start), run).value;
    assert WorkerOk(s, w) && WorkerOk(s, v);
    InvCounts(sys, s);
  }

  // ---- exactly when ----

  /** Every stored job's attempts are the pops that returned it. */
  predicate Counted(s: State) {
    forall id :: id in s.jobs ==> id in s.records && s.jobs[id].attempts == s.records[id].dispatches
  }

  lemma InvCounts(sys: System, s: State)
    requires Inv(sys, s)
    ensures Counted(s)
  {
    forall id | id in s.jobs ensures id in s.records && s.jobs[id].attempts == s.records[id].dispatches {
      assert JobOk(s, id);
    }
  }

  /** A reserve keeps the count right and brings back no deleted job if and only if the scanned copy is still stored. */
  lemma ReserveIsSoundExactly(sys: System, s: State, w: WorkerId)
    requires Inv(sys, s) && Enabled(sys, s, Reserve(w))
    ensures var t := StepReserve(s, w);
            t.jobs.Keys == s.jobs.Keys && Counted(t) <==> Stored(s.jobs, s.phase[w].job)
  {
    var (t, job) := (StepReserve(s, w), s.phase[w].job);
    var id := job.spec.id;
    assert WorkerOk(s, w);
    assert id in t.jobs && t.jobs[id].attempts == job.attempts + 1 && t.records[id].dispatches == s.records[id].dispatches + 1;
    if Stored(s.jobs, job) {
      StepKeepsInv(sys, s, Reserve(w));
      InvCounts(sys, t);
    }
  }

  /** At every point of the run attempts count dispatches, and no reserve has brought a job into the table. */
  predicate Accounted(sys: System, s: State, run: seq<Action>) {
    && (run == [] ==> Counted(s))
    && (run != [] ==>
          var n := |run| - 1;
          && Accounted(sys, s, run[..n])
          && (Exec(sys, s, run).Some? ==>
                var (before, after) := (Exec(sys, s, run[..n]).value, Exec(sys, s, run).value);
                Counted(after) && (run[n].Reserve? ==> after.jobs.Keys == before.jobs.Keys)))
  }

  /**
   * A run counts every dispatch once and undoes no deletion if and only if at each of its reserves the table still holds
   * the scanned copy.
   */
  lemma {:induction false} SoundExactlyWhenFresh(sys: System, start: int, run: seq<Action>)
    requires Exec(sys, Init(sys, start), run).Some?
    ensures Accounted(sys, Init(sys, start), run) <==> FreshRun(sys, Init(sys, start), run)
  {
    if run != [] {
      var n := |run| - 1;
      SoundExactlyWhenFresh(sys, start, run[..n]);
      if FreshRun(sys, Init(sys, start), run[..n]) {
        var s := Exec(sys, Init(sys, start), run[..n]).value;
        FreshRunsAreSound(sys, start, run[..n]);
        if run[n].Reserve? {
          ReserveIsSoundExactly(sys, s, run[n].w);
        } else {
          StepKeepsInv(sys, s, run[n]);
          InvCounts(sys, Step(sys, s, run[n]));
        }
      }
    }
  }

  // ---- one pop per tube at a time ----

  predicate OnePopperPerTube(sys: System, s: State) {
    forall w, v :: w in s.phase && v in s.phase && s.phase[w].Popping() && s.phase[v].Popping() && SameTube(sys, w, v) ==> w == v
  }

  /** A scanned copy is stored, and on its popper's tube. */
  predicate CopyOk(sys: System, s: State, w: WorkerId)
    requires w in s.phase
  {
    s.phase[w].Scanned? ==>
      Stored(s.jobs, s.phase[w].job) && w in sys.tubeOf && s.phase[w].job.spec.queue == sys.tubeOf[w]
  }

  predicate Undisturbed(sys: System, s: State) {
    OnePopperPerTube(sys, s) && forall w :: w in s.phase ==> CopyOk(sys, s, w)
  }

  lemma StepKeepsCopy(sys: System, s: State, a: Action, v: WorkerId)
    requires Inv(sys, s) && Undisturbed(sys, s) && Enabled(sys, s, a) && Spares(s, a) && v in s.phase
    ensures CopyOk(sys, Step(sys, s, a), v)
  {
    assert WorkerOk(s, v) && CopyOk(sys, s, v);
    match a
    case Reserve(w) => assert CopyOk(sys, s, w);
    case Settle(w, _) => assert WorkerOk(s, w);
    case _ =>
  }

  lemma StepKeepsOnePopper(sys: System, s: State, a: Action)
    requires OnePopperPerTube(sys, s) && Enabled(sys, s, a) && AloneOnTube(sys, s, a)
    ensures OnePopperPerTube(sys, Step(sys, s, a))
  {
  }

  lemma StepKeepsUndisturbed(sys: System, s: State, a: Action)
    requires Inv(sys, s) && Undisturbed(sys, s) && Enabled(sys, s, a) && AloneOnTube(sys, s, a) && Spares(s, a)
    ensures Fresh(s, a) && Undisturbed(sys, Step(sys, s, a))
  {
    assert a.Reserve? ==> CopyOk(sys, s, a.w);
    StepKeepsOnePopper(sys, s, a);
    StepKeepsKeys(sys, s, a);
    forall v | v in s.phase ensures CopyOk(sys, Step(sys, s, a), v) {
      StepKeepsCopy(sys, s, a, v);
    }
  }

  /** With one pop per tube at a time, and no clear or remove of a chosen job, every reserve finds its copy. */
  lemma {:induction false} CarefulRunsAreFresh(sys: System, start: int, run: seq<Action>)
    requires Exec(sys, Init(sys, start), run).Some? && CarefulRun(sys, Init(sys, start), run)
    ensures FreshRun(sys, Init(sys, start), run) && Undisturbed(sys, Exec(sys, Init(sys, start), run).value)
  {
    if run != [] {
      var n := |run| - 1;
      CarefulRunsAreFresh(sys, start, run[..n]);
      FreshRunsAreSound(sys, start, run[..n]);
      StepKeepsUndisturbed(sys, Exec(sys, Init(sys, start), run[..n]).value, run[n]);
    }
  }
}
