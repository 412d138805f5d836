/** Runs of the IndexedDB driver in which a reserve does not find the copy that its pop scanned. */
module IndexedDbWitnesses {
  import opened JsStrings
  import opened Options
  import opened Jobs
  import opened IndexedDbModel

  lemma ExecThen(sys: System, s: State, run: seq<Action>, u: State, a: Action)
    requires Exec(sys, s, run) == Some(u) && Enabled(sys, u, a)
    ensures Exec(sys, s, run + [a]) == Some(Step(sys, u, a))
  {
  }

  lemma {:induction false} ExecConcat(sys: System, s: State, first: seq<Action>, u: State, second: seq<Action>)
    requires Exec(sys, s, first) == Some(u)
    ensures Exec(sys, s, first + second) == Exec(sys, u, second)
  {
    if second == [] {
      assert first + second == first;
    } else {
      var n := |second| - 1;
      ExecConcat(sys, s, first, u, second[..n]);
      assert (first + second)[..|first + second| - 1] == first + second[..n];
    }
  }

  /** A dispatch of a job that worker `w` can pop at once. */
  predicate DueFor(sys: System, w: WorkerId, d: Dispatch) {
    w in sys.tubeOf && Eligible(NewJob(d), sys.tubeOf[w], d.now)
  }

  /** The first job is pushed, and scanned by a worker. */
  function ScanFirst(d: Dispatch, w: WorkerId): seq<Action> {
    [] + [Push(d, None)] + [ReadPause(w)] + [Scan(w, Some(d.id))]
  }

  function AfterScan(sys: System, d: Dispatch, w: WorkerId): State {
    var s := Init(sys, d.now);
    s.(jobs := map[d.id := NewJob(d)], records := map[d.id := Record(d, NewJob(d), 0, [], [], [], None, false)],
       phase := s.phase[w := Unpaused][w := Scanned(NewJob(d))])
  }

  lemma ScanFirstIsARun(sys: System, d: Dispatch, w: WorkerId)
    requires DueFor(sys, w, d)
    ensures Exec(sys, Init(sys, d.now), ScanFirst(d, w)) == Some(AfterScan(sys, d, w))
  {
    var s := Init(sys, d.now);
    ExecThen(sys, s, [], s, Push(d, None));
    var s1 := Step(sys, s, Push(d, None));
    ExecThen(sys, s, [] + [Push(d, None)], s1, ReadPause(w));
    var s2 := Step(sys, s1, ReadPause(w));
    assert Chosen(s2.jobs, sys.tubeOf[w], d.now, Some(d.id));
    ExecThen(sys, s, [] + [Push(d, None)] + [ReadPause(w)], s2, Scan(w, Some(d.id)));
  }

  /** A second worker scans the same job before the first one reserves it. */
  function ScanAgain(d: Dispatch, w: WorkerId, v: WorkerId): seq<Action> {
    [] + [ReadPause(v)] + [Scan(v, Some(d.id))] + [Reserve(w)] + [Reserve(v)]
  }

  lemma ScanAgainIsARun(sys: System, d: Dispatch, w: WorkerId, v: WorkerId) returns (t: State)
    requires DueFor(sys, w, d) && w != v && SameTube(sys, w, v)
    ensures Exec(sys, AfterScan(sys, d, w), ScanAgain(d, w, v)) == Some(t) && BothHold(t, w, v, d)
  {
    var s := AfterScan(sys, d, w);
    ExecThen(sys, s, [], s, ReadPause(v));
    var s1 := Step(sys, s, ReadPause(v));
    assert Chosen(s1.jobs, sys.tubeOf[v], d.now, Some(d.id));
    ExecThen(sys, s, [] + [ReadPause(v)], s1, Scan(v, Some(d.id)));
    var s2 := Step(sys, s1, Scan(v, Some(d.id)));
    ExecThen(sys, s, [] + [ReadPause(v)] + [Scan(v, Some(d.id))], s2, Reserve(w));
    var s3 := StepReserve(s2, w);
    ExecThen(sys, s, [] + [ReadPause(v)] + [Scan(v, Some(d.id))] + [Reserve(w)], s3, Reserve(v));
    t := StepReserve(s3, v);
  }

  /** Two holders, two dispatches, one attempt on record. */
  predicate BothHold(t: State, w: WorkerId, v: WorkerId, d: Dispatch) {
    && w in t.phase && v in t.phase && d.id in t.jobs && d.id in t.records
    && t.phase[w] == t.phase[v] == Holding(ReservedAt(NewJob(d), d.now))
    && t.jobs[d.id].attempts == 1 && t.records[d.id].dispatches == 2
  }

  /** In every system with two workers on one tube, two overlapping pops can return the same job. */
  lemma OverlappingPopsShareAJob(sys: System, d: Dispatch, w: WorkerId, v: WorkerId)
    requires DueFor(sys, w, d) && w != v && SameTube(sys, w, v)
    ensures var t := Exec(sys, Init(sys, d.now), ScanFirst(d, w) + ScanAgain(d, w, v));
            t.Some? && BothHold(t.value, w, v, d)
  {
    ScanFirstIsARun(sys, d, w);
    var t := ScanAgainIsARun(sys, d, w, v);
    ExecConcat(sys, Init(sys, d.now), ScanFirst(d, w), AfterScan(sys, d, w), ScanAgain(d, w, v));
  }

  /** A clear between scan and reserve is undone: the cleared job is back, and beside it a second job with its key. */
  lemma ClearBetweenScanAndReserveIsUndone(sys: System, w: WorkerId, d: Dispatch, e: Dispatch, key: JsString)
    requires w in sys.tubeOf && Truthy(key) && d.id != e.id && d.now == e.now
    requires d == DueDispatch(d.id, d.now, sys.tubeOf[w], Some(key)) && e == DueDispatch(e.id, d.now, sys.tubeOf[w], Some(key))
    ensures var run := ScanFirst(d, w) + [Clear(sys.tubeOf[w])] + [Push(e, None)] + [Reserve(w)];
            var t := Exec(sys, Init(sys, d.now), run);
            t.Some? && d.id in t.value.jobs && !Unique(t.value.jobs)
  {
    ScanFirstIsARun(sys, d, w);
    var t := ClearPushReserve(sys, Init(sys, d.now), ScanFirst(d, w), AfterScan(sys, d, w), w, NewJob(d), e);
    assert SameKeyInFlight(t.jobs[d.id], t.jobs[e.id]);
  }

  /** The only job, just scanned, is cleared; another is pushed; the first is reserved. */
  lemma ClearPushReserve(sys: System, s: State, run: seq<Action>, u: State, w: WorkerId, job: Job, e: Dispatch) returns (t: State)
    requires Exec(sys, s, run) == Some(u) && w in u.phase && u.phase[w] == Scanned(job) && w in sys.tubeOf
    requires u.jobs == map[job.spec.id := job] && job.spec.queue == sys.tubeOf[w]
    requires e.id !in u.records && e.now == u.now && e.id != job.spec.id
    ensures Exec(sys, s, run + [Clear(sys.tubeOf[w])] + [Push(e, None)] + [Reserve(w)]) == Some(t)
    ensures t.jobs == map[e.id := NewJob(e), job.spec.id := ReservedAt(job, u.now)]
  {
    var clear := Clear(sys.tubeOf[w]);
    ExecThen(sys, s, run, u, clear);
    var u1 := Step(sys, u, clear);
    assert u1.jobs == map[];
    ExecThen(sys, s, run + [clear], u1, Push(e, None));
    var u2 := Step(sys, u1, Push(e, None));
    assert u2.jobs == map[e.id := NewJob(e)];
    ExecThen(sys, s, run + [clear] + [Push(e, None)], u2, Reserve(w));
    t := StepReserve(u2, w);
  }
}
