/**
 * The gate in front of `pop` of the broadcast driver (src/connections/broadcast-channel.connection.ts:85-88), over the
 * transactions of the IndexedDB driver: a worker starts a pop only while its tab leads, and tabs may be elected at any time.
 */
module LeaderGate {
  import opened Options
  import opened Jobs
  import opened IndexedDbModel
  import opened IndexedDbWitnesses

  type Tab = int

  datatype Gated = Gated(db: State, leader: Option<Tab>)

  datatype Move = Do(action: Action) | Elect(leader: Option<Tab>)

  /** `tabOf` says in which tab each worker runs. A follower's pop starts no transaction. */
  predicate Allowed(sys: System, tabOf: map<WorkerId, Tab>, g: Gated, m: Move) {
    m.Do? ==> Enabled(sys, g.db, m.action) && (m.action.ReadPause? ==> Leads(tabOf, g.leader, m.action.w))
  }

  predicate Leads(tabOf: map<WorkerId, Tab>, leader: Option<Tab>, w: WorkerId) {
    w in tabOf && leader == Some(tabOf[w])
  }

  function Moved(sys: System, tabOf: map<WorkerId, Tab>, g: Gated, m: Move): Gated
    requires Allowed(sys, tabOf, g, m)
  {
    match m
    case Do(a) => g.(db := Step(sys, g.db, a))
    case Elect(leader) => g.(leader := leader)
  }

  function GatedExec(sys: System, tabOf: map<WorkerId, Tab>, g: Gated, moves: seq<Move>): Option<Gated> {
    if moves == [] then Some(g)
    else
      var n := |moves| - 1;
      match GatedExec(sys, tabOf, g, moves[..n])
      case None => None
      case Some(h) => if Allowed(sys, tabOf, h, moves[n]) then Some(Moved(sys, tabOf, h, moves[n])) else None
  }

  /** The transactions among the moves. */
  function Actions(moves: seq<Move>): seq<Action> {
    if moves == [] then []
    else
      var n := |moves| - 1;
      if moves[n].Do? then Actions(moves[..n]) + [moves[n].action] else Actions(moves[..n])
  }

  function Dos(run: seq<Action>): seq<Move> {
    if run == [] then [] else Dos(run[..|run| - 1]) + [Do(run[|run| - 1])]
  }

  /** Leadership changes hands only while no pop is under way, and no clear or remove hits a chosen job. */
  predicate Quiet(g: Gated, m: Move) {
    match m
    case Elect(_) => forall w :: w in g.db.phase ==> !g.db.phase[w].Popping()
    case Do(a) => Spares(g.db, a)
  }

  predicate QuietMoves(sys: System, tabOf: map<WorkerId, Tab>, g: Gated, moves: seq<Move>) {
    moves != [] ==>
      var n := |moves| - 1;
      && QuietMoves(sys, tabOf, g, moves[..n])
      && (GatedExec(sys, tabOf, g, moves[..n]).Some? ==> Quiet(GatedExec(sys, tabOf, g, moves[..n]).value, moves[n]))
  }

  /** No tab runs two workers on one tube. */
  predicate OnePerTabAndTube(sys: System, tabOf: map<WorkerId, Tab>) {
    forall w, v :: w in tabOf && v in tabOf && tabOf[w] == tabOf[v] && SameTube(sys, w, v) ==> w == v
  }

  /** Every pop under way is the leader's. */
  predicate LeaderPops(tabOf: map<WorkerId, Tab>, g: Gated) {
    forall w :: w in g.db.phase && g.db.phase[w].Popping() ==> Leads(tabOf, g.leader, w)
  }

  lemma MoveKeepsLeaderPops(sys: System, tabOf: map<WorkerId, Tab>, g: Gated, m: Move)
    requires Allowed(sys, tabOf, g, m) && Quiet(g, m) && LeaderPops(tabOf, g)
    ensures LeaderPops(tabOf, Moved(sys, tabOf, g, m))
  {
  }

  /**
   * With one worker per tab and tube, quiet elections and no clear or remove of a chosen job, the transactions behind the
   * gate are a careful run of the IndexedDB driver, with all that it guarantees.
   */
  lemma {:induction false} GatedRunsAreCareful(sys: System, tabOf: map<WorkerId, Tab>, start: int, leader: Option<Tab>,
                                               moves: seq<Move>)
    requires OnePerTabAndTube(sys, tabOf)
    requires var g := Gated(Init(sys, start), leader);
             GatedExec(sys, tabOf, g, moves).Some? && QuietMoves(sys, tabOf, g, moves)
    ensures var h := GatedExec(sys, tabOf, Gated(Init(sys, start), leader), moves).value;
            && Exec(sys, Init(sys, start), Actions(moves)) == Some(h.db)
            && CarefulRun(sys, Init(sys, start), Actions(moves)) && LeaderPops(tabOf, h)
  {
    if moves != [] {
      var n := |moves| - 1;
      GatedRunsAreCareful(sys, tabOf, start, leader, moves[..n]);
      var h := GatedExec(sys, tabOf, Gated(Init(sys, start), leader), moves[..n]).value;
      MoveKeepsLeaderPops(sys, tabOf, h, moves[n]);
      if moves[n].Do? {
        LeaderIsAlone(sys, tabOf, h, moves[n].action);
        CarefulThen(sys, Init(sys, start), Actions(moves[..n]), h.db, moves[n].action);
      }
    }
  }

  lemma LeaderIsAlone(sys: System, tabOf: map<WorkerId, Tab>, h: Gated, a: Action)
    requires OnePerTabAndTube(sys, tabOf) && LeaderPops(tabOf, h) && Allowed(sys, tabOf, h, Do(a))
    ensures AloneOnTube(sys, h.db, a)
  {
  }

  lemma CarefulThen(sys: System, s: State, run: seq<Action>, u: State, a: Action)
    requires Exec(sys, s, run) == Some(u) && CarefulRun(sys, s, run)
    requires Enabled(sys, u, a) && AloneOnTube(sys, u, a) && Spares(u, a)
    ensures Exec(sys, s, run + [a]) == Some(Step(sys, u, a)) && CarefulRun(sys, s, run + [a])
  {
    assert (run + [a])[..|run|] == run;
  }

  predicate ShareAJob(s: State, w: WorkerId, v: WorkerId) {
    && w in s.phase && v in s.phase && w != v && s.phase[w].Holding? && s.phase[v].Holding?
    && s.phase[w].job.spec.id == s.phase[v].job.spec.id
  }

  /** In no run with quiet moves do two workers hold one job. */
  ghost predicate GateSuffices(sys: System, tabOf: map<WorkerId, Tab>) {
    forall start, leader, moves, w, v
      | && GatedExec(sys, tabOf, Gated(Init(sys, start), leader), moves).Some?
        && QuietMoves(sys, tabOf, Gated(Init(sys, start), leader), moves) ::
      !ShareAJob(GatedExec(sys, tabOf, Gated(Init(sys, start), leader), moves).value.db, w, v)
  }

  /** Transactions that read the pause flag in the leader's tab only, and neither clear nor remove. */
  predicate LeadersOwn(tabOf: map<WorkerId, Tab>, leader: Option<Tab>, run: seq<Action>) {
    forall i :: 0 <= i < |run| ==>
      !run[i].Clear? && !run[i].Remove? && (run[i].ReadPause? ==> Leads(tabOf, leader, run[i].w))
  }

  lemma FirstScanIsTheLeaders(tabOf: map<WorkerId, Tab>, leader: Option<Tab>, d: Dispatch, w: WorkerId)
    requires Leads(tabOf, leader, w)
    ensures LeadersOwn(tabOf, leader, ScanFirst(d, w))
  {
  }

  lemma SecondScanIsTheLeaders(tabOf: map<WorkerId, Tab>, leader: Option<Tab>, d: Dispatch, w: WorkerId, v: WorkerId)
    requires Leads(tabOf, leader, v)
    ensures LeadersOwn(tabOf, leader, ScanAgain(d, w, v))
  {
  }

  /** The gate lets the transactions of the leader's tab through as they come. */
  lemma {:induction false} LeaderRunsFreely(sys: System, tabOf: map<WorkerId, Tab>, g: Gated, moves: seq<Move>, h: Gated,
                                            run: seq<Action>, u: State)
    requires GatedExec(sys, tabOf, g, moves) == Some(h) && LeadersOwn(tabOf, h.leader, run) && Exec(sys, h.db, run) == Some(u)
    ensures GatedExec(sys, tabOf, g, moves + Dos(run)) == Some(h.(db := u))
    ensures QuietMoves(sys, tabOf, g, moves) ==> QuietMoves(sys, tabOf, g, moves + Dos(run))
  {
    if run == [] {
      assert moves + Dos(run) == moves;
    } else {
      var n := |run| - 1;
      var before := Exec(sys, h.db, run[..n]).value;
      LeaderRunsFreely(sys, tabOf, g, moves, h, run[..n], before);
      assert moves + Dos(run) == (moves + Dos(run[..n])) + [Do(run[n])];
      MoveThen(sys, tabOf, g, moves + Dos(run[..n]), h.(db := before), Do(run[n]));
    }
  }

  lemma MoveThen(sys: System, tabOf: map<WorkerId, Tab>, g: Gated, moves: seq<Move>, h: Gated, m: Move)
    requires GatedExec(sys, tabOf, g, moves) == Some(h) && Allowed(sys, tabOf, h, m)
    ensures GatedExec(sys, tabOf, g, moves + [m]) == Some(Moved(sys, tabOf, h, m))
    ensures QuietMoves(sys, tabOf, g, moves) && Quiet(h, m) ==> QuietMoves(sys, tabOf, g, moves + [m])
  {
    assert (moves + [m])[..|moves|] == moves;
  }

  /** Whenever the leading tab runs two workers on one tube, they can come to hold one job, without any election at all. */
  lemma TwoWorkersOfTheLeader(sys: System, tabOf: map<WorkerId, Tab>, d: Dispatch, w: WorkerId, v: WorkerId)
    requires w in tabOf && v in tabOf && w != v && tabOf[w] == tabOf[v] && SameTube(sys, w, v) && DueFor(sys, w, d)
    ensures var (g, moves) := (Gated(Init(sys, d.now), Some(tabOf[w])), Dos(ScanFirst(d, w) + ScanAgain(d, w, v)));
            var h := GatedExec(sys, tabOf, g, moves);
            h.Some? && QuietMoves(sys, tabOf, g, moves) && ShareAJob(h.value.db, w, v)
  {
    var g := Gated(Init(sys, d.now), Some(tabOf[w]));
    var run := ScanFirst(d, w) + ScanAgain(d, w, v);
    FirstScanIsTheLeaders(tabOf, g.leader, d, w);
    SecondScanIsTheLeaders(tabOf, g.leader, d, w, v);
    OverlappingPopsShareAJob(sys, d, w, v);
    LeaderRunsFreely(sys, tabOf, g, [], g, run, Exec(sys, g.db, run).value);
    assert [] + Dos(run) == Dos(run);
  }

  /** Quiet elections and the gate keep jobs from being shared exactly when no tab runs two workers on one tube. */
  lemma GateSufficesExactly(sys: System, tabOf: map<WorkerId, Tab>)
    ensures GateSuffices(sys, tabOf) <==> OnePerTabAndTube(sys, tabOf)
  {
    if OnePerTabAndTube(sys, tabOf) {
      forall start, leader, moves, w, v
        | && GatedExec(sys, tabOf, Gated(Init(sys, start), leader), moves).Some?
          && QuietMoves(sys, tabOf, Gated(Init(sys, start), leader), moves)
        ensures !ShareAJob(GatedExec(sys, tabOf, Gated(Init(sys, start), leader), moves).value.db, w, v)
      {
        NobodyShares(sys, tabOf, start, leader, moves, w, v);
      }
    } else {
      var w, v :| w in tabOf && v in tabOf && tabOf[w] == tabOf[v] && SameTube(sys, w, v) && w != v;
      TwoWorkersOfTheLeader(sys, tabOf, DueDispatch(0, 0, sys.tubeOf[w], None), w, v);
    }
  }

  lemma NobodyShares(sys: System, tabOf: map<WorkerId, Tab>, start: int, leader: Option<Tab>, moves: seq<Move>,
                     w: WorkerId, v: WorkerId)
    requires OnePerTabAndTube(sys, tabOf)
    requires GatedExec(sys, tabOf, Gated(Init(sys, start), leader), moves).Some?
    requires QuietMoves(sys, tabOf, Gated(Init(sys, start), leader), moves)
    ensures !ShareAJob(GatedExec(sys, tabOf, Gated(Init(sys, start), leader), moves).value.db, w, v)
  {
    GatedRunsAreCareful(sys, tabOf, start, leader, moves);
    CarefulRunsAreFresh(sys, start, Actions(moves));
    var s := GatedExec(sys, tabOf, Gated(Init(sys, start), leader), moves).value.db;
    if ShareAJob(s, w, v) {
      ExclusiveReservation(sys, start, Actions(moves), w, v);
    }
  }

  /** When leadership moves to another tab during a pop, any two workers of the two tabs on one tube can share a job. */
  lemma HandoverDuringPop(sys: System, tabOf: map<WorkerId, Tab>, d: Dispatch, w: WorkerId, v: WorkerId)
    requires w in tabOf && v in tabOf && w != v && SameTube(sys, w, v) && DueFor(sys, w, d)
    ensures var g := Gated(Init(sys, d.now), Some(tabOf[w]));
            var h := GatedExec(sys, tabOf, g, Dos(ScanFirst(d, w)) + [Elect(Some(tabOf[v]))] + Dos(ScanAgain(d, w, v)));
            h.Some? && ShareAJob(h.value.db, w, v)
  {
    var (g, moves, elect) := (Gated(Init(sys, d.now), Some(tabOf[w])), Dos(ScanFirst(d, w)), Elect(Some(tabOf[v])));
    var h := Gated(AfterScan(sys, d, w), Some(tabOf[w]));
    FirstScanBehindTheGate(sys, tabOf, d, w);
    MoveThen(sys, tabOf, g, moves, h, elect);
    var t := ScanAgainIsARun(sys, d, w, v);
    SecondScanIsTheLeaders(tabOf, Some(tabOf[v]), d, w, v);
    LeaderRunsFreely(sys, tabOf, g, moves + [elect], h.(leader := Some(tabOf[v])), ScanAgain(d, w, v), t);
  }

  lemma FirstScanBehindTheGate(sys: System, tabOf: map<WorkerId, Tab>, d: Dispatch, w: WorkerId)
    requires w in tabOf && DueFor(sys, w, d)
    ensures GatedExec(sys, tabOf, Gated(Init(sys, d.now), Some(tabOf[w])), Dos(ScanFirst(d, w)))
            == Some(Gated(AfterScan(sys, d, w), Some(tabOf[w])))
  {
    var g := Gated(Init(sys, d.now), Some(tabOf[w]));
    ScanFirstIsARun(sys, d, w);
    FirstScanIsTheLeaders(tabOf, g.leader, d, w);
    LeaderRunsFreely(sys, tabOf, g, [], g, ScanFirst(d, w), AfterScan(sys, d, w));
    assert [] + Dos(ScanFirst(d, w)) == Dos(ScanFirst(d, w));
  }
}
