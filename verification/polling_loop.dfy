/**
 * The timers of one worker: `start`, `stop`, `scheduleNext`, a timer firing, and a tick coming to its end
 * (src/services/worker.service.ts:55-127). A tick ends in `scheduleNext` however it ends, by throwing included.
 */
module PollingLoop {
  import opened Options

  type Timer = int

  /** The fields of the worker, and when each of its timers that are still to fire is due. */
  datatype Timers = Timers(running: bool, pendingTick: Option<Timer>, waiting: map<Timer, int>, next: Timer)

  /** The timers together with the ticks under way. */
  datatype Loop = Loop(timers: Timers, ticks: nat)

  const IDLE := Loop(Timers(false, None, map[], 1), 0)

  function ScheduleNext(t: Timers, delayMs: int, now: int): Timers {
    if !t.running then t
    else t.(pendingTick := Some(t.next), waiting := t.waiting[t.next := now + delayMs], next := t.next + 1)
  }

  function Start(t: Timers, now: int): Timers {
    if t.running then t else ScheduleNext(t.(running := true), 0, now)
  }

  function Stop(t: Timers): Timers {
    if !t.running then t
    else t.(running := false, pendingTick := None,
            waiting := if t.pendingTick.Some? then t.waiting - {t.pendingTick.value} else t.waiting)
  }

  /** A tick ends by asking for the next one after `delayMs`. */
  datatype Event = Started(now: int) | Stopped | Fired(timer: Timer, now: int) | TickEnded(delayMs: int, now: int)

  predicate Possible(l: Loop, e: Event) {
    match e
    case Fired(timer, now) => timer in l.timers.waiting && l.timers.waiting[timer] <= now
    case TickEnded(_, _) => l.ticks > 0
    case _ => true
  }

  /** A fired timer stays in `pendingTick`: only `stop` and `scheduleNext` write that field. */
  function Next(l: Loop, e: Event): Loop
    requires Possible(l, e)
  {
    match e
    case Started(now) => l.(timers := Start(l.timers, now))
    case Stopped => l.(timers := Stop(l.timers))
    case Fired(timer, _) => Loop(l.timers.(waiting := l.timers.waiting - {timer}), l.ticks + 1)
    case TickEnded(delayMs, now) => Loop(ScheduleNext(l.timers, delayMs, now), l.ticks - 1)
  }

  /** The loop after the events, or None when one of them was not possible. */
  function After(events: seq<Event>): Option<Loop> {
    if events == [] then Some(IDLE)
    else
      var n := |events| - 1;
      match After(events[..n])
      case None => None
      case Some(l) => if Possible(l, events[n]) then Some(Next(l, events[n])) else None
  }

  /** `start` finds the worker stopped while an earlier tick is still under way. */
  predicate Restart(l: Loop, e: Event) {
    e.Started? && !l.timers.running && l.ticks > 0
  }

  predicate NoRestart(events: seq<Event>) {
    events != [] ==>
      var n := |events| - 1;
      NoRestart(events[..n]) && (After(events[..n]).Some? ==> !Restart(After(events[..n]).value, events[n]))
  }

  /** One loop: a timer or a tick, never both, and exactly one of them while running; `pendingTick` is set
      exactly while running and names the live timer. */
  predicate SingleLoop(l: Loop) {
    && |l.timers.waiting.Keys| + l.ticks <= 1
    && (l.timers.running ==> |l.timers.waiting.Keys| + l.ticks == 1)
    && (l.timers.running <==> l.timers.pendingTick.Some?)
    && (forall t :: t in l.timers.waiting ==> l.timers.running && l.timers.pendingTick == Some(t))
    && (forall t :: t in l.timers.waiting ==> t < l.timers.next)
  }

  predicate AtMostOne(l: Loop) {
    |l.timers.waiting.Keys| + l.ticks <= 1
  }

  lemma NextKeepsSingleLoop(l: Loop, e: Event)
    requires SingleLoop(l) && Possible(l, e)
    ensures !Restart(l, e) ==> SingleLoop(Next(l, e))
    ensures Restart(l, e) ==> !AtMostOne(Next(l, e))
  {
    var w := l.timers.waiting.Keys;
    if |w| == 1 {
      var _ := OnlyMember(w);
    }
    match e
    case Started(_) => if !l.timers.running { assert |w| == 0; assert Next(l, e).timers.waiting.Keys == {l.timers.next}; }
    case TickEnded(_, _) =>
      assert |w| == 0;
      if l.timers.running { assert Next(l, e).timers.waiting.Keys == {l.timers.next}; }
    case _ =>
  }

  lemma OnlyMember<T>(s: set<T>) returns (t: T)
    requires |s| == 1
    ensures s == {t}
  {
    t :| t in s;
    assert |s - {t}| == 0;
  }

  /** Without a restart during a tick, the worker has a single polling loop at every point of every run. */
  lemma {:induction false} SinglePollingLoop(events: seq<Event>)
    requires After(events).Some? && NoRestart(events)
    ensures SingleLoop(After(events).value)
  {
    if events != [] {
      var n := |events| - 1;
      SinglePollingLoop(events[..n]);
      NextKeepsSingleLoop(After(events[..n]).value, events[n]);
    }
  }

  /** At no point of the run are there two timers or ticks. */
  predicate NeverTwo(events: seq<Event>) {
    && (After(events).Some? ==> AtMostOne(After(events).value))
    && (events != [] ==> NeverTwo(events[..|events| - 1]))
  }

  /** A run has two loops at some point if and only if some `start` restarts the worker during a tick. */
  lemma {:induction false} TwoLoopsExactlyOnRestart(events: seq<Event>)
    requires After(events).Some?
    ensures NeverTwo(events) <==> NoRestart(events)
  {
    if events != [] {
      var n := |events| - 1;
      TwoLoopsExactlyOnRestart(events[..n]);
      if NoRestart(events[..n]) {
        SinglePollingLoop(events[..n]);
        NextKeepsSingleLoop(After(events[..n]).value, events[n]);
      }
    } else {
      assert |IDLE.timers.waiting.Keys| == 0;
    }
  }

  /** Between `stop` and the next `start` no timer fires, so no `pop` begins: the worker is stopped, nothing is waiting. */
  lemma StoppedMeansQuiet(events: seq<Event>, timer: Timer, now: int)
    requires After(events).Some? && NoRestart(events) && !After(events).value.timers.running
    ensures !Possible(After(events).value, Fired(timer, now))
  {
    SinglePollingLoop(events);
  }

  /**
   * Where a tick under way ends by asking for the next one, and nobody has restarted the worker during a tick: a running
   * worker can begin that tick as soon as `delayMs` has passed, and no tick at all before.
   */
  lemma NextTickWaits(events: seq<Event>, delayMs: int, now: int, timer: Timer, time: int)
    requires After(events).Some? && NoRestart(events) && After(events).value.ticks > 0 && After(events).value.timers.running
    ensures var l := After(events + [TickEnded(delayMs, now)]);
            && l.Some? && l.value.timers.running
            && Possible(l.value, Fired(After(events).value.timers.next, now + delayMs))
            && (Possible(l.value, Fired(timer, time)) ==> time >= now + delayMs)
  {
    var l := After(events).value;
    SinglePollingLoop(events);
    AfterOneMore(events, TickEnded(delayMs, now));
    assert l.timers.waiting.Keys == {};
  }

  /** A worker that is started can begin its first tick at once. */
  lemma FirstTickIsDueAtOnce(events: seq<Event>, now: int)
    requires After(events).Some? && !After(events).value.timers.running
    ensures var l := After(events + [Started(now)]);
            l.Some? && l.value.timers.running && Possible(l.value, Fired(After(events).value.timers.next, now))
  {
    AfterOneMore(events, Started(now));
  }

  /**
   * Whenever the worker is restarted during a tick, this fails too: the timer that `start` has set survives the next
   * `stop`, because the end of the tick has replaced it in `pendingTick`.
   */
  lemma RestartOutlivesStop(events: seq<Event>, now: int, delayMs: int, later: int)
    requires After(events).Some? && Restart(After(events).value, Started(now))
    ensures var l := After(events + [Started(now)] + [TickEnded(delayMs, later)] + [Stopped]);
            l.Some? && !l.value.timers.running && Possible(l.value, Fired(After(events).value.timers.next, now))
  {
    AfterOneMore(events, Started(now));
    AfterOneMore(events + [Started(now)], TickEnded(delayMs, later));
    AfterOneMore(events + [Started(now)] + [TickEnded(delayMs, later)], Stopped);
  }

  lemma AfterOneMore(events: seq<Event>, e: Event)
    ensures After(events + [e]) ==
            match After(events)
            case None => None
            case Some(l) => if Possible(l, e) then Some(Next(l, e)) else None
  {
    assert (events + [e])[..|events|] == events;
  }
}
