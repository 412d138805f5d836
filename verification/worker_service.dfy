/** The worker as the class it is (src/services/worker.service.ts), over the in-memory driver. */
module WorkerService {
  import opened JsStrings
  import opened Options
  import opened Backoff
  import opened Jobs
  import opened WorkerPolicy
  import opened MemoryDriver
  import MS = MemoryStore
  import Drain
  import Grammar = EventGrammar
  import L = PollingLoop

  /** The host's timers that belong to one worker. */
  class TimerHost {
    var waiting: map<L.Timer, int>  // when each is due
    var next: L.Timer

    constructor ()
      ensures waiting == map[] && next == 1
    {
      waiting, next := map[], 1;
    }

    method SetTimeout(delayMs: int, now: int) returns (timer: L.Timer)
      modifies this
      ensures timer == old(next) && next == timer + 1 && waiting == old(waiting)[timer := now + delayMs]
    {
      timer := next;
      waiting, next := waiting[timer := now + delayMs], next + 1;
    }

    method ClearTimeout(timer: L.Timer)
      modifies this
      ensures waiting == old(waiting) - {timer} && next == old(next)
    {
      waiting := waiting - {timer};
    }
  }

  class EventBus {
    var log: seq<Event>

    constructor ()
      ensures log == []
    {
      log := [];
    }

    method Emit(event: Event)
      modifies this
      ensures log == old(log) + [event]
    {
      log := log + [event];
    }
  }

  /** Events of one attempt, as they reach the bus. */
  function Tagged(kinds: seq<EventKind>, id: JobId, attempt: int): (r: seq<Event>)
    ensures |r| == |kinds|
  {
    seq(|kinds|, i requires 0 <= i < |kinds| => JobEvent(kinds[i], id, attempt))
  }

  /** The complete trail of the attempt that `p` makes of a popped job. */
  function WorkedEvents(policy: Policy, p: Drain.Processor, job: Job): seq<Event> {
    var (id, attempts) := (job.spec.id, job.attempts);
    Tagged(Grammar.Complete(policy, job.spec, attempts, p.outcome(id, attempts)), id, attempts)
  }

  lemma EventsOfAnAttempt(policy: Policy, spec: JobSpec, k: int, outcome: Outcome)
    ensures Tagged(Grammar.Complete(policy, spec, k, outcome), spec.id, k)
            == [JobEvent(JobProcessing, spec.id, k)]
               + (if outcome.Timeout? then [JobEvent(JobTimedOut, spec.id, k)] else [])
               + [JobEvent(Report(Decide(policy, spec, k, outcome)), spec.id, k), JobEvent(JobAttempted, spec.id, k)]
  {
  }

  class Worker {
    const connection: MemoryConnection
    const queue: JsString
    const policy: Policy
    const pollIntervalMs: int
    const host: TimerHost
    const bus: EventBus
    var running: bool
    var pendingTick: Option<L.Timer>

    constructor (connection: MemoryConnection, queue: JsString, policy: Policy, pollIntervalMs: int, host: TimerHost, bus: EventBus)
      ensures this.connection == connection && this.queue == queue && this.policy == policy
      ensures this.host == host && this.bus == bus && !running && pendingTick == None
    {
      this.connection, this.queue, this.policy, this.pollIntervalMs := connection, queue, policy, pollIntervalMs;
      this.host, this.bus := host, bus;
      running, pendingTick := false, None;
    }

    function Timers(): L.Timers
      reads this, host
    {
      L.Timers(running, pendingTick, host.waiting, host.next)
    }

    method Start(now: int)
      modifies this, host, bus
      ensures Timers() == L.Start(old(Timers()), now)
      ensures bus.log == old(bus.log) + if old(running) then [] else [WorkerStarting]
    {
      if running {
        return;
      }
      running := true;
      bus.Emit(WorkerStarting);
      ScheduleNext(0, now);
    }

    method Stop()
      modifies this, host, bus
      ensures Timers() == L.Stop(old(Timers()))
      ensures bus.log == old(bus.log) + if old(running) then [WorkerStopping] else []
    {
      if !running {
        return;
      }
      running := false;
      if pendingTick.Some? {
        host.ClearTimeout(pendingTick.value);
        pendingTick := None;
      }
      bus.Emit(WorkerStopping);
    }

    method ScheduleNext(delayMs: int, now: int)
      modifies this, host
      ensures Timers() == L.ScheduleNext(old(Timers()), delayMs, now)
    {
      if !running {
        return;
      }
      var timer := host.SetTimeout(delayMs, now);
      pendingTick := Some(timer);
    }

    /**
     * One tick in which nobody else but the clock moves: it reads `now` at the pop and moves on while the processor runs.
     * The next tick is due at once after a job, and after the poll interval when there was none.
     */
    method Tick(now: int, p: Drain.Processor)
      requires connection.Valid()
      modifies this, host, bus, connection, connection.objects
      ensures connection.Valid() && MS.Valid(old(connection.store))
      ensures connection.store == Drain.Tick(old(connection.store), queue, policy, p, now).store
      ensures var job := MS.Pop(old(connection.store), queue, now).1;
              bus.log == old(bus.log) + if job.None? then [] else WorkedEvents(policy, p, job.value)
      ensures var t := Drain.Tick(old(connection.store), queue, policy, p, now);
              Timers() == L.ScheduleNext(old(Timers()), if t.popped.None? then pollIntervalMs else 0, t.now)
    {
      ghost var t := Drain.Tick(connection.store, queue, policy, p, now);
      var job := connection.Pop(queue, now);
      if job == null {
        assert t == Drain.Ticked(connection.store, None, now);
        ScheduleNext(pollIntervalMs, now);
        return;
      }
      var later := RunJob(job, p, now);
      assert t == Drain.Ticked(connection.store, Some(job.spec.id), later);
      ScheduleNext(0, later);
    }

    /** Handles a popped job with the processor `p`, which moves the clock on from `now`. */
    method RunJob(job: QueuedJob, p: Drain.Processor, now: int) returns (later: int)
      requires connection.Valid() && job in connection.objects
      modifies bus, connection, connection.objects
      ensures connection.Valid()
      ensures connection.store == Drain.Worked(old(connection.store), old(job.View()), policy, p, now)
      ensures bus.log == old(bus.log) + WorkedEvents(policy, p, old(job.View()))
      ensures later == now + p.took(job.spec.id, old(job.attempts))
    {
      later := now + p.took(job.spec.id, job.attempts);
      Handle(job, p.outcome(job.spec.id, job.attempts), later);
    }

    /** Runs the job, settles it by its outcome, and reports. */
    method Handle(job: QueuedJob, outcome: Outcome, now: int)
      requires connection.Valid() && job in connection.objects
      modifies bus, connection, connection.objects
      ensures connection.Valid()
      ensures connection.store == SettleStore(old(connection.store), job.spec.id,
                                              Decide(policy, job.spec, old(job.attempts), outcome), now)
      ensures bus.log == old(bus.log)
                         + Tagged(Grammar.Complete(policy, job.spec, old(job.attempts), outcome), job.spec.id, old(job.attempts))
    {
      EventsOfAnAttempt(policy, job.spec, job.attempts, outcome);
      bus.Emit(JobEvent(JobProcessing, job.spec.id, job.attempts));
      SettleByOutcome(job, outcome, now);
      bus.Emit(JobEvent(JobAttempted, job.spec.id, job.attempts));
    }

    /** The part of `handle` that depends on how the processor run ended. */
    method SettleByOutcome(job: QueuedJob, outcome: Outcome, now: int)
      requires connection.Valid() && job in connection.objects
      modifies bus, connection, connection.objects
      ensures connection.Valid() && job.attempts == old(job.attempts)
      ensures var v := Decide(policy, job.spec, old(job.attempts), outcome);
              && connection.store == SettleStore(old(connection.store), job.spec.id, v, now)
              && bus.log == old(bus.log)
                            + (if outcome.Timeout? then [JobEvent(JobTimedOut, job.spec.id, old(job.attempts))] else [])
                            + [JobEvent(Report(v), job.spec.id, old(job.attempts))]
    {
      if outcome.Ok? {
        connection.Remove(job.spec.id);
        bus.Emit(JobEvent(JobProcessed, job.spec.id, job.attempts));
        return;
      }
      var timedOut := outcome.Timeout?;
      if timedOut {
        bus.Emit(JobEvent(JobTimedOut, job.spec.id, job.attempts));
      }
      HandleFailure(job, timedOut, now);
    }

    /** Releases the job with backoff while attempts remain, and fails it otherwise. */
    method HandleFailure(job: QueuedJob, timedOut: bool, now: int)
      requires connection.Valid() && job in connection.objects
      modifies bus, connection, connection.objects
      ensures connection.Valid() && job.attempts == old(job.attempts)
      ensures var v := Decide(policy, job.spec, old(job.attempts), if timedOut then Timeout else Throw);
              && connection.store == SettleStore(old(connection.store), job.spec.id, v, now)
              && bus.log == old(bus.log) + [JobEvent(Report(v), job.spec.id, old(job.attempts))]
    {
      var attemptsLeft := job.spec.maxAttempts - job.attempts;
      var shouldFailNow := (timedOut && policy.failOnTimeout) || attemptsLeft <= 0;
      if shouldFailNow {
        var finalError := if timedOut && policy.failOnTimeout then TimeoutReason else AttemptsReason(job.attempts);
        connection.Fail(job.spec.id, finalError, now);
        bus.Emit(JobEvent(JobFailed, job.spec.id, job.attempts));
        return;
      }
      var delayMs := ComputeBackoff(job.attempts + 1, job.spec.backoffMs, policy.maxBackoffMs);
      connection.Release(job.spec.id, delayMs, now);
      bus.Emit(JobEvent(JobReleased(delayMs), job.spec.id, job.attempts));
    }
  }
}
