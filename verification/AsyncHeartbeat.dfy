/** The asyncio heartbeat scheduler.  Its worker looks at the heap under one hold of the lock, waits
    on an event outside of it, and looks again and pops under another hold.  It takes the same
    abstract steps as the threaded scheduler, plus steps that leave them alone.
  */
module AsyncHeartbeat {
  import opened HeartbeatSteps
  import opened Options
  import Heartbeat

  /** Where the worker is between two holds of the lock, while `core.worker` is `Top`. */
  datatype Phase =
    | Peek
    | Waiting(until: real)
    | PopNext

  datatype AsyncScheduler = AsyncScheduler(core: Scheduler, wakeup: bool, phase: Phase)

  datatype AsyncEvent =
    | Look(now: real)
    | WaitEnds(now: real)
    | PopTurn(now: real, popped: Option<Ticket>)
    | Other(event: Event)

  predicate NothingDue(s: Scheduler, now: real) {
    forall t :: t in s.heap ==> t.due > now
  }

  predicate AsyncEnabled(a: AsyncScheduler, e: AsyncEvent) {
    match e
    case Look(_) => a.core.worker.Top? && a.phase.Peek?
    case WaitEnds(now) => a.core.worker.Top? && a.phase.Waiting? && (a.wakeup || now >= a.phase.until)
    case PopTurn(now, popped) =>
      && a.core.worker.Top? && a.phase.PopNext?
      && (match popped
          case None => NothingDue(a.core, now)
          case Some(t) => Earliest(a.core.heap, t) && t.due <= now)
    case Other(event) => !event.Turn? && Enabled(a.core, event)
  }

  /** The first hold of the lock: leave, start to wait, or go on to pop. */
  ghost function LookStep(a: AsyncScheduler, now: real, interval: real): AsyncScheduler {
    if a.core.shutdown then a.(core := a.core.(worker := Exiting))
    else if a.core.heap == multiset{} then AsyncScheduler(a.core, false, Waiting(now + interval))
    else if NothingDue(a.core, now) then AsyncScheduler(a.core, false, Waiting(FirstDue(a.core.heap)))
    else a.(phase := PopNext)
  }

  ghost function FirstDue(heap: multiset<Ticket>): (due: real)
    requires heap != multiset{}
    ensures (forall t :: t in heap ==> due <= t.due) && exists t :: t in heap && t.due == due
  {
    AnEarliestExists(heap);
    var t :| Earliest(heap, t);
    t.due
  }

  lemma {:induction false} AnEarliestExists(heap: multiset<Ticket>)
    requires heap != multiset{}
    ensures exists t :: Earliest(heap, t)
    decreases |heap|
  {
    var t :| t in heap;
    var rest := heap - multiset{t};
    if rest == multiset{} {
      assert heap == multiset{t};
      assert Earliest(heap, t);
    } else {
      AnEarliestExists(rest);
      var u :| Earliest(rest, u);
      assert forall v :: v in heap ==> v == t || v in rest;
      assert Earliest(heap, if t.due <= u.due then t else u);
    }
  }

  ghost function AsyncApply(a: AsyncScheduler, e: AsyncEvent, interval: real): AsyncScheduler
    requires AsyncEnabled(a, e)
  {
    match e
    case Look(now) => LookStep(a, now, interval)
    case WaitEnds(_) => a.(phase := Peek)
    case PopTurn(_, popped) =>
      AsyncScheduler(if popped.Some? then TurnStep(a.core, popped) else a.core, a.wakeup, Peek)
    case Other(event) =>
      AsyncScheduler(Apply(a.core, event, interval),
                     a.wakeup || event.Shutdown? || (event.Register? && event.taskId != ""),
                     if a.core.worker.Stopped? then Peek else a.phase)
  }

  // ---------------------------------------------------------------------------
  // Refinement
  // ---------------------------------------------------------------------------

  /** The event of the abstract scheduler that an asyncio step amounts to, if it is not silent. */
  function Abstract(a: AsyncScheduler, e: AsyncEvent): Option<Event>
    requires AsyncEnabled(a, e)
  {
    match e
    case Look(now) => if a.core.shutdown then Some(Turn(now, None)) else None
    case WaitEnds(_) => None
    case PopTurn(now, popped) => if popped.Some? then Some(Turn(now, popped)) else None
    case Other(event) => Some(event)
  }

  lemma StepRefines(a: AsyncScheduler, e: AsyncEvent, interval: real)
    requires AsyncEnabled(a, e)
    ensures match Abstract(a, e)
            case None => AsyncApply(a, e, interval).core == a.core
            case Some(event) =>
              Enabled(a.core, event)
              && AsyncApply(a, e, interval).core == Apply(a.core, event, interval)
  {}

  ghost predicate AsyncBehavior(a: AsyncScheduler, events: seq<AsyncEvent>, interval: real)
    decreases |events|
  {
    events == [] || (AsyncEnabled(a, events[0])
                     && AsyncBehavior(AsyncApply(a, events[0], interval), events[1..], interval))
  }

  ghost function AsyncAfter(a: AsyncScheduler, events: seq<AsyncEvent>, interval: real): AsyncScheduler
    requires AsyncBehavior(a, events, interval)
    decreases |events|
  {
    if events == [] then a else AsyncAfter(AsyncApply(a, events[0], interval), events[1..], interval)
  }

  ghost function Projection(a: AsyncScheduler, events: seq<AsyncEvent>, interval: real): seq<Event>
    requires AsyncBehavior(a, events, interval)
    decreases |events|
  {
    if events == [] then []
    else
      var rest := Projection(AsyncApply(a, events[0], interval), events[1..], interval);
      match Abstract(a, events[0])
      case None => rest
      case Some(event) => [event] + rest
  }

  /** Every run of the asyncio scheduler, with its silent steps left out, is a run of the abstract
      scheduler that ends in the same table, heap and worker state: what is proved of its runs,
      coverage included, holds here.  (The threaded worker takes fewer of them: it never pops once
      shutdown is signalled.) */
  lemma {:induction false} RunRefines(a: AsyncScheduler, events: seq<AsyncEvent>, interval: real)
    requires AsyncBehavior(a, events, interval)
    ensures Behavior(a.core, Projection(a, events, interval), interval)
    ensures After(a.core, Projection(a, events, interval), interval) == AsyncAfter(a, events, interval).core
    decreases |events|
  {
    if events != [] {
      var a' := AsyncApply(a, events[0], interval);
      RunRefines(a', events[1..], interval);
      StepRefines(a, events[0], interval);
      if Abstract(a, events[0]).Some? {
        var all := Projection(a, events, interval);
        assert all[1..] == Projection(a', events[1..], interval);
      }
    }
  }

  // ---------------------------------------------------------------------------
  // No lost wake-ups
  // ---------------------------------------------------------------------------

  /** A waiting worker whose event is not set has seen everything: it waits for the earliest ticket,
      and nobody asked it to leave. */
  ghost predicate NothingMissed(a: AsyncScheduler) {
    a.core.worker.Top? && a.phase.Waiting? && !a.wakeup ==>
      !a.core.shutdown && forall t :: t in a.core.heap ==> t.due >= a.phase.until
  }

  lemma LookMissesNothing(a: AsyncScheduler, now: real, interval: real)
    ensures NothingMissed(LookStep(a, now, interval)) || !a.phase.Peek?
  {}

  lemma OtherMissesNothing(a: AsyncScheduler, event: Event, interval: real)
    requires NothingMissed(a) && AsyncEnabled(a, Other(event))
    requires Busy(a.core) ==> a.phase.Peek?
    ensures NothingMissed(AsyncApply(a, Other(event), interval))
  {
    HeapAfter(a.core, event, interval);
    ShutdownOrigin(a.core, event, interval);
    TopOrigin(a.core, event, interval);
  }

  lemma ShutdownOrigin(s: Scheduler, e: Event, interval: real)
    requires Enabled(s, e)
    ensures Apply(s, e, interval).shutdown ==> s.shutdown || e.Shutdown?
  {
    match e
    case Register(_, _, _) =>
    case _ =>
  }

  /** The worker gets to the top of its loop by a requeue or when a registration starts it. */
  lemma TopOrigin(s: Scheduler, e: Event, interval: real)
    requires Enabled(s, e)
    ensures Apply(s, e, interval).worker.Top? ==> s.worker.Top? || s.worker.Renewed? || s.worker.Stopped?
    ensures Busy(Apply(s, e, interval)) && !Busy(s) ==> e.Turn?
  {
    match e
    case Register(_, _, _) =>
    case Turn(_, _) =>
    case _ =>
  }

  lemma NothingMissedStep(a: AsyncScheduler, e: AsyncEvent, interval: real)
    requires NothingMissed(a) && AsyncEnabled(a, e) && (Busy(a.core) ==> a.phase.Peek?)
    ensures NothingMissed(AsyncApply(a, e, interval))
    ensures Busy(AsyncApply(a, e, interval).core) ==> AsyncApply(a, e, interval).phase.Peek?
  {
    match e
    case Look(now) => LookMissesNothing(a, now, interval);
    case WaitEnds(_) =>
    case PopTurn(_, _) =>
    case Other(event) =>
      OtherMissesNothing(a, event, interval);
      TopOrigin(a.core, event, interval);
  }

  /** In every reachable state a ticket that falls due before the wait ends, and a shutdown, have
      set the event. */
  lemma {:induction false} NothingIsMissed(a: AsyncScheduler, events: seq<AsyncEvent>, interval: real)
    requires NothingMissed(a) && AsyncBehavior(a, events, interval)
    requires Busy(a.core) ==> a.phase.Peek?
    ensures NothingMissed(AsyncAfter(a, events, interval))
    decreases |events|
  {
    if events != [] {
      NothingMissedStep(a, events[0], interval);
      NothingIsMissed(AsyncApply(a, events[0], interval), events[1..], interval);
    }
  }

  /** The wait that a look begins, if nothing sets the event, ends exactly one interval later with an
      empty heap and exactly when the first ticket is due otherwise; with a ticket due there is none. */
  lemma LookWaitsExactly(a: AsyncScheduler, now: real, later: real, interval: real)
    requires AsyncEnabled(a, Look(now)) && !a.core.shutdown
    ensures var looked := AsyncApply(a, Look(now), interval);
            && looked.core == a.core
            && (looked.phase.PopNext? <==> exists t :: t in a.core.heap && t.due <= now)
            && (a.core.heap == multiset{} ==> (AsyncEnabled(looked, WaitEnds(later)) <==> later >= now + interval))
            && (a.core.heap != multiset{} && looked.phase.Waiting? ==>
                  (AsyncEnabled(looked, WaitEnds(later)) <==> exists t :: t in a.core.heap && t.due <= later))
  {
    assert a.core.heap != multiset{} ==> exists t :: t in a.core.heap;
  }

  /** When its wait ends, and when its second hold of the lock starts no renewal, the worker looks again. */
  lemma LooksAgain(a: AsyncScheduler, e: AsyncEvent, now: real, interval: real)
    requires AsyncEnabled(a, e) && (e.WaitEnds? || e.PopTurn?) && !AsyncApply(a, e, interval).core.worker.Renewing?
    ensures AsyncEnabled(AsyncApply(a, e, interval), Look(now))
  {}

  /** A registration that finds the worker gone starts one that looks first. */
  lemma RestartLooksFirst(a: AsyncScheduler, taskId: TaskId, onFailure: FailureAction, at: real, now: real,
                          interval: real)
    requires a.core.worker.Stopped? && taskId != ""
    ensures var started := AsyncApply(a, Other(Register(taskId, onFailure, at)), interval);
            AsyncEnabled(started, Look(now)) && !started.core.shutdown && started.wakeup
  {}

  ghost predicate NeverWakes(events: seq<AsyncEvent>) {
    forall i :: 0 <= i < |events| ==> !events[i].WaitEnds?
  }

  /** A registration made while the worker waits, hence after it cleared the event, ends the wait:
      until it does, the end of the wait stays enabled at any clock reading. */
  lemma {:induction false} RegisterEndsTheWait(a: AsyncScheduler, taskId: TaskId, onFailure: FailureAction, at: real,
                                               events: seq<AsyncEvent>, interval: real, now: real)
    requires a.core.worker.Top? && a.phase.Waiting? && taskId != ""
    requires var woken := AsyncApply(a, Other(Register(taskId, onFailure, at)), interval);
             AsyncBehavior(woken, events, interval) && NeverWakes(events)
    ensures var woken := AsyncApply(a, Other(Register(taskId, onFailure, at)), interval);
            AsyncEnabled(AsyncAfter(woken, events, interval), WaitEnds(now))
  {
    EventStaysSet(AsyncApply(a, Other(Register(taskId, onFailure, at)), interval), events, interval);
  }

  lemma {:induction false} EventStaysSet(a: AsyncScheduler, events: seq<AsyncEvent>, interval: real)
    requires a.core.worker.Top? && a.phase.Waiting? && a.wakeup
    requires AsyncBehavior(a, events, interval) && NeverWakes(events)
    ensures var end := AsyncAfter(a, events, interval); end.core.worker.Top? && end.phase.Waiting? && end.wakeup
    decreases |events|
  {
    if events != [] {
      EventStaysSet(AsyncApply(a, events[0], interval), events[1..], interval);
    }
  }

  // ---------------------------------------------------------------------------
  // Shutdown
  // ---------------------------------------------------------------------------

  ghost function PopsOf(events: seq<AsyncEvent>): nat
    decreases |events|
  {
    if events == [] then 0
    else (if events[0].PopTurn? && events[0].popped.Some? then 1 else 0) + PopsOf(events[1..])
  }

  ghost predicate NeverRestarts(a: AsyncScheduler, events: seq<AsyncEvent>, interval: real)
    requires AsyncBehavior(a, events, interval)
    decreases |events|
  {
    events == [] || (!a.core.worker.Stopped?
                     && NeverRestarts(AsyncApply(a, events[0], interval), events[1..], interval))
  }

  /** After shutdown is signalled the coroutine pops at most one more ticket, and only when it was
      between its two holds of the lock; the threaded worker pops none. */
  lemma {:induction false} AtMostOnePopAfterShutdown(a: AsyncScheduler, events: seq<AsyncEvent>, interval: real)
    requires a.core.shutdown && AsyncBehavior(a, events, interval) && NeverRestarts(a, events, interval)
    requires Busy(a.core) ==> a.phase.Peek?
    ensures PopsOf(events) <= if a.core.worker.Top? && a.phase.PopNext? then 1 else 0
    decreases |events|
  {
    if events != [] {
      var a' := AsyncApply(a, events[0], interval);
      ShutdownStays(a, events[0], interval);
      AtMostOnePopAfterShutdown(a', events[1..], interval);
    }
  }

  /** It does so in this run: a ticket falls due, the worker looks, shutdown is signalled, and the
      worker still pops the ticket and starts the renewal. */
  lemma PopsAfterShutdown(taskId: TaskId, onFailure: FailureAction, now: real, interval: real)
    returns (events: seq<AsyncEvent>)
    requires taskId != ""
    ensures |events| == 4 && events[2] == Other(Shutdown) && events[3].PopTurn? && events[3].popped.Some?
    ensures var start := AsyncScheduler(INITIAL, false, Peek);
            && AsyncBehavior(start, events, interval)
            && (var end := AsyncAfter(start, events, interval);
                end.core.shutdown && end.core.worker == Renewing(taskId, onFailure))
  {
    var t := Ticket(now + interval, taskId, 0);
    var start := AsyncScheduler(INITIAL, false, Peek);
    var e0, e1 := Other(Register(taskId, onFailure, now)), Look(now + interval);
    var e2, e3 := Other(Shutdown), PopTurn(now + interval, Some(t));
    events := [e0] + ([e1] + ([e2] + ([e3] + [])));
    var a1 := AsyncApply(start, e0, interval);
    assert a1.core.heap == multiset{t};
    var a2 := AsyncApply(a1, e1, interval);
    var a3 := AsyncApply(a2, e2, interval);
    AsyncCons(a3, e3, [], interval);
    AsyncCons(a2, e2, [e3] + [], interval);
    AsyncCons(a1, e1, [e2] + ([e3] + []), interval);
    AsyncCons(start, e0, [e1] + ([e2] + ([e3] + [])), interval);
  }

  lemma AsyncCons(a: AsyncScheduler, e: AsyncEvent, rest: seq<AsyncEvent>, interval: real)
    requires AsyncEnabled(a, e) && AsyncBehavior(AsyncApply(a, e, interval), rest, interval)
    ensures AsyncBehavior(a, [e] + rest, interval)
    ensures AsyncAfter(a, [e] + rest, interval) == AsyncAfter(AsyncApply(a, e, interval), rest, interval)
  {
    assert ([e] + rest)[1..] == rest;
  }

  lemma ShutdownStays(a: AsyncScheduler, e: AsyncEvent, interval: real)
    requires a.core.shutdown && AsyncEnabled(a, e) && !a.core.worker.Stopped?
    requires Busy(a.core) ==> a.phase.Peek?
    ensures var a' := AsyncApply(a, e, interval);
            && a'.core.shutdown && (Busy(a'.core) ==> a'.phase.Peek?)
            && (a'.core.worker.Top? && a'.phase.PopNext? ==> a.core.worker.Top? && a.phase.PopNext? && !e.PopTurn?)
  {
    if e.Other? {
      TopOrigin(a.core, e.event, interval);
      if e.event.Register? {
        assert Apply(a.core, e.event, interval).shutdown;
      }
    }
  }

  // ---------------------------------------------------------------------------
  // The scheduler object
  // ---------------------------------------------------------------------------

  /** The table, the heap and the renewals are those of `core`; the event and the position of the
      coroutine between its two holds of the lock are its own. */
  class AsyncHeartbeatScheduler {
    const core: Heartbeat.HeartbeatScheduler
    var wakeup: bool
    var phase: Phase

    ghost function State(): AsyncScheduler
      reads this, core, core.entries.Values
    {
      AsyncScheduler(core.State(), wakeup, phase)
    }

    constructor (leaseDuration: int)
      ensures core.Valid() && State() == AsyncScheduler(INITIAL, false, Peek)
      ensures core.interval == leaseDuration as real / 2.0
    {
      core := new Heartbeat.HeartbeatScheduler(leaseDuration);
      wakeup, phase := false, Peek;
    }

    method Register(taskId: TaskId, onFailure: FailureAction, now: real) returns (entry: Heartbeat.HeartbeatEntry)
      requires core.Valid()
      modifies this, core
      ensures core.Valid() && core.entries == old(core.entries)[taskId := entry]
      ensures State() == AsyncApply(old(State()), Other(Event.Register(taskId, onFailure, now)), core.interval)
    {
      ghost var before := core.State();
      if core.worker.Stopped? { phase := Peek; }
      assert core.State() == before;
      entry := core.Register(taskId, onFailure, now);
      ghost var after := core.State();
      if taskId != "" { wakeup := true; }
      assert core.State() == after;
    }

    method SignalShutdown()
      requires core.Valid() && !core.worker.Stopped?
      modifies this`wakeup, core`shutdown
      ensures core.Valid() && State() == AsyncApply(old(State()), Other(Event.Shutdown), core.interval)
    {
      core.SignalShutdown();
      wakeup := true;
    }

    /** The first hold of the lock. */
    method Look(now: real)
      requires core.Valid() && core.worker.Top? && phase.Peek?
      modifies this, core`worker
      ensures core.Valid() && State() == LookStep(old(State()), now, core.interval)
    {
      if core.shutdown {
        core.Leave();
      } else if core.heap == multiset{} {
        wakeup, phase := false, Waiting(now + core.interval);
      } else {
        var front := core.Front();
        if front.due > now {
          wakeup, phase := false, Waiting(front.due);
        } else {
          phase := PopNext;
        }
      }
    }

    /** The wait ends when the event is set or the timeout elapses. */
    method EndWait(now: real)
      requires AsyncEnabled(State(), WaitEnds(now))
      modifies this`phase
      ensures State() == AsyncApply(old(State()), WaitEnds(now), core.interval)
    {
      phase := Peek;
    }

    /** The second hold of the lock: look again, since the heap may have changed, then pop. */
    method PopTurn(now: real) returns (popped: Option<Ticket>)
      requires core.Valid() && core.worker.Top? && phase.PopNext?
      modifies this`phase, core`heap, core`worker
      ensures core.Valid() && AsyncEnabled(old(State()), AsyncEvent.PopTurn(now, popped))
      ensures State() == AsyncApply(old(State()), AsyncEvent.PopTurn(now, popped), core.interval)
    {
      phase := Peek;
      if core.heap == multiset{} {
        return None;
      }
      var front := core.Front();
      if front.due > now {
        return None;
      }
      core.Pop(front);
      return Some(front);
    }
  }
}
