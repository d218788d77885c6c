/** The asyncio drain loop.  A request only fixes its target and starts a coroutine, which takes the
    lock and records the target later; and after shutdown no new task is started.  Every run still is
    a run of the threaded loop, and a request on its way is not lost.
  */
module AsyncDrainLoop {
  import opened Options
  import opened DrainLoop

  /** The loop, and the targets whose coroutines have not had the lock yet. */
  datatype AsyncLoop = AsyncLoop(core: Traced, onTheWay: multiset<real>)

  datatype AsyncEvent =
    | Ask(target: real)
    | Deliver(target: real)
    | Step(event: Event)

  predicate AsyncEnabled(a: AsyncLoop, e: AsyncEvent) {
    match e
    case Ask(_) => true
    case Deliver(target) => target in a.onTheWay
    case Step(event) => !event.Wake? && Enabled(a.core.loop, event)
  }

  /** The coroutine's hold of the lock: as a threaded request, but after shutdown it starts no task. */
  function DeliverStep(loop: Loop, target: real): Loop {
    var started := if !loop.shutdown && loop.phase.NotAlive? then AtTop else loop.phase;
    if loop.nextWake.None? || target < loop.nextWake.value then
      Loop(Some(target), loop.shutdown, Notify(started))
    else
      loop.(phase := started)
  }

  function AsyncApply(a: AsyncLoop, e: AsyncEvent, watchdog: real): AsyncLoop
    requires AsyncEnabled(a, e)
  {
    match e
    case Ask(target) => a.(onTheWay := a.onTheWay + multiset{target})
    case Deliver(target) =>
      AsyncLoop(Traced(DeliverStep(a.core.loop, target), a.core.pending + multiset{target}, a.core.starts),
                a.onTheWay - multiset{target})
    case Step(event) => a.(core := Apply(a.core, event, watchdog))
  }

  ghost predicate AsyncBehavior(a: AsyncLoop, events: seq<AsyncEvent>, watchdog: real)
    decreases |events|
  {
    events == [] || (AsyncEnabled(a, events[0])
                     && AsyncBehavior(AsyncApply(a, events[0], watchdog), events[1..], watchdog))
  }

  ghost function AsyncAfter(a: AsyncLoop, events: seq<AsyncEvent>, watchdog: real): AsyncLoop
    requires AsyncBehavior(a, events, watchdog)
    decreases |events|
  {
    if events == [] then a else AsyncAfter(AsyncApply(a, events[0], watchdog), events[1..], watchdog)
  }

  // ---------------------------------------------------------------------------
  // Refinement
  // ---------------------------------------------------------------------------

  /** The threaded events an asyncio step amounts to.  A delivery after the loop has ended is a
      threaded request whose new thread finds the shutdown and leaves at once. */
  function Abstract(a: AsyncLoop, e: AsyncEvent): seq<Event>
    requires AsyncEnabled(a, e)
  {
    match e
    case Ask(_) => []
    case Deliver(target) =>
      if a.core.loop.shutdown && a.core.loop.phase.NotAlive? then [Wake(target), Turn(0.0), ThreadEnds]
      else [Wake(target)]
    case Step(event) => [event]
  }

  lemma OneStep(s: Traced, e: Event, watchdog: real)
    requires Enabled(s.loop, e)
    ensures Behavior(s, [e], watchdog) && After(s, [e], watchdog) == Apply(s, e, watchdog)
  {
    var rest: seq<Event> := [e][1..];
    assert rest == [];
    assert Behavior(Apply(s, e, watchdog), rest, watchdog);
  }

  lemma {:induction false} Concatenated(s: Traced, first: seq<Event>, second: seq<Event>, watchdog: real)
    requires Behavior(s, first, watchdog) && Behavior(After(s, first, watchdog), second, watchdog)
    ensures Behavior(s, first + second, watchdog)
    ensures After(s, first + second, watchdog) == After(After(s, first, watchdog), second, watchdog)
    decreases |first|
  {
    if first == [] {
      assert first + second == second;
    } else {
      var all, next := first + second, Apply(s, first[0], watchdog);
      assert all[0] == first[0] && all[1..] == first[1..] + second;
      Concatenated(next, first[1..], second, watchdog);
      assert After(s, all, watchdog) == After(next, all[1..], watchdog);
    }
  }

  lemma LateDelivery(s: Traced, target: real, watchdog: real)
    requires s.loop.shutdown && s.loop.phase.NotAlive?
    ensures Behavior(s, [Wake(target), Turn(0.0), ThreadEnds], watchdog)
    ensures After(s, [Wake(target), Turn(0.0), ThreadEnds], watchdog)
         == Traced(DeliverStep(s.loop, target), s.pending + multiset{target}, s.starts)
  {
    var s1 := Apply(s, Wake(target), watchdog);
    var s2 := Apply(s1, Turn(0.0), watchdog);
    OneStep(s, Wake(target), watchdog);
    OneStep(s1, Turn(0.0), watchdog);
    OneStep(s2, ThreadEnds, watchdog);
    Concatenated(s1, [Turn(0.0)], [ThreadEnds], watchdog);
    Concatenated(s, [Wake(target)], [Turn(0.0)] + [ThreadEnds], watchdog);
    assert [Wake(target)] + ([Turn(0.0)] + [ThreadEnds]) == [Wake(target), Turn(0.0), ThreadEnds];
  }

  lemma StepRefines(a: AsyncLoop, e: AsyncEvent, watchdog: real)
    requires AsyncEnabled(a, e)
    ensures Behavior(a.core, Abstract(a, e), watchdog)
    ensures After(a.core, Abstract(a, e), watchdog) == AsyncApply(a, e, watchdog).core
  {
    match e
    case Ask(_) =>
    case Deliver(target) =>
      if a.core.loop.shutdown && a.core.loop.phase.NotAlive? {
        LateDelivery(a.core, target, watchdog);
      } else {
        OneStep(a.core, Wake(target), watchdog);
      }
    case Step(event) => OneStep(a.core, event, watchdog);
  }

  ghost function Projection(a: AsyncLoop, events: seq<AsyncEvent>, watchdog: real): seq<Event>
    requires AsyncBehavior(a, events, watchdog)
    decreases |events|
  {
    if events == [] then []
    else Abstract(a, events[0]) + Projection(AsyncApply(a, events[0], watchdog), events[1..], watchdog)
  }

  /** Every run of the asyncio loop is a run of the threaded one with the same wake field, the same
      pending requests and the same drains, so what is proved of the one holds of the other. */
  lemma {:induction false} RunRefines(a: AsyncLoop, events: seq<AsyncEvent>, watchdog: real)
    requires AsyncBehavior(a, events, watchdog)
    ensures Behavior(a.core, Projection(a, events, watchdog), watchdog)
    ensures After(a.core, Projection(a, events, watchdog), watchdog) == AsyncAfter(a, events, watchdog).core
    decreases |events|
  {
    if events != [] {
      var a' := AsyncApply(a, events[0], watchdog);
      StepRefines(a, events[0], watchdog);
      RunRefines(a', events[1..], watchdog);
      Concatenated(a.core, Abstract(a, events[0]), Projection(a', events[1..], watchdog), watchdog);
    }
  }

  // ---------------------------------------------------------------------------
  // Requests on their way
  // ---------------------------------------------------------------------------

  /** A drain answers what is pending when it starts; a request still on its way is not answered by
      it, but neither is it lost: until some later drain starts it is on its way or pending. */
  lemma {:induction false} AskSurvives(a: AsyncLoop, events: seq<AsyncEvent>, watchdog: real, target: real)
    requires AsyncBehavior(a, events, watchdog)
    requires target in a.onTheWay || target in a.core.pending
    ensures var end := AsyncAfter(a, events, watchdog);
            target in end.onTheWay || target in end.core.pending || end.core.starts > a.core.starts
    decreases |events|
  {
    if events != [] {
      var a' := AsyncApply(a, events[0], watchdog);
      AsyncStartsGrow(a', events[1..], watchdog);
      if target in a'.onTheWay || target in a'.core.pending {
        AskSurvives(a', events[1..], watchdog, target);
      }
    }
  }

  /** How often the target is asked for, and delivered. */
  ghost function Asked(events: seq<AsyncEvent>, target: real): nat {
    if events == [] then 0 else (if events[0] == Ask(target) then 1 else 0) + Asked(events[1..], target)
  }

  ghost function Delivered(events: seq<AsyncEvent>, target: real): nat {
    if events == [] then 0 else (if events[0] == Deliver(target) then 1 else 0) + Delivered(events[1..], target)
  }

  /** Every request is on its way until it is delivered, once; and one may be made at any time. */
  lemma {:induction false} AsksAreConserved(a: AsyncLoop, events: seq<AsyncEvent>, watchdog: real, target: real)
    requires AsyncBehavior(a, events, watchdog)
    ensures a.onTheWay[target] + Asked(events, target)
         == AsyncAfter(a, events, watchdog).onTheWay[target] + Delivered(events, target)
    ensures AsyncEnabled(a, Ask(target)) && (AsyncEnabled(a, Deliver(target)) <==> a.onTheWay[target] > 0)
    decreases |events|
  {
    if events != [] { AsksAreConserved(AsyncApply(a, events[0], watchdog), events[1..], watchdog, target); }
  }

  lemma {:induction false} AsyncStartsGrow(a: AsyncLoop, events: seq<AsyncEvent>, watchdog: real)
    requires AsyncBehavior(a, events, watchdog)
    ensures AsyncAfter(a, events, watchdog).core.starts >= a.core.starts
    decreases |events|
  {
    if events != [] { AsyncStartsGrow(AsyncApply(a, events[0], watchdog), events[1..], watchdog); }
  }

  /** After shutdown at most one more drain starts here too. */
  lemma AtMostOneAsyncDrainAfterShutdown(a: AsyncLoop, events: seq<AsyncEvent>, watchdog: real)
    requires a.core.loop.shutdown && AsyncBehavior(a, events, watchdog)
    ensures AsyncAfter(a, events, watchdog).core.starts <= a.core.starts + 1
  {
    RunRefines(a, events, watchdog);
    AtMostOneDrainAfterShutdown(a.core, Projection(a, events, watchdog), watchdog);
  }

  // ---------------------------------------------------------------------------
  // The loop object
  // ---------------------------------------------------------------------------

  /** The wake field, the shutdown flag and the worker's regions are those of `core`; only requests
      differ. */
  class AsyncDrainLoop {
    const core: DrainLoop
    var onTheWay: multiset<real>

    ghost function State(): AsyncLoop reads this, core {
      AsyncLoop(core.State(), onTheWay)
    }

    constructor (watchdogInterval: real)
      ensures fresh(core) && core.Valid() && State() == AsyncLoop(INITIAL, multiset{})
    {
      core := new DrainLoop(watchdogInterval);
      onTheWay := multiset{};
    }

    /** Fix the target and start the coroutine; no lock is taken. */
    method Wake(now: real, delay: real)
      modifies this`onTheWay
      ensures State() == AsyncApply(old(State()), Ask(now + delay), core.watchdogInterval)
    {
      onTheWay := onTheWay + multiset{now + delay};
    }

    /** The coroutine, once it holds the lock. */
    method WakeAsync(target: real)
      requires core.Valid() && target in onTheWay
      modifies this`onTheWay, core
      ensures core.Valid() && State() == AsyncApply(old(State()), Deliver(target), core.watchdogInterval)
    {
      ghost var before := State();
      onTheWay := onTheWay - multiset{target};
      if !core.shutdown { core.EnsureStarted(); }
      if core.nextWake.None? || target < core.nextWake.value {
        core.nextWake := Some(target);
        core.phase := Notify(core.phase);
      }
      core.pending := core.pending + multiset{target};
      DeliveryKeepsInv(before, target, core.watchdogInterval);
      assert State() == AsyncApply(before, Deliver(target), core.watchdogInterval);
    }
  }

  lemma DeliveryKeepsInv(a: AsyncLoop, target: real, watchdog: real)
    requires Inv(a.core) && NotifiedBy(a.core) && target in a.onTheWay
    ensures Inv(AsyncApply(a, Deliver(target), watchdog).core)
        && NotifiedBy(AsyncApply(a, Deliver(target), watchdog).core)
  {
    WakeKeepsInv(a.core, target, watchdog);
    NotifiedByStep(a.core, Event.Wake(target), watchdog);
    var woken, delivered := Apply(a.core, Event.Wake(target), watchdog), AsyncApply(a, Deliver(target), watchdog).core;
    assert delivered.pending == woken.pending && delivered.loop.nextWake == woken.loop.nextWake;
  }
}
