/** The drain loop: one thread that drains when the earliest requested wake-up is due, or when a
    watchdog timeout passes without a request.  A single field stands for all requests since the
    last drain started; here it is shown to be their minimum, and no request is lost.
  */
module DrainLoop {
  import opened Options

  /** Where the thread is.  A waiting thread knows whether it has been notified; `Leaving` has left
      the loop but still reports itself alive. */
  datatype Phase =
    | NotAlive
    | AtTop
    | WaitingForWake(until: real, notified: bool)
    | WaitingForWatchdog(until: real, notified: bool)
    | Draining
    | Leaving

  datatype Loop = Loop(nextWake: Option<real>, shutdown: bool, phase: Phase)

  /** The loop next to what it stands for: every target requested since the last drain started,
      and the number of drains started. */
  datatype Traced = Traced(loop: Loop, pending: multiset<real>, starts: nat)

  datatype Event =
    | Wake(target: real)
    | Shutdown
      // The worker's regions: the top of its loop, and the end of either wait.
    | Turn(now: real)
    | WakeWaitEnds(now: real)
    | WatchdogWaitEnds(now: real)
      // The drain returns, or ends the thread; the thread is gone.
    | DrainEnds
    | DrainDies
    | ThreadEnds

  const INITIAL := Traced(Loop(None, false, NotAlive), multiset{}, 0)

  function Notify(phase: Phase): Phase {
    match phase
    case WaitingForWake(until, _) => WaitingForWake(until, true)
    case WaitingForWatchdog(until, _) => WaitingForWatchdog(until, true)
    case _ => phase
  }

  predicate Enabled(loop: Loop, e: Event) {
    match e
    case Turn(_) => loop.phase.AtTop?
    case WakeWaitEnds(now) => loop.phase.WaitingForWake? && (loop.phase.notified || now >= loop.phase.until)
    case WatchdogWaitEnds(now) => loop.phase.WaitingForWatchdog? && (loop.phase.notified || now >= loop.phase.until)
    case DrainEnds => loop.phase.Draining?
    case DrainDies => loop.phase.Draining?
    case ThreadEnds => loop.phase.Leaving?
    case _ => true
  }

  function WakeStep(loop: Loop, target: real): Loop {
    var started := if loop.phase.NotAlive? then AtTop else loop.phase;
    if loop.nextWake.None? || target < loop.nextWake.value then
      Loop(Some(target), loop.shutdown, Notify(started))
    else
      loop.(phase := started)
  }

  function TurnStep(loop: Loop, now: real, watchdog: real): Loop {
    if loop.shutdown then loop.(phase := Leaving)
    else if loop.nextWake.None? then loop.(phase := WaitingForWatchdog(now + watchdog, false))
    else if loop.nextWake.value > now then loop.(phase := WaitingForWake(loop.nextWake.value, false))
    else Loop(None, loop.shutdown, Draining)
  }

  function WatchdogStep(loop: Loop): Loop {
    if loop.nextWake.Some? then loop.(phase := AtTop) else loop.(phase := Draining)
  }

  function LoopStep(loop: Loop, e: Event, watchdog: real): Loop
    requires Enabled(loop, e)
  {
    match e
    case Wake(target) => WakeStep(loop, target)
    case Shutdown => Loop(loop.nextWake, true, Notify(loop.phase))
    case Turn(now) => TurnStep(loop, now, watchdog)
    case WakeWaitEnds(_) => loop.(phase := AtTop)
    case WatchdogWaitEnds(_) => WatchdogStep(loop)
    case DrainEnds => loop.(phase := AtTop)
    case DrainDies => loop.(phase := Leaving)
    case ThreadEnds => loop.(phase := NotAlive)
  }

  predicate StartsDrain(loop: Loop, e: Event, watchdog: real)
    requires Enabled(loop, e)
  {
    !loop.phase.Draining? && LoopStep(loop, e, watchdog).phase.Draining?
  }

  /** The specification beside the loop: a request is added, the start of a drain answers them all. */
  function Apply(s: Traced, e: Event, watchdog: real): Traced
    requires Enabled(s.loop, e)
  {
    var started := StartsDrain(s.loop, e, watchdog);
    Traced(LoopStep(s.loop, e, watchdog),
           if started then multiset{} else if e.Wake? then s.pending + multiset{e.target} else s.pending,
           if started then s.starts + 1 else s.starts)
  }

  ghost predicate Behavior(s: Traced, events: seq<Event>, watchdog: real)
    decreases |events|
  {
    events == [] || (Enabled(s.loop, events[0]) && Behavior(Apply(s, events[0], watchdog), events[1..], watchdog))
  }

  ghost function After(s: Traced, events: seq<Event>, watchdog: real): Traced
    requires Behavior(s, events, watchdog)
    decreases |events|
  {
    if events == [] then s else After(Apply(s, events[0], watchdog), events[1..], watchdog)
  }

  // ---------------------------------------------------------------------------
  // The field is the minimum of the requests
  // ---------------------------------------------------------------------------

  ghost predicate IsMinimum(pending: multiset<real>, w: real) {
    w in pending && forall t :: t in pending ==> w <= t
  }

  ghost predicate Represents(loop: Loop, pending: multiset<real>) {
    match loop.nextWake
    case None => pending == multiset{}
    case Some(w) => IsMinimum(pending, w)
  }

  /** A waiting thread that was not notified still waits for the right thing. */
  ghost predicate NothingMissed(loop: Loop) {
    match loop.phase
    case WaitingForWake(until, notified) => !notified ==> loop.nextWake == Some(until) && !loop.shutdown
    case WaitingForWatchdog(_, notified) => !notified ==> loop.nextWake == None && !loop.shutdown
    case _ => true
  }

  ghost predicate Inv(s: Traced) {
    Represents(s.loop, s.pending) && NothingMissed(s.loop)
  }

  /** A drain starts only with no request pending, after the watchdog's wait, or when the earliest
      pending target has been reached. */
  ghost predicate StartIsLegal(s: Traced, e: Event, watchdog: real)
    requires Enabled(s.loop, e)
  {
    StartsDrain(s.loop, e, watchdog) ==>
      || (e.Turn? && exists t :: IsMinimum(s.pending, t) && t <= e.now)
      || (e.WatchdogWaitEnds? && s.pending == multiset{} && (e.now >= s.loop.phase.until || s.loop.shutdown))
  }

  lemma WakeKeepsInv(s: Traced, target: real, watchdog: real)
    requires Inv(s)
    ensures Inv(Apply(s, Wake(target), watchdog))
  {
    var s' := Apply(s, Wake(target), watchdog);
    assert s'.pending == s.pending + multiset{target};
    assert IsMinimum(s'.pending, s'.loop.nextWake.value);
  }

  lemma StepKeepsInv(s: Traced, e: Event, watchdog: real)
    requires Inv(s) && Enabled(s.loop, e)
    ensures Inv(Apply(s, e, watchdog))
  {
    if e.Wake? {
      WakeKeepsInv(s, e.target, watchdog);
    } else {
      assert Apply(s, e, watchdog).pending == s.pending || Apply(s, e, watchdog).pending == multiset{};
    }
  }

  /** The wake field is empty iff nothing was requested since the last drain started, and otherwise
      holds the least requested target; and a waiting thread never overlooks a request. */
  lemma {:induction false} WakeFieldIsMinimum(s: Traced, events: seq<Event>, watchdog: real)
    requires Inv(s) && Behavior(s, events, watchdog)
    ensures Inv(After(s, events, watchdog))
    decreases |events|
  {
    if events != [] {
      StepKeepsInv(s, events[0], watchdog);
      WakeFieldIsMinimum(Apply(s, events[0], watchdog), events[1..], watchdog);
    }
  }

  /** A notification in a watchdog wait with no request can only be a shutdown. */
  ghost predicate NotifiedBy(s: Traced) {
    s.loop.phase.WaitingForWatchdog? && s.loop.phase.notified ==> s.loop.shutdown || s.loop.nextWake.Some?
  }

  ghost predicate EveryStartLegal(s: Traced, events: seq<Event>, watchdog: real)
    requires Behavior(s, events, watchdog)
    decreases |events|
  {
    events == [] || (StartIsLegal(s, events[0], watchdog)
                     && EveryStartLegal(Apply(s, events[0], watchdog), events[1..], watchdog))
  }

  lemma NotifiedByStep(s: Traced, e: Event, watchdog: real)
    requires NotifiedBy(s) && Enabled(s.loop, e)
    ensures NotifiedBy(Apply(s, e, watchdog))
  {}

  lemma {:induction false} NoEarlyDrain(s: Traced, events: seq<Event>, watchdog: real)
    requires Inv(s) && NotifiedBy(s) && Behavior(s, events, watchdog)
    ensures EveryStartLegal(s, events, watchdog)
    decreases |events|
  {
    if events != [] {
      StepKeepsInv(s, events[0], watchdog);
      NotifiedByStep(s, events[0], watchdog);
      if StartsDrain(s.loop, events[0], watchdog) && events[0].Turn? {
        assert IsMinimum(s.pending, s.loop.nextWake.value);
      }
      NoEarlyDrain(Apply(s, events[0], watchdog), events[1..], watchdog);
    }
  }

  // ---------------------------------------------------------------------------
  // Every request is answered
  // ---------------------------------------------------------------------------

  /** Requests disappear only when a drain starts, so a request made during a drain survives it. */
  lemma {:induction false} RequestSurvives(s: Traced, events: seq<Event>, watchdog: real, target: real)
    requires target in s.pending && Behavior(s, events, watchdog)
    requires After(s, events, watchdog).starts == s.starts
    ensures target in After(s, events, watchdog).pending
    decreases |events|
  {
    if events != [] {
      StartsGrow(Apply(s, events[0], watchdog), events[1..], watchdog);
      RequestSurvives(Apply(s, events[0], watchdog), events[1..], watchdog, target);
    }
  }

  lemma {:induction false} StartsGrow(s: Traced, events: seq<Event>, watchdog: real)
    requires Behavior(s, events, watchdog)
    ensures After(s, events, watchdog).starts >= s.starts
    decreases |events|
  {
    if events != [] {
      StartsGrow(Apply(s, events[0], watchdog), events[1..], watchdog);
    }
  }

  predicate IsWorkerStep(e: Event) {
    e.Turn? || e.WakeWaitEnds? || e.WatchdogWaitEnds? || e.DrainEnds?
  }

  ghost function WorkerSteps(events: seq<Event>): nat
    decreases |events|
  {
    if events == [] then 0 else (if IsWorkerStep(events[0]) then 1 else 0) + WorkerSteps(events[1..])
  }

  predicate Running(loop: Loop) {
    !loop.shutdown && !loop.phase.NotAlive? && !loop.phase.Leaving?
  }

  /** The worker is free to take its next step at `now`. */
  predicate WorkerMayStep(loop: Loop, now: real) {
    match loop.phase
    case AtTop => Enabled(loop, Turn(now))
    case WaitingForWake(_, _) => Enabled(loop, WakeWaitEnds(now))
    case WaitingForWatchdog(_, _) => Enabled(loop, WatchdogWaitEnds(now))
    case Draining => Enabled(loop, DrainEnds)
    case _ => false
  }

  /** With a request that is due, a running worker is never stuck in a wait. */
  lemma DueRequestUnblocks(s: Traced, target: real, now: real)
    requires Inv(s) && Running(s.loop) && target in s.pending && target <= now
    ensures WorkerMayStep(s.loop, now)
  {}

  /** The events after a request: nobody shuts the loop down, no drain ends the thread, and the
      worker's clock has passed the target. */
  ghost predicate UndisturbedFrom(events: seq<Event>, target: real) {
    forall i :: 0 <= i < |events| ==>
      && !events[i].Shutdown? && !events[i].DrainDies?
      && (events[i].Turn? || events[i].WakeWaitEnds? || events[i].WatchdogWaitEnds? ==> events[i].now >= target)
  }

  /** How many worker steps at most precede the start of a drain. */
  function StepsLeft(loop: Loop): nat {
    if loop.phase.AtTop? then 1 else 2
  }

  lemma StepsShrink(s: Traced, e: Event, watchdog: real, target: real)
    requires Inv(s) && Running(s.loop) && target in s.pending && Enabled(s.loop, e)
    requires !e.Shutdown? && !e.DrainDies?
    requires e.Turn? ==> e.now >= target
    ensures !StartsDrain(s.loop, e, watchdog) ==>
              var s' := Apply(s, e, watchdog);
              && Running(s'.loop) && target in s'.pending
              && StepsLeft(s'.loop) + (if IsWorkerStep(e) then 1 else 0) <= StepsLeft(s.loop)
    ensures StepsLeft(s.loop) == 1 && IsWorkerStep(e) ==> StartsDrain(s.loop, e, watchdog)
  {}

  /** Once its target has passed, every request is answered by a drain that starts after it was
      made and within two steps of the worker, whatever else is requested meanwhile. */
  lemma {:induction false} EveryWakeIsServed(s: Traced, events: seq<Event>, watchdog: real, target: real)
    requires Inv(s) && Running(s.loop) && target in s.pending
    requires Behavior(s, events, watchdog) && UndisturbedFrom(events, target)
    requires WorkerSteps(events) >= StepsLeft(s.loop)
    ensures After(s, events, watchdog).starts > s.starts
    decreases |events|
  {
    assert events != [];
    var s' := Apply(s, events[0], watchdog);
    StepKeepsInv(s, events[0], watchdog);
    StepsShrink(s, events[0], watchdog, target);
    if StartsDrain(s.loop, events[0], watchdog) {
      StartsGrow(s', events[1..], watchdog);
    } else {
      EveryWakeIsServed(s', events[1..], watchdog, target);
    }
  }

  // ---------------------------------------------------------------------------
  // Without any request the watchdog goes on
  // ---------------------------------------------------------------------------

  /** Nobody shuts the loop down, no drain ends the thread, no request asks for later than
      `deadline`, and the worker's clock has passed it. */
  ghost predicate PromptFrom(events: seq<Event>, deadline: real) {
    forall i :: 0 <= i < |events| ==>
      && !events[i].Shutdown? && !events[i].DrainDies?
      && (events[i].Wake? ==> events[i].target <= deadline)
      && (events[i].Turn? ==> events[i].now >= deadline)
  }

  ghost predicate AllBy(pending: multiset<real>, deadline: real) {
    forall t :: t in pending ==> t <= deadline
  }

  /** How many worker steps at most precede the start of a drain, requested or not. */
  function StepsToGo(s: Traced): nat {
    match s.loop.phase
    case AtTop => if s.loop.nextWake.Some? then 1 else 3
    case WaitingForWatchdog(_, _) => 2
    case WaitingForWake(_, _) => if s.loop.nextWake.Some? then 2 else 4
    case _ => 4
  }

  lemma GoingOnStep(s: Traced, e: Event, watchdog: real, deadline: real)
    requires Inv(s) && Running(s.loop) && Enabled(s.loop, e) && AllBy(s.pending, deadline)
    requires PromptFrom([e], deadline)
    ensures !StartsDrain(s.loop, e, watchdog) ==>
              var s' := Apply(s, e, watchdog);
              && Running(s'.loop) && AllBy(s'.pending, deadline)
              && StepsToGo(s') + (if IsWorkerStep(e) then 1 else 0) <= StepsToGo(s)
    ensures StepsToGo(s) == 1 && IsWorkerStep(e) ==> StartsDrain(s.loop, e, watchdog)
  {
    assert [e][0] == e;
  }

  /** A running loop keeps draining even if nobody ever asks: within four steps of the worker, one of
      them the watchdog's wait, another drain starts.  Only a request for later can postpone it. */
  lemma {:induction false} DrainsKeepComing(s: Traced, events: seq<Event>, watchdog: real, deadline: real)
    requires Inv(s) && Running(s.loop) && AllBy(s.pending, deadline)
    requires Behavior(s, events, watchdog) && PromptFrom(events, deadline)
    requires WorkerSteps(events) >= StepsToGo(s)
    ensures After(s, events, watchdog).starts > s.starts
    decreases |events|
  {
    assert events != [];
    var s' := Apply(s, events[0], watchdog);
    StepKeepsInv(s, events[0], watchdog);
    GoingOnStep(s, events[0], watchdog, deadline);
    if StartsDrain(s.loop, events[0], watchdog) {
      StartsGrow(s', events[1..], watchdog);
    } else {
      DrainsKeepComing(s', events[1..], watchdog, deadline);
    }
  }

  /** A turn with nothing requested starts the watchdog's wait, which without a request or a shutdown
      ends exactly one interval later. */
  lemma WatchdogWaitsExactly(s: Traced, now: real, later: real, watchdog: real)
    requires s.loop.phase.AtTop? && !s.loop.shutdown && s.loop.nextWake.None?
    ensures var waiting := Apply(s, Turn(now), watchdog);
            && waiting.loop.phase.WaitingForWatchdog?
            && (Enabled(waiting.loop, WatchdogWaitEnds(later)) <==> later >= now + watchdog)
  {}

  /** When the thread last was at the top of its loop. */
  function TurnOf(last: real, e: Event): real {
    if e.Turn? then e.now else last
  }

  ghost predicate WaitsSince(loop: Loop, last: real, watchdog: real) {
    loop.phase.WaitingForWatchdog? ==> loop.phase.until == last + watchdog
  }

  /** A drain that starts with nothing pending and no shutdown starts at least the watchdog's interval
      after the last turn. */
  ghost predicate IdleStartsLate(s: Traced, events: seq<Event>, last: real, watchdog: real)
    requires Behavior(s, events, watchdog)
    decreases |events|
  {
    events != [] ==>
      && (StartsDrain(s.loop, events[0], watchdog) && s.pending == multiset{} && !s.loop.shutdown ==>
            events[0].WatchdogWaitEnds? && events[0].now >= last + watchdog)
      && IdleStartsLate(Apply(s, events[0], watchdog), events[1..], TurnOf(last, events[0]), watchdog)
  }

  lemma {:induction false} IdleLoopWaits(s: Traced, events: seq<Event>, last: real, watchdog: real)
    requires Inv(s) && NotifiedBy(s) && WaitsSince(s.loop, last, watchdog) && Behavior(s, events, watchdog)
    ensures IdleStartsLate(s, events, last, watchdog)
    decreases |events|
  {
    if events != [] {
      StepKeepsInv(s, events[0], watchdog);
      NotifiedByStep(s, events[0], watchdog);
      IdleLoopWaits(Apply(s, events[0], watchdog), events[1..], TurnOf(last, events[0]), watchdog);
    }
  }

  /** With a request that is not due, the wait ends exactly when it is. */
  lemma WakeWaitsExactly(s: Traced, now: real, later: real, watchdog: real)
    requires s.loop.phase.AtTop? && !s.loop.shutdown && s.loop.nextWake.Some? && s.loop.nextWake.value > now
    ensures var waiting := Apply(s, Turn(now), watchdog);
            && waiting.loop.phase.WaitingForWake?
            && (Enabled(waiting.loop, WakeWaitEnds(later)) <==> later >= s.loop.nextWake.value)
  {}

  /** The watchdog's wait is never longer than its interval, and ends in a drain if nothing was
      requested meanwhile. */
  lemma WatchdogCovers(s: Traced, now: real, later: real, watchdog: real)
    requires Inv(s) && Running(s.loop) && s.loop.phase.AtTop? && s.pending == multiset{}
    requires later >= now + watchdog
    ensures var waiting := Apply(s, Turn(now), watchdog);
            Enabled(waiting.loop, WatchdogWaitEnds(later))
            && StartsDrain(waiting.loop, WatchdogWaitEnds(later), watchdog)
  {}

  /** A drain that ends the thread leaves the loop dead, and the next request starts a new thread that
      finds it. */
  lemma DeadThreadIsReplaced(s: Traced, target: real, watchdog: real)
    requires Inv(s) && s.loop.phase.Draining?
    ensures var died := Apply(s, DrainDies, watchdog);
            && Enabled(died.loop, ThreadEnds) && died.pending == s.pending && !WorkerMayStep(died.loop, target)
            && (var gone := Apply(died, ThreadEnds, watchdog);
                && gone.loop.phase.NotAlive?
                && (var woken := Apply(gone, Wake(target), watchdog);
                    woken.loop.phase.AtTop? && woken.pending == s.pending + multiset{target}))
  {}

  // ---------------------------------------------------------------------------
  // Shutdown
  // ---------------------------------------------------------------------------

  /** After shutdown is signalled at most one more drain starts: the one of a thread that was
      waiting for the watchdog with nothing requested. */
  lemma {:induction false} AtMostOneDrainAfterShutdown(s: Traced, events: seq<Event>, watchdog: real)
    requires s.loop.shutdown && Behavior(s, events, watchdog)
    ensures After(s, events, watchdog).starts
         <= s.starts + if s.loop.phase.WaitingForWatchdog? && s.loop.nextWake.None? then 1 else 0
    decreases |events|
  {
    if events != [] {
      AtMostOneDrainAfterShutdown(Apply(s, events[0], watchdog), events[1..], watchdog);
    }
  }

  // ---------------------------------------------------------------------------
  // The loop object
  // ---------------------------------------------------------------------------

  class DrainLoop {
    const watchdogInterval: real
    var nextWake: Option<real>
    var shutdown: bool
    var phase: Phase
    ghost var pending: multiset<real>
    ghost var starts: nat

    ghost function State(): Traced reads this {
      Traced(Loop(nextWake, shutdown, phase), pending, starts)
    }

    ghost predicate Valid() reads this {
      Inv(State()) && NotifiedBy(State())
    }

    constructor (watchdogInterval: real)
      ensures Valid() && State() == INITIAL && this.watchdogInterval == watchdogInterval
    {
      this.watchdogInterval := watchdogInterval;
      nextWake, shutdown, phase := None, false, NotAlive;
      pending, starts := multiset{}, 0;
    }

    /** Start a thread unless one is alive; called with the lock held. */
    method EnsureStarted()
      modifies this`phase
      ensures phase == if old(phase).NotAlive? then AtTop else old(phase)
    {
      if phase.NotAlive? { phase := AtTop; }
    }

    /** The target is computed from the clock reading `now` before the lock is taken. */
    method Wake(now: real, delay: real)
      requires Valid()
      modifies this
      ensures Valid() && State() == Apply(old(State()), Event.Wake(now + delay), watchdogInterval)
      ensures pending == old(pending) + multiset{now + delay} && starts == old(starts)
    {
      ghost var before := State();
      var target := now + delay;
      WakeKeepsInv(before, target, watchdogInterval);
      NotifiedByStep(before, Event.Wake(target), watchdogInterval);
      EnsureStarted();
      if nextWake.None? || target < nextWake.value {
        nextWake := Some(target);
        phase := Notify(phase);
      }
      pending := pending + multiset{target};
      assert State() == Apply(before, Event.Wake(target), watchdogInterval);
    }

    method SignalShutdown()
      requires Valid()
      modifies this
      ensures Valid() && State() == Apply(old(State()), Shutdown, watchdogInterval)
    {
      shutdown := true;
      phase := Notify(phase);
    }

    /** The top of the loop, up to a wait or the release of the lock; true to go on and drain. */
    method Turn(now: real) returns (drain: bool)
      requires Valid() && phase.AtTop?
      modifies this
      ensures Valid() && State() == Apply(old(State()), Event.Turn(now), watchdogInterval)
      ensures drain <==> phase.Draining?
    {
      if shutdown {
        phase := Leaving;
        return false;
      }
      if nextWake.None? {
        phase := WaitingForWatchdog(now + watchdogInterval, false);
        return false;
      }
      var remaining := nextWake.value - now;
      if remaining > 0.0 {
        phase := WaitingForWake(now + remaining, false);
        return false;
      }
      BeginDrain();
      return true;
    }

    method BeginDrain()
      modifies this
      ensures nextWake.None? && shutdown == old(shutdown) && phase.Draining?
      ensures pending == multiset{} && starts == old(starts) + 1
    {
      nextWake := None;
      phase := Draining;
      pending, starts := multiset{}, starts + 1;
    }

    method WakeWaitEnds(now: real)
      requires Valid() && Enabled(State().loop, Event.WakeWaitEnds(now))
      modifies this`phase
      ensures Valid() && State() == Apply(old(State()), Event.WakeWaitEnds(now), watchdogInterval)
    {
      phase := AtTop;
    }

    method WatchdogWaitEnds(now: real) returns (drain: bool)
      requires Valid() && Enabled(State().loop, Event.WatchdogWaitEnds(now))
      modifies this
      ensures Valid() && State() == Apply(old(State()), Event.WatchdogWaitEnds(now), watchdogInterval)
      ensures drain <==> phase.Draining?
    {
      if nextWake.Some? {
        phase := AtTop;
        return false;
      }
      BeginDrain();
      return true;
    }

    method DrainReturns()
      requires Valid() && phase.Draining?
      modifies this`phase
      ensures Valid() && State() == Apply(old(State()), DrainEnds, watchdogInterval)
    {
      phase := AtTop;
    }
  }
}
