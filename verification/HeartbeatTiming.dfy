/** How long a lease goes without renewal.  The heartbeat scheduler runs against a clock that
    respects two latencies: every ticket is popped at most `popLatency` after it falls due, and
    every renewal is finished, and its ticket requeued, at most `callLatency` after the pop.
  */
module HeartbeatTiming {
  import opened HeartbeatSteps
  import opened Options

  datatype Timing = Timing(interval: real, popLatency: real, callLatency: real) {
    ghost predicate Valid() { interval > 0.0 && popLatency >= 0.0 && callLatency >= 0.0 }

    /** The longest time between two extensions of one lease. */
    function LongestGap(): real { interval + popLatency + 2.0 * callLatency }
  }

  /** The scheduler with its clock; `started` is when the renewal under way was popped, `extended`
      whether its script has run, and `freshAt` maps each task to its registration or its latest
      lease extension, whichever is later. */
  datatype Timed = Timed(core: Scheduler, now: real, started: real, extended: bool, freshAt: map<TaskId, real>)

  datatype TimedEvent =
    | Tick(now: real)
      // The renew script runs on the server during the call of the worker.
    | Extend
    | Do(event: Event)

  /** The clock may move on to `now` without breaking either latency. */
  ghost predicate MayTick(t: Timed, timing: Timing, now: real) {
    && t.now <= now
    && (forall ticket :: ticket in t.core.heap ==> now <= ticket.due + timing.popLatency)
    && (Busy(t.core) ==> now <= t.started + timing.callLatency)
  }

  /** Renewals succeed: only after the script has run, and without raising. */
  ghost predicate TimedEnabled(t: Timed, e: TimedEvent, timing: Timing) {
    match e
    case Tick(now) => MayTick(t, timing, now)
    case Extend => t.core.worker.Renewing?
    case Do(event) =>
      && Enabled(t.core, event) && Instant(event, t.now) == t.now
      && !event.RenewFails? && !event.RenewRaises? && !event.Shutdown?
      && (event.RenewSucceeds? ==> t.extended)
  }

  predicate StartsRenewal(core: Scheduler, e: Event) {
    Popped(e).Some? && IsCurrent(core.entries, Popped(e).value)
  }

  function TimedApply(t: Timed, e: TimedEvent, timing: Timing): Timed
    requires e.Do? ==> Enabled(t.core, e.event)
    requires e.Extend? ==> t.core.worker.Renewing?
  {
    match e
    case Tick(now) => t.(now := now)
    case Extend => t.(extended := true, freshAt := t.freshAt[t.core.worker.taskId := t.now])
    case Do(event) =>
      Timed(Apply(t.core, event, timing.interval), t.now,
            if StartsRenewal(t.core, event) then t.now else t.started,
            if StartsRenewal(t.core, event) then false else t.extended,
            if event.Register? then t.freshAt[event.taskId := t.now] else t.freshAt)
  }

  ghost predicate TimedBehavior(t: Timed, events: seq<TimedEvent>, timing: Timing)
    decreases |events|
  {
    events == [] || (TimedEnabled(t, events[0], timing)
                     && TimedBehavior(TimedApply(t, events[0], timing), events[1..], timing))
  }

  ghost function TimedAfter(t: Timed, events: seq<TimedEvent>, timing: Timing): Timed
    requires TimedBehavior(t, events, timing)
    decreases |events|
  {
    if events == [] then t else TimedAfter(TimedApply(t, events[0], timing), events[1..], timing)
  }

  // ---------------------------------------------------------------------------
  // The invariant
  // ---------------------------------------------------------------------------

  /** Some current ticket of the task falls due soon enough. */
  ghost predicate TicketInTime(t: Timed, taskId: TaskId, timing: Timing) {
    exists ticket :: InTime(t, ticket, taskId, timing)
  }

  ghost predicate InTime(t: Timed, ticket: Ticket, taskId: TaskId, timing: Timing) {
    && ticket in t.core.heap && ticket.taskId == taskId && IsCurrent(t.core.entries, ticket)
    && taskId in t.freshAt && ticket.due <= t.freshAt[taskId] + timing.callLatency + timing.interval
  }

  /** The renewal of the task under way started soon enough. */
  ghost predicate RenewalInTime(t: Timed, taskId: TaskId, timing: Timing) {
    && IsHandling(t.core, taskId) && taskId in t.freshAt
    && t.started <= t.freshAt[taskId] + timing.callLatency + timing.interval + timing.popLatency
  }

  ghost predicate InTimeAll(t: Timed, timing: Timing) {
    && (forall ticket :: ticket in t.core.heap ==> t.now <= ticket.due + timing.popLatency)
    && (Busy(t.core) ==> t.started <= t.now <= t.started + timing.callLatency)
    && (t.core.worker.Renewed? ==> t.extended)
    && (Busy(t.core) && t.extended && t.core.worker.taskId in t.core.entries && t.core.worker.taskId != "" ==>
          t.core.worker.taskId in t.freshAt && t.started <= t.freshAt[t.core.worker.taskId])
    && (forall taskId :: taskId in t.core.entries && taskId != "" ==>
          taskId in t.freshAt && t.freshAt[taskId] <= t.now
          && (TicketInTime(t, taskId, timing) || RenewalInTime(t, taskId, timing)))
  }

  lemma TickKeepsTime(t: Timed, now: real, timing: Timing)
    requires InTimeAll(t, timing) && MayTick(t, timing, now)
    ensures InTimeAll(t.(now := now), timing)
  {
    var t' := t.(now := now);
    forall taskId | taskId in t.core.entries && taskId != ""
      ensures TicketInTime(t', taskId, timing) || RenewalInTime(t', taskId, timing)
    {
      if TicketInTime(t, taskId, timing) {
        var ticket :| InTime(t, ticket, taskId, timing);
        assert InTime(t', ticket, taskId, timing);
      }
    }
  }

  lemma ExtendKeepsTime(t: Timed, timing: Timing)
    requires timing.Valid() && InTimeAll(t, timing) && t.core.worker.Renewing?
    ensures InTimeAll(TimedApply(t, Extend, timing), timing)
  {
    var t' := TimedApply(t, Extend, timing);
    forall taskId | taskId in t.core.entries && taskId != ""
      ensures TicketInTime(t', taskId, timing) || RenewalInTime(t', taskId, timing)
    {
      if TicketInTime(t, taskId, timing) {
        var ticket :| InTime(t, ticket, taskId, timing);
        assert InTime(t', ticket, taskId, timing);
      }
    }
  }

  /** A registration, or the requeue after a renewal, leaves a ticket that is due in time. */
  lemma PushedInTime(t: Timed, e: Event, taskId: TaskId, timing: Timing)
    requires timing.Valid() && InTimeAll(t, timing) && TimedEnabled(t, Do(e), timing)
    requires taskId != "" && taskId in Apply(t.core, e, timing.interval).entries
    requires (e.Register? && e.taskId == taskId) || (e.Requeue? && t.core.worker.taskId == taskId)
    ensures TicketInTime(TimedApply(t, Do(e), timing), taskId, timing)
  {
    HeapAfter(t.core, e, timing.interval);
    var t' := TimedApply(t, Do(e), timing);
    var ticket := Pushed(t.core, e, timing.interval).value;
    assert ticket in t'.core.heap && ticket.due == t.now + timing.interval;
    assert IsCurrent(t'.core.entries, ticket);
    assert InTime(t', ticket, taskId, timing);
  }

  /** A current ticket in time stays, or is popped while the renewal can still be in time. */
  lemma TicketStaysInTime(t: Timed, e: Event, ticket: Ticket, taskId: TaskId, timing: Timing)
    requires timing.Valid() && InTimeAll(t, timing) && TimedEnabled(t, Do(e), timing)
    requires taskId in Apply(t.core, e, timing.interval).entries && InTime(t, ticket, taskId, timing)
    requires !(e.Register? && e.taskId == taskId) && !(e.Requeue? && t.core.worker.taskId == taskId)
    ensures var t' := TimedApply(t, Do(e), timing);
            TicketInTime(t', taskId, timing) || RenewalInTime(t', taskId, timing)
  {
    var t' := TimedApply(t, Do(e), timing);
    HeapAfter(t.core, e, timing.interval);
    if ticket !in t'.core.heap {
      PopHandles(t.core, e, ticket, timing.interval);
      assert RenewalInTime(t', taskId, timing);
    } else {
      if !IsCurrent(t'.core.entries, ticket) { CurrencyLost(t.core, e, ticket, timing.interval); }
      assert InTime(t', ticket, taskId, timing);
    }
  }

  /** A renewal in time stays under way until its requeue. */
  lemma RenewalStaysInTime(t: Timed, e: Event, taskId: TaskId, timing: Timing)
    requires timing.Valid() && InTimeAll(t, timing) && TimedEnabled(t, Do(e), timing)
    requires RenewalInTime(t, taskId, timing)
    requires !(e.Register? && e.taskId == taskId) && !(e.Requeue? && t.core.worker.taskId == taskId)
    ensures RenewalInTime(TimedApply(t, Do(e), timing), taskId, timing)
  {
    var t' := TimedApply(t, Do(e), timing);
    if !IsHandling(t'.core, taskId) { HandlingLost(t.core, e, taskId, timing.interval); }
  }

  /** What keeps a task in time across any event of the scheduler. */
  lemma TaskStaysInTime(t: Timed, e: Event, taskId: TaskId, timing: Timing)
    requires timing.Valid() && InTimeAll(t, timing) && TimedEnabled(t, Do(e), timing)
    requires taskId != "" && taskId in Apply(t.core, e, timing.interval).entries
    ensures var t' := TimedApply(t, Do(e), timing);
            TicketInTime(t', taskId, timing) || RenewalInTime(t', taskId, timing)
  {
    if (e.Register? && e.taskId == taskId) || (e.Requeue? && t.core.worker.taskId == taskId) {
      PushedInTime(t, e, taskId, timing);
    } else {
      KeysAfter(t.core, e, taskId, timing.interval);
      if TicketInTime(t, taskId, timing) {
        var ticket :| InTime(t, ticket, taskId, timing);
        TicketStaysInTime(t, e, ticket, taskId, timing);
      } else {
        RenewalStaysInTime(t, e, taskId, timing);
      }
    }
  }

  lemma KeysAfter(s: Scheduler, e: Event, taskId: TaskId, interval: real)
    requires Enabled(s, e) && taskId in Apply(s, e, interval).entries && (e.Register? ==> e.taskId != taskId)
    ensures taskId in s.entries
  {}

  lemma EventKeepsTime(t: Timed, e: Event, timing: Timing)
    requires timing.Valid() && InTimeAll(t, timing) && TimedEnabled(t, Do(e), timing)
    ensures InTimeAll(TimedApply(t, Do(e), timing), timing)
  {
    var t' := TimedApply(t, Do(e), timing);
    HeapAfter(t.core, e, timing.interval);
    forall taskId | taskId in t'.core.entries && taskId != ""
      ensures taskId in t'.freshAt && t'.freshAt[taskId] <= t'.now
      ensures TicketInTime(t', taskId, timing) || RenewalInTime(t', taskId, timing)
    {
      TaskStaysInTime(t, e, taskId, timing);
      if !(e.Register? && e.taskId == taskId) { KeysAfter(t.core, e, taskId, timing.interval); }
    }
    BusyAfter(t, e, timing);
  }

  lemma BusyAfter(t: Timed, e: Event, timing: Timing)
    requires timing.Valid() && InTimeAll(t, timing) && TimedEnabled(t, Do(e), timing)
    ensures var t' := TimedApply(t, Do(e), timing);
            && (Busy(t'.core) ==> t'.started <= t'.now <= t'.started + timing.callLatency)
            && (t'.core.worker.Renewed? ==> t'.extended)
            && (Busy(t'.core) && t'.extended && t'.core.worker.taskId in t'.core.entries
                && t'.core.worker.taskId != "" ==>
                  t'.core.worker.taskId in t'.freshAt && t'.started <= t'.freshAt[t'.core.worker.taskId])
  {
    match e
    case Register(id, _, _) =>
    case Turn(_, _) =>
    case _ =>
  }

  // ---------------------------------------------------------------------------
  // The main results
  // ---------------------------------------------------------------------------

  lemma TimedStep(t: Timed, e: TimedEvent, timing: Timing)
    requires timing.Valid() && InTimeAll(t, timing) && TimedEnabled(t, e, timing)
    ensures InTimeAll(TimedApply(t, e, timing), timing)
  {
    match e
    case Tick(now) => TickKeepsTime(t, now, timing);
    case Extend => ExtendKeepsTime(t, timing);
    case Do(event) => EventKeepsTime(t, event, timing);
  }

  /** At every moment of every run, each registered task was registered, or had its lease extended,
      at most half a lease plus the pop latency plus twice the call latency ago.  Taken at the
      extensions themselves this bounds the time between successive ones. */
  lemma {:induction false} RenewalGap(t: Timed, events: seq<TimedEvent>, timing: Timing, taskId: TaskId)
    requires timing.Valid() && InTimeAll(t, timing) && TimedBehavior(t, events, timing)
    ensures InTimeAll(TimedAfter(t, events, timing), timing)
    ensures var end := TimedAfter(t, events, timing);
            taskId != "" && taskId in end.core.entries ==>
              taskId in end.freshAt && end.now <= end.freshAt[taskId] + timing.LongestGap()
    decreases |events|
  {
    if events == [] {
      if taskId != "" && taskId in t.core.entries && TicketInTime(t, taskId, timing) {
        var ticket :| InTime(t, ticket, taskId, timing);
      }
    } else {
      TimedStep(t, events[0], timing);
      RenewalGap(TimedApply(t, events[0], timing), events[1..], timing, taskId);
    }
  }

  function Fresh(now: real): Timed {
    Timed(INITIAL, now, now, false, map[])
  }
}
