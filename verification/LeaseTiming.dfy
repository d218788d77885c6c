/** The leases in Redis next to the timed scheduler: admissions write them, renewals extend them,
    exits free them and every call of the consume script reclaims the expired ones.  The Redis clock
    is the scheduler's, truncated to milliseconds.
  */
module LeaseTiming {
  import opened HeartbeatSteps
  import opened HeartbeatTiming
  import opened Options
  import Scripts

  /** The timed scheduler, and the lease set with its scores. */
  datatype Leased = Leased(timed: Timed, leases: map<TaskId, int>)

  /** `dispatch` bounds how long before its registration a task was leased. */
  datatype Terms = Terms(timing: Timing, lease: int, dispatch: real) {
    /** Renewals at half the lease; the latencies and the dispatch stay below the other half. */
    ghost predicate Valid() {
      && timing.Valid() && timing.interval == lease as real / 2.0 && dispatch >= 0.0
      && timing.popLatency + 2.0 * timing.callLatency + dispatch < lease as real / 2.0
    }
  }

  datatype LeasedEvent =
      // A step of the timed scheduler; `Extend` is the renew script.
    | Beat(event: TimedEvent)
      // The consume script admits the task.
    | Admit(taskId: TaskId)
      // The consume script reclaims.
    | Reclaim
      // The release script, after the deregistration.
    | Free(taskId: TaskId)

  function Ms(now: real): int { (1000.0 * now).Floor }

  /** Whole seconds of the truncated clock are those of the clock. */
  lemma WholeSeconds(now: real)
    requires now >= 0.0
    ensures Ms(now) >= 0 && Scripts.Seconds(Ms(now)) == now.Floor
  {
    var ms := Ms(now);
    assert 1000.0 * now.Floor as real <= 1000.0 * now < 1000.0 * now.Floor as real + 1000.0;
    assert 1000 * now.Floor <= ms < 1000 * now.Floor + 1000;
  }

  /** The score of a lease written at `at`. */
  function Score(at: real, lease: int): int { at.Floor + lease }

  /** It is what the renew script and the consume script write at that instant. */
  lemma ScoreIsWritten(store: Scripts.Store, s: Scripts.Settings, id: TaskId, at: real, head: Option<Scripts.Task>)
    requires at >= 0.0 && s.Valid() && Scripts.IsHead(store.buffer, head)
    ensures Ms(at) >= 0
    ensures id in store.leases ==> Scripts.Renew(store, id, s.lease, Ms(at)).0.leases[id] == Score(at, s.lease)
    ensures var (after, r) := Scripts.Consume(store, s, Ms(at), head);
            r.status == Scripts.Admitted ==> head.Some? && head.value.id in after.leases
                                             && after.leases[head.value.id] == Score(at, s.lease)
  {
    WholeSeconds(at);
    Scripts.LeasesLeft(store, s, Ms(at), head, Ms(at));
    Scripts.ResultNamesHead(store, s, Ms(at), head);
  }

  /** A task registers soon after its admission, and a renewal finds the lease of a task that has
      left: the timed scheduler takes renewals to succeed. */
  ghost predicate LeasedEnabled(l: Leased, e: LeasedEvent, terms: Terms) {
    match e
    case Beat(event) =>
      && TimedEnabled(l.timed, event, terms.timing)
      && (event.Do? && event.event.Register? ==>
            LeasedSince(l.leases, event.event.taskId, l.timed.now - terms.dispatch, terms.lease))
      && (event.Extend? ==>
            l.timed.core.worker.taskId in l.timed.core.entries || l.timed.core.worker.taskId in l.leases)
    case Admit(_) => true
    case Reclaim => true
    case Free(taskId) => taskId !in l.timed.core.entries
  }

  /** The task holds a lease written at `since` or later; an empty id needs none. */
  predicate LeasedSince(leases: map<TaskId, int>, taskId: TaskId, since: real, lease: int) {
    taskId == "" || (taskId in leases && leases[taskId] >= Score(since, lease))
  }

  function LeasedApply(l: Leased, e: LeasedEvent, terms: Terms): Leased
    requires e.Beat? && e.event.Do? ==> Enabled(l.timed.core, e.event.event)
    requires e.Beat? && e.event.Extend? ==> l.timed.core.worker.Renewing?
    requires l.timed.now >= 0.0
  {
    match e
    case Beat(event) =>
      var id := if event.Extend? then l.timed.core.worker.taskId else "";
      Leased(TimedApply(l.timed, event, terms.timing),
             if event.Extend? && id in l.leases then l.leases[id := Score(l.timed.now, terms.lease)] else l.leases)
    case Admit(taskId) => l.(leases := l.leases[taskId := Score(l.timed.now, terms.lease)])
    case Reclaim =>
      WholeSeconds(l.timed.now);
      l.(leases := Scripts.Reap(l.leases, Ms(l.timed.now)))
    case Free(taskId) => l.(leases := l.leases - {taskId})
  }

  ghost predicate LeasedBehavior(l: Leased, events: seq<LeasedEvent>, terms: Terms)
    requires l.timed.now >= 0.0
    decreases |events|
  {
    events == []
    || (LeasedEnabled(l, events[0], terms)
        && (ClockNeverBack(l, events[0], terms); LeasedBehavior(LeasedApply(l, events[0], terms), events[1..], terms)))
  }

  lemma ClockNeverBack(l: Leased, e: LeasedEvent, terms: Terms)
    requires LeasedEnabled(l, e, terms) && l.timed.now >= 0.0
    ensures LeasedApply(l, e, terms).timed.now >= l.timed.now
  {}

  ghost function LeasedAfter(l: Leased, events: seq<LeasedEvent>, terms: Terms): Leased
    requires l.timed.now >= 0.0 && LeasedBehavior(l, events, terms)
    decreases |events|
  {
    if events == [] then l
    else
      ClockNeverBack(l, events[0], terms);
      LeasedAfter(LeasedApply(l, events[0], terms), events[1..], terms)
  }

  /** The leases follow the scripts: whatever else the store holds, a renewal, a release and a reclaim do
      to them what the scripts do, and an admission writes the score of a new lease. */
  lemma LeasesFollowScripts(l: Leased, store: Scripts.Store, taskId: TaskId, terms: Terms)
    requires l.timed.now >= 0.0 && store.leases == l.leases && taskId != ""
    ensures Ms(l.timed.now) >= 0
    ensures l.timed.core.worker.Renewing? && l.timed.core.worker.taskId != "" ==>
              LeasedApply(l, Beat(Extend), terms).leases
              == Scripts.Renew(store, l.timed.core.worker.taskId, terms.lease, Ms(l.timed.now)).0.leases
    ensures LeasedApply(l, Free(taskId), terms).leases == Scripts.Release(store, taskId).leases
    ensures LeasedApply(l, Reclaim, terms).leases == Scripts.Reap(store.leases, Ms(l.timed.now))
    ensures LeasedApply(l, Admit(taskId), terms).leases == l.leases[taskId := Score(l.timed.now, terms.lease)]
    ensures forall now :: LeasedApply(l, Beat(Tick(now)), terms).leases == l.leases
  {
    WholeSeconds(l.timed.now);
  }

  /** Every registered task holds a lease that was written no earlier than the dispatch before its
      registration or latest extension. */
  ghost predicate AllLeased(l: Leased, terms: Terms) {
    forall taskId :: taskId in l.timed.core.entries && taskId != "" ==>
      taskId in l.timed.freshAt && LeasedSince(l.leases, taskId, l.timed.freshAt[taskId] - terms.dispatch, terms.lease)
  }

  lemma ScoreMonotone(early: real, late: real, lease: int)
    requires early <= late
    ensures Score(early, lease) <= Score(late, lease)
  {}

  /** No lease that is young enough is reclaimed. */
  lemma SurvivesReap(leases: map<TaskId, int>, taskId: TaskId, since: real, lease: int, now: real)
    requires now >= 0.0 && taskId != "" && LeasedSince(leases, taskId, since, lease) && now < since + lease as real
    ensures Ms(now) >= 0 && taskId in Scripts.Reap(leases, Ms(now))
    ensures Scripts.Reap(leases, Ms(now))[taskId] == leases[taskId]
  {
    WholeSeconds(now);
    assert (since + lease as real).Floor == since.Floor + lease;
  }

  lemma ReclaimKeepsLeases(l: Leased, terms: Terms)
    requires terms.Valid() && l.timed.now >= 0.0 && InTimeAll(l.timed, terms.timing) && AllLeased(l, terms)
    ensures AllLeased(LeasedApply(l, Reclaim, terms), terms)
  {
    forall taskId | taskId in l.timed.core.entries && taskId != ""
      ensures LeasedSince(LeasedApply(l, Reclaim, terms).leases, taskId,
                          l.timed.freshAt[taskId] - terms.dispatch, terms.lease)
    {
      RenewalGap(l.timed, [], terms.timing, taskId);
      SurvivesReap(l.leases, taskId, l.timed.freshAt[taskId] - terms.dispatch, terms.lease, l.timed.now);
    }
  }

  lemma BeatKeepsLeases(l: Leased, e: TimedEvent, terms: Terms)
    requires terms.Valid() && l.timed.now >= 0.0 && AllLeased(l, terms) && LeasedEnabled(l, Beat(e), terms)
    ensures AllLeased(LeasedApply(l, Beat(e), terms), terms)
  {
    var l' := LeasedApply(l, Beat(e), terms);
    forall taskId | taskId in l'.timed.core.entries && taskId != ""
      ensures taskId in l'.timed.freshAt
           && LeasedSince(l'.leases, taskId, l'.timed.freshAt[taskId] - terms.dispatch, terms.lease)
    {
      if e.Do? && !(e.event.Register? && e.event.taskId == taskId) {
        KeysAfter(l.timed.core, e.event, taskId, terms.timing.interval);
      }
      if e.Extend? { ScoreMonotone(l.timed.now - terms.dispatch, l.timed.now, terms.lease); }
    }
  }

  lemma LeasedStep(l: Leased, e: LeasedEvent, terms: Terms)
    requires terms.Valid() && l.timed.now >= 0.0 && InTimeAll(l.timed, terms.timing) && AllLeased(l, terms)
    requires LeasedEnabled(l, e, terms)
    ensures var l' := LeasedApply(l, e, terms); InTimeAll(l'.timed, terms.timing) && AllLeased(l', terms)
  {
    match e
    case Beat(event) =>
      TimedStep(l.timed, event, terms.timing);
      BeatKeepsLeases(l, event, terms);
    case Admit(taskId) =>
      forall id | id in l.timed.core.entries && id != "" ensures l.timed.freshAt[id] <= l.timed.now {}
      AdmitKeepsLeases(l, taskId, terms);
    case Reclaim => ReclaimKeepsLeases(l, terms);
    case Free(_) =>
  }

  lemma AdmitKeepsLeases(l: Leased, taskId: TaskId, terms: Terms)
    requires terms.Valid() && l.timed.now >= 0.0 && InTimeAll(l.timed, terms.timing) && AllLeased(l, terms)
    ensures AllLeased(LeasedApply(l, Admit(taskId), terms), terms)
  {
    if taskId in l.timed.core.entries && taskId != "" {
      ScoreMonotone(l.timed.freshAt[taskId] - terms.dispatch, l.timed.now, terms.lease);
    }
  }

  /** Through every run, every registered task holds its lease, and holds it still after a call of
      the consume script has reclaimed what has expired. */
  lemma {:induction false} NoLiveLeaseLapses(l: Leased, events: seq<LeasedEvent>, terms: Terms, taskId: TaskId)
    requires terms.Valid() && l.timed.now >= 0.0 && InTimeAll(l.timed, terms.timing) && AllLeased(l, terms)
    requires LeasedBehavior(l, events, terms)
    ensures var end := LeasedAfter(l, events, terms);
            taskId in end.timed.core.entries && taskId != "" ==>
              && taskId in end.leases && Ms(end.timed.now) >= 0
              && taskId in Scripts.Reap(end.leases, Ms(end.timed.now))
    decreases |events|
  {
    if events == [] {
      if taskId in l.timed.core.entries && taskId != "" {
        RenewalGap(l.timed, [], terms.timing, taskId);
        SurvivesReap(l.leases, taskId, l.timed.freshAt[taskId] - terms.dispatch, terms.lease, l.timed.now);
      }
    } else {
      LeasedStep(l, events[0], terms);
      ClockNeverBack(l, events[0], terms);
      NoLiveLeaseLapses(LeasedApply(l, events[0], terms), events[1..], terms, taskId);
    }
  }

  /** So a renewal of a task that has not left finds its lease, and does not end the worker. */
  lemma RenewalFindsLease(l: Leased, events: seq<LeasedEvent>, terms: Terms)
    requires terms.Valid() && l.timed.now >= 0.0 && InTimeAll(l.timed, terms.timing) && AllLeased(l, terms)
    requires LeasedBehavior(l, events, terms)
    ensures var end := LeasedAfter(l, events, terms);
            var worker := end.timed.core.worker;
            worker.Renewing? && worker.taskId in end.timed.core.entries && worker.taskId != "" ==>
              worker.taskId in end.leases
  {
    var end := LeasedAfter(l, events, terms);
    if end.timed.core.worker.Renewing? {
      NoLiveLeaseLapses(l, events, terms, end.timed.core.worker.taskId);
    }
  }

  /** The empty system, at any time, is a start. */
  lemma StartIsLeased(now: real, leases: map<TaskId, int>, terms: Terms)
    requires terms.Valid()
    ensures InTimeAll(Fresh(now), terms.timing) && AllLeased(Leased(Fresh(now), leases), terms)
  {}

  /** So from the start, whatever leases are around, no registered task ever loses its lease. */
  lemma NoLeaseLapsesFromStart(now: real, leases: map<TaskId, int>, events: seq<LeasedEvent>, terms: Terms,
                               taskId: TaskId)
    requires terms.Valid() && now >= 0.0 && LeasedBehavior(Leased(Fresh(now), leases), events, terms)
    ensures var end := LeasedAfter(Leased(Fresh(now), leases), events, terms);
            taskId in end.timed.core.entries && taskId != "" ==>
              Ms(end.timed.now) >= 0 && taskId in Scripts.Reap(end.leases, Ms(end.timed.now))
  {
    StartIsLeased(now, leases, terms);
    NoLiveLeaseLapses(Leased(Fresh(now), leases), events, terms, taskId);
  }
}
