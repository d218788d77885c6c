/** The limiter object: its configuration, which it shares with other instances through the
    registry, and the drain that consumes one task and decides when to come back.
  */
module Limiters {
  import opened Options
  import opened Numbers
  import opened Configuration
  import opened FollowUp
  import opened Scripts
  import opened TokenRecovery
  import opened RedisServer
  import Loop = DrainLoop
  import Protocol = ManagedConfig
  import TaskFlow

  /** The two registry hashes, for one limiter identifier; `writes` is every configuration stored. */
  class Registry {
    var config: Option<Config>
    var version: nat
    ghost var writes: seq<Config>

    ghost predicate Valid() reads this {
      config == if writes == [] then None else Some(writes[|writes| - 1])
    }

    constructor ()
      ensures Valid() && writes == [] && version == 0
    {
      config, version, writes := None, 0, [];
    }

    method WriteConfig(c: Config)
      requires Valid()
      modifies this`config, this`writes
      ensures Valid() && writes == old(writes) + [c]
    {
      config, writes := Some(c), writes + [c];
    }

    method IncrementVersion() returns (next: nat)
      modifies this`version
      ensures next == version == old(version) + 1
    {
      version := version + 1;
      next := version;
    }
  }

  /** How the refresh at the start of a drain turns out. */
  datatype Refresh =
    | Unchanged
    | Applied(overrides: Overrides, version: nat)
    | RefreshFails

  /** Whether a script call runs and its reply arrives. */
  datatype Reply = Arrives | ReplyLost | CallLost

  /** What `schedule_task` comes to: True, False, or an exception. */
  datatype Scheduling = Scheduled | Rejected | Raised

  /** The buffered form of a task: the script stamps its arrival. */
  function Stamped(id: TaskId, isMarker: bool, timeoutMs: Option<int>, maxAge: Option<int>, nowMs: nat): Task {
    Task(id, isMarker, nowMs, TaskFlow.ScriptMaxAge(maxAge), timeoutMs)
  }

  /** What a drain finds around it: clock readings, and the outcomes of what it calls. */
  datatype Surroundings = Surroundings(
    monotonic: real,
    refresh: Refresh,
    refreshedAt: real,
    wall: real,
    wallAgain: real,
    hasLocalCapacity: bool,
    redisMs: nat,
    reply: Reply,
    dispatchFails: bool,
    draw: real,
    wakeAt: real)

  datatype Ending = Failed | Paused | NoCapacity | Finished

  /** What a drain has done: the consumption it made, the task it dispatched, the target of the
      follow-up drain it requested. */
  datatype Report = Report(
    ending: Ending,
    consumed: Option<(Option<Task>, ConsumeResult)>,
    dispatched: Option<Task>,
    requested: Option<real>)

  /** The drain loop after at most one request. */
  function Woken(s: Loop.Traced, requested: Option<real>, watchdog: real): Loop.Traced {
    match requested
    case None => s
    case Some(target) => Loop.Apply(s, Loop.Event.Wake(target), watchdog)
  }

  function Targets(requested: Option<real>): multiset<real> {
    match requested
    case None => multiset{}
    case Some(target) => multiset{target}
  }

  lemma WokenKeepsRequests(s: Loop.Traced, requested: Option<real>, watchdog: real)
    requires Loop.Inv(s)
    ensures var after := Woken(s, requested, watchdog);
            Loop.Inv(after) && after.pending == s.pending + Targets(requested) && after.starts == s.starts
  {
    if requested.Some? { Loop.StepKeepsInv(s, Loop.Event.Wake(requested.value), watchdog); }
  }

  function Delayed(clock: real, delay: Option<real>): Option<real> {
    match delay
    case None => None
    case Some(d) => Some(clock + d)
  }

  /** The instance after the refresh at the start of a drain. */
  function Refreshed(i: Instance, due: bool, around: Surroundings): Instance {
    if due && around.refresh.Applied? then ApplyOverrides(i, around.refresh.overrides, around.refreshedAt) else i
  }

  /** The inner drain of a limiter with configuration `c` raises. */
  predicate InnerFails(around: Surroundings, result: Option<(Option<Task>, ConsumeResult)>) {
    around.hasLocalCapacity
    && (!around.reply.Arrives?
        || (result.Some? && result.value.1.status.Admitted? && Dispatchable(result.value.1) && around.dispatchFails))
  }

  /** An acquire marker has no body to dispatch: its caller runs inline. */
  predicate Dispatchable(r: ConsumeResult) {
    r.task.Some? && !r.task.value.isMarker
  }

  /** A drain gets as far as calling the script: its refresh did not raise, no pause lasts, and there
      is local capacity. */
  predicate CallsScript(refreshDue: bool, pausedUntil: real, around: Surroundings) {
    !(refreshDue && around.refresh.RefreshFails?) && around.wall >= pausedUntil && around.hasLocalCapacity
  }

  /** The store has taken exactly one step of the consume script, with some head. */
  ghost predicate ConsumedOnce(before: Store, after: Store, c: Config, worker: WorkerId, redisMs: nat)
    requires Proper(c)
  {
    exists head :: IsHead(before.buffer, head)
                   && after == Scripts.Consume(before, SettingsOf(c, worker), redisMs, head).0
  }

  /** The script ran on the store with this outcome; or it was called, ran, and its reply was lost; or
      it did not run and the store is as before. */
  ghost predicate Consumption(before: Store, after: Store, c: Config, worker: WorkerId, around: Surroundings,
                              called: bool, consumed: Option<(Option<Task>, ConsumeResult)>)
    requires Proper(c)
  {
    match consumed
    case None =>
      if called && around.reply.ReplyLost? then ConsumedOnce(before, after, c, worker, around.redisMs)
      else after == before
    case Some((head, result)) =>
      && called && around.reply.Arrives? && IsHead(before.buffer, head)
      && (after, result) == Scripts.Consume(before, SettingsOf(c, worker), around.redisMs, head)
  }

  /** A task is dispatched iff it was admitted, is no marker, and the dispatch does not raise. */
  function Dispatched(consumed: Option<(Option<Task>, ConsumeResult)>, around: Surroundings): Option<Task> {
    if consumed.Some? && consumed.value.1.status.Admitted? && Dispatchable(consumed.value.1) && !around.dispatchFails
    then consumed.value.1.task else None
  }

  /** A drain that was neither paused nor failed asked for the follow-up its result calls for. */
  ghost predicate Continued(report: Report, c: Config, j: JitterSettings, around: Surroundings) {
    match report.consumed
    case None =>
      report.ending.NoCapacity? && !around.hasLocalCapacity
      && report.requested == Some(around.wakeAt + TokenInterval(c))
    case Some((_, result)) =>
      && report.ending.Finished?
      && report.requested == Delayed(around.wakeAt,
                                     FollowUpDelay(result, c, SmartJitterMs(j, result.remainingTasks, result.active,
                                                                            around.draw)))
  }

  /** Why a drain may leave tasks in the buffer without asking for a follow-up: every slot is leased,
      or it has just buried an expired task and a token is left. */
  ghost predicate LeftToOthers(after: Store, c: Config, consumed: Option<(Option<Task>, ConsumeResult)>) {
    && consumed.Some?
    && (var result := consumed.value.1;
        || (result.status.Denied? && |after.leases| >= c.maxConcurrency)
        || (result.status.Expired? && result.remainingTokens >= 1))
  }

  /** The task that the drain took off the buffer to run: a member of least score, which is no longer
      there.  It is dispatched unless it is a marker or its dispatch raises; nothing else is. */
  ghost predicate DispatchesHead(before: Store, after: Store, around: Surroundings, report: Report) {
    match report.consumed
    case None => report.dispatched.None?
    case Some((head, result)) =>
      if result.status.Admitted? then
        && head.Some? && head.value in before.buffer && head.value !in after.buffer
        && (forall u :: u in before.buffer ==> before.buffer[head.value] <= before.buffer[u])
        && report.dispatched == (if head.value.isMarker || around.dispatchFails then None else head)
      else report.dispatched.None?
  }

  /** The call or the dispatch of what it admitted raises. */
  ghost predicate Raises(around: Surroundings, consumed: Option<(Option<Task>, ConsumeResult)>) {
    && around.hasLocalCapacity
    && (around.reply.CallLost? || around.reply.ReplyLost?
        || (consumed.Some? && consumed.value.1.status.Admitted? && consumed.value.0.Some?
            && !consumed.value.0.value.isMarker && around.dispatchFails))
  }

  lemma AdmittedIsDispatched(before: Store, after: Store, c: Config, worker: WorkerId, around: Surroundings,
                             called: bool, report: Report)
    requires Proper(c) && Consumption(before, after, c, worker, around, called, report.consumed)
    requires report.dispatched == Dispatched(report.consumed, around)
    ensures DispatchesHead(before, after, around, report)
    ensures InnerFails(around, report.consumed) <==> Raises(around, report.consumed)
  {
    if report.consumed.Some? {
      ResultNamesHead(before, SettingsOf(c, worker), around.redisMs, report.consumed.value.0);
    }
  }

  /** One token's worth of time: `d` times the limit is the window; without a limit it is the window. */
  ghost predicate IsTokenTime(d: real, c: Config) {
    if c.limit > 0 then d * c.limit as real == c.window else d == c.window
  }

  lemma TokenTime(c: Config)
    ensures IsTokenTime(TokenInterval(c), c)
  {
    if c.limit > 0 { assert c.window / c.limit as real * c.limit as real == c.window; }
  }

  /** When a drain that ran to its end is followed by the next: at once after an admission or a dropped
      marker, if tasks are left; after one token's time without local capacity or a turn; not at
      all with an empty buffer. */
  ghost predicate ComesBackInTime(after: Store, c: Config, around: Surroundings, report: Report) {
    match report.consumed
    case None =>
      exists d :: IsTokenTime(d, c) && report.requested == Some(around.wakeAt + d)
    case Some((head, result)) =>
      && (result.status.Yielded? ==> exists d :: IsTokenTime(d, c) && report.requested == Some(around.wakeAt + d))
      && (result.status.Admitted? || result.status.MarkerSkipped? ==>
            report.requested == if after.buffer == map[] then None else Some(around.wakeAt))
      && (!result.status.Yielded? && after.buffer == map[] ==> report.requested.None?)
  }

  /** What a result asks for, task count and slots given. */
  lemma DelayIsPrompt(r: ConsumeResult, c: Config, jitterMs: int)
    requires r.remainingTasks >= 0 && (r.status.MarkerSkipped? ==> r.active < c.maxConcurrency)
    ensures r.status.Yielded? ==> FollowUpDelay(r, c, jitterMs) == Some(TokenInterval(c))
    ensures r.status.Admitted? || r.status.MarkerSkipped? ==>
              FollowUpDelay(r, c, jitterMs) == if r.remainingTasks == 0 then None else Some(0.0)
    ensures !r.status.Yielded? && r.remainingTasks == 0 ==> FollowUpDelay(r, c, jitterMs).None?
  {}

  lemma FollowUpIsPrompt(before: Store, after: Store, c: Config, worker: WorkerId, j: JitterSettings,
                         around: Surroundings, called: bool, report: Report)
    requires Proper(c) && Consumption(before, after, c, worker, around, called, report.consumed)
    requires Continued(report, c, j, around)
    ensures ComesBackInTime(after, c, around, report)
  {
    TokenTime(c);
    if report.consumed.Some? {
      var (head, result) := report.consumed.value;
      SlotsAndTasks(before, after, SettingsOf(c, worker), around.redisMs, head, result);
      DelayIsPrompt(result, c, SmartJitterMs(j, result.remainingTasks, result.active, around.draw));
    }
  }

  lemma SlotsAndTasks(before: Store, after: Store, s: Settings, nowMs: nat, head: Option<Task>, r: ConsumeResult)
    requires s.Valid() && IsHead(before.buffer, head) && (after, r) == Scripts.Consume(before, s, nowMs, head)
    ensures r.remainingTasks >= 0 && (r.status.MarkerSkipped? ==> r.active < s.maxConcurrency)
    ensures !r.status.Yielded? ==> (r.remainingTasks == 0 <==> after.buffer == map[])
  {
    TasksReported(before, s, nowMs, head);
    if r.status.MarkerSkipped? { PopHadRoom(before, s, nowMs, head); }
  }

  lemma NoStrandedWork(before: Store, after: Store, c: Config, worker: WorkerId, j: JitterSettings,
                       around: Surroundings, called: bool, report: Report)
    requires Proper(c) && Consumption(before, after, c, worker, around, called, report.consumed)
    requires Continued(report, c, j, around)
    requires after.buffer != map[] && report.requested.None?
    ensures LeftToOthers(after, c, report.consumed)
  {
    var (head, result) := report.consumed.value;
    var jitterMs := SmartJitterMs(j, result.remainingTasks, result.active, around.draw);
    StrandedIff(before, c, worker, around.redisMs, head, jitterMs);
    if result.status.Expired? {
      ExpiredTokens(before, SettingsOf(c, worker), around.redisMs, head);
    }
  }

  /** The chain of drains does not break: after a drain that requested a follow-up, or nothing at
      all, the worker starts another within four of its steps, at the latest after the watchdog's
      wait, as long as nobody asks for later than `deadline`. */
  lemma AnotherDrainFollows(s: Loop.Traced, requested: Option<real>, events: seq<Loop.Event>, watchdog: real,
                            deadline: real)
    requires Loop.Inv(s) && Loop.Running(s.loop) && s.loop.phase.Draining?
    requires Loop.AllBy(s.pending + Targets(requested), deadline)
    requires var woken := Woken(s, requested, watchdog);
             Loop.Behavior(woken, events, watchdog) && Loop.PromptFrom(events, deadline)
             && Loop.WorkerSteps(events) >= 4
    ensures Loop.After(Woken(s, requested, watchdog), events, watchdog).starts > s.starts
  {
    WokenKeepsRequests(s, requested, watchdog);
    Loop.DrainsKeepComing(Woken(s, requested, watchdog), events, watchdog, deadline);
  }

  class Limiter {
    const id: string
    const workerId: WorkerId
    const managed: bool
    const jitterEnabled: bool
    const jitterMinPct: real
    const jitterMaxPct: real
    const drainLoop: Loop.DrainLoop
    var limit: int
    var window: real
    var maxConcurrency: int
    var maxAge: int
    var leaseDuration: int
    var drainPausedUntil: real
    var configVersion: nat
    var lastRefreshAt: real
    var consecutiveDrainFailures: nat
    ghost var source: nat
    ghost var activity: Protocol.Activity

    function Current(): Config reads this {
      Config(limit, window, maxConcurrency, maxAge, leaseDuration)
    }

    function View(): Instance reads this {
      Instance(Current(), drainPausedUntil)
    }

    function Jitter(): JitterSettings reads this {
      JitterSettings(jitterEnabled, window, jitterMinPct, jitterMaxPct, maxConcurrency)
    }

    // -------------------------------------------------------------------------
    // Shared configuration
    // -------------------------------------------------------------------------

    /** The registry and this instance as one system of the protocol. */
    ghost function Seen(registry: Registry): Protocol.System reads this, registry {
      Protocol.System(registry.writes, registry.version,
                      map[id := Protocol.Limiter(Current(), configVersion, source, activity)])
    }

    constructor (id: string, workerId: WorkerId, managed: bool, c: Config, jitter: (bool, real, real))
      ensures View() == Instance(c, 0.0) && configVersion == 0 && consecutiveDrainFailures == 0 && lastRefreshAt == 0.0
      ensures this.id == id && this.workerId == workerId && this.managed == managed
      ensures fresh(drainLoop) && drainLoop.Valid() && drainLoop.State() == Loop.INITIAL
      ensures drainLoop.watchdogInterval == Max(5.0, c.window * 2.0)
      ensures source == 0 && activity.Idle?
    {
      this.id, this.workerId, this.managed := id, workerId, managed;
      jitterEnabled, jitterMinPct, jitterMaxPct := jitter.0, jitter.1, jitter.2;
      limit, window, maxConcurrency, maxAge, leaseDuration :=
        c.limit, c.window, c.maxConcurrency, c.maxAge, c.leaseDuration;
      drainPausedUntil, configVersion, lastRefreshAt, consecutiveDrainFailures := 0.0, 0, 0.0, 0;
      drainLoop := new Loop.DrainLoop(Max(5.0, c.window * 2.0));
      source, activity := 0, Protocol.Idle;
    }

    method ApplyConfigOverrides(o: Overrides, now: real)
      modifies this`limit, this`window, this`maxConcurrency, this`maxAge, this`leaseDuration, this`drainPausedUntil
      ensures View() == ApplyOverrides(old(View()), o, now)
    {
      if o.window.Some? && o.window.value != window {
        var pauseDuration := if window < o.window.value then o.window.value else window;
        drainPausedUntil := now + pauseDuration;
        window := o.window.value;
      }
      if o.limit.Some? { limit := o.limit.value; }
      if o.maxConcurrency.Some? { maxConcurrency := o.maxConcurrency.value; }
      if o.maxAge.Some? { maxAge := o.maxAge.value; }
      if o.leaseDuration.Some? { leaseDuration := o.leaseDuration.value; }
    }

    /** An update up to HSET: change the fields here, then store all of them. */
    method BeginUpdate(registry: Registry, o: Overrides, now: real)
      requires registry.Valid() && activity.Idle?
      modifies this, registry
      ensures registry.Valid() && View() == ApplyOverrides(old(View()), o, now)
      ensures Seen(registry) == Protocol.Apply(old(Seen(registry)), Protocol.BeginPersist(id, Current()))
    {
      ApplyConfigOverrides(o, now);
      registry.WriteConfig(Current());
      source := |registry.writes|;
      activity := Protocol.Persisting(source);
    }

    /** The rest of a persist: HINCRBY, and its result becomes the version held. */
    method EndPersist(registry: Registry)
      requires registry.Valid() && activity.Persisting?
      modifies this`configVersion, this`activity, registry
      ensures registry.Valid() && View() == old(View())
      ensures Seen(registry) == Protocol.Apply(old(Seen(registry)), Protocol.EndPersist(id))
    {
      configVersion := registry.IncrementVersion();
      activity := Protocol.Idle;
    }

    /** The first read of a refresh: go on only if the registry holds a newer version. */
    method ReadVersion(registry: Registry) returns (remote: Option<nat>)
      requires activity.Idle?
      modifies this`activity
      ensures Seen(registry) == Protocol.Apply(old(Seen(registry)), Protocol.BeginRefresh(id))
      ensures remote == if activity.Refreshing? then Some(activity.remote) else None
    {
      if registry.version <= configVersion { return None; }
      activity := Protocol.Refreshing(registry.version);
      return Some(registry.version);
    }

    /** The second read: apply whatever configuration is stored by now, and hold the version read
        before. */
    method ReadConfig(registry: Registry, remote: nat, now: real) returns (updated: bool)
      requires registry.Valid() && activity == Protocol.Refreshing(remote)
      modifies this
      ensures Seen(registry) == Protocol.Apply(old(Seen(registry)), Protocol.EndRefresh(id))
      ensures updated <==> registry.config.Some?
      ensures View() == if updated then ApplyOverrides(old(View()), Persisted(registry.config.value), now)
          else old(View())
    {
      activity := Protocol.Idle;
      if registry.config.None? { return false; }
      ApplyConfigOverrides(Persisted(registry.config.value), now);
      configVersion, source := remote, |registry.writes|;
      return true;
    }

    /** The first read of `get` for an instance that is not cached, with its construction. */
    constructor Hydrate(registry: Registry, id: string, workerId: WorkerId, jitter: (bool, real, real))
      requires registry.Valid() && registry.config.Some?
      ensures this.id == id && configVersion == 0 && drainPausedUntil == 0.0
      ensures Seen(registry)
          == Protocol.Apply(Protocol.System(registry.writes, registry.version, map[]), Protocol.BeginGet(id))
    {
      var c := registry.config.value;
      this.id, this.workerId, this.managed := id, workerId, true;
      jitterEnabled, jitterMinPct, jitterMaxPct := jitter.0, jitter.1, jitter.2;
      limit, window, maxConcurrency, maxAge, leaseDuration :=
        c.limit, c.window, c.maxConcurrency, c.maxAge, c.leaseDuration;
      drainPausedUntil, configVersion, lastRefreshAt, consecutiveDrainFailures := 0.0, 0, 0.0, 0;
      drainLoop := new Loop.DrainLoop(Max(5.0, c.window * 2.0));
      source, activity := |registry.writes|, Protocol.Getting(|registry.writes|);
    }

    /** The second read of `get`. */
    method AdoptVersion(registry: Registry)
      requires activity.Getting?
      modifies this`configVersion, this`activity
      ensures View() == old(View())
      ensures Seen(registry) == Protocol.Apply(old(Seen(registry)), Protocol.EndGet(id))
    {
      configVersion := registry.version;
      activity := Protocol.Idle;
    }

    // -------------------------------------------------------------------------
    // Scheduling
    // -------------------------------------------------------------------------

    /** Claim the marker, insert the task, and wake the drain loop.  A task whose marker is live is
        rejected and nothing changes; a failed insertion gives the claim back if the clean-up
        succeeds, and does not wake the loop. */
    method ScheduleTask(redis: Redis, id: TaskId, isMarker: bool, timeoutMs: Option<int>, priority: real,
                        maxAge: Option<int>, claimMs: nat, insertMs: nat, reply: Reply, cleanupFails: bool,
                        wakeAt: real)
      returns (outcome: Scheduling)
      requires drainLoop.Valid() && Proper(Current())
      modifies redis, drainLoop
      ensures drainLoop.Valid()
      ensures outcome.Rejected? <==> IsLive(old(redis.store.markers), id, claimMs)
      ensures outcome.Raised? <==> !outcome.Rejected? && !reply.Arrives?
      ensures outcome.Rejected? ==> redis.store == old(redis.store)
      ensures redis.store.buffer == if outcome.Rejected? || reply.CallLost? then old(redis.store.buffer)
                                    else old(redis.store.buffer)
                                           [Task(id, isMarker, insertMs,
                                                 if maxAge == Some(0) then None else maxAge, timeoutMs) := priority]
      ensures !outcome.Rejected? ==>
                redis.store.markers == if outcome.Raised? && !cleanupFails then old(redis.store.markers) - {id}
                                       else old(redis.store.markers)
                                              [id := claimMs as real + 1000.0 * TaskFlow.InflightTtl(maxAge,
                                                   SettingsOf(Current(), workerId)) as real]
      ensures redis.store.leases == old(redis.store.leases) && redis.store.counters == old(redis.store.counters)
      ensures drainLoop.State() == Woken(old(drainLoop.State()), if outcome.Scheduled? then Some(wakeAt) else None,
                                         drainLoop.watchdogInterval)
    {
      var claimed := redis.Claim(id, MarkerTtl(maxAge), claimMs);
      if !claimed { return Rejected; }
      if !reply.CallLost? {
        redis.Schedule(Stamped(id, isMarker, timeoutMs, maxAge, insertMs), priority);
      }
      if !reply.Arrives? {
        if !cleanupFails { redis.Unclaim(id); }
        return Raised;
      }
      var _ := ScheduleDrain(wakeAt, 0.0);
      return Scheduled;
    }

    function MarkerTtl(maxAge: Option<int>): int
      requires Proper(Current())
      reads this
    {
      TaskFlow.InflightTtl(maxAge, SettingsOf(Current(), workerId))
    }

    // -------------------------------------------------------------------------
    // Drain
    // -------------------------------------------------------------------------

    method ScheduleDrain(clock: real, delay: real) returns (requested: Option<real>)
      requires drainLoop.Valid()
      modifies drainLoop
      ensures drainLoop.Valid() && requested == Some(clock + delay)
      ensures drainLoop.State() == Woken(old(drainLoop.State()), requested, drainLoop.watchdogInterval)
    {
      drainLoop.Wake(clock, delay);
      requested := Some(clock + delay);
    }

    predicate RefreshDue(around: Surroundings) reads this {
      managed && around.monotonic - lastRefreshAt >= 1.0
    }

    /** At most once a second; the two reads of the refresh are `ReadVersion` and `ReadConfig`, here
        their outcome is given. */
    method RefreshIfDue(around: Surroundings) returns (failed: bool)
      modifies this
      ensures View() == Refreshed(old(View()), old(RefreshDue(around)), around)
      ensures failed <==> old(RefreshDue(around)) && around.refresh.RefreshFails?
      ensures lastRefreshAt == if old(RefreshDue(around)) then around.monotonic else old(lastRefreshAt)
      ensures configVersion == if old(RefreshDue(around)) && around.refresh.Applied? then around.refresh.version
                               else old(configVersion)
      ensures consecutiveDrainFailures == old(consecutiveDrainFailures)
    {
      if !(managed && around.monotonic - lastRefreshAt >= 1.0) { return false; }
      lastRefreshAt := around.monotonic;
      if around.refresh.RefreshFails? { return true; }
      if around.refresh.Applied? {
        ApplyConfigOverrides(around.refresh.overrides, around.refreshedAt);
        configVersion := around.refresh.version;
      }
      return false;
    }

    /** Attempt to consume one task.  Whatever happens on the way, a drain that leaves tasks in the
        buffer requests a follow-up, except when all slots are leased or when it has just buried
        an expired task with a token to spare; while the pause lasts nothing is consumed; and a
        failure backs off. */
    method Drain(redis: Redis, around: Surroundings) returns (report: Report)
      requires drainLoop.Valid()
      requires Proper(Refreshed(View(), RefreshDue(around), around).config)
      modifies this, redis, drainLoop
      ensures drainLoop.Valid()
      ensures View() == if managed && around.monotonic >= old(lastRefreshAt) + 1.0 && around.refresh.Applied?
                        then ApplyOverrides(old(View()), around.refresh.overrides, around.refreshedAt) else old(View())
      ensures lastRefreshAt == if managed && around.monotonic >= old(lastRefreshAt) + 1.0 then around.monotonic
                               else old(lastRefreshAt)
      ensures configVersion == if managed && around.monotonic >= old(lastRefreshAt) + 1.0 && around.refresh.Applied?
                               then around.refresh.version else old(configVersion)
        // At most one request, and the loop has it.
      ensures drainLoop.State() == Woken(old(drainLoop.State()), report.requested, drainLoop.watchdogInterval)
        // The script runs at most once, and never while the pause lasts.
      ensures Consumption(old(redis.store), redis.store, View().config, workerId, around,
                          CallsScript(old(RefreshDue(around)), View().pausedUntil, around), report.consumed)
      ensures around.wall < View().pausedUntil ==> report.consumed.None? && redis.store == old(redis.store)
        // How it ends, and when the next drain is due.
      ensures report.ending.Failed? <==>
              || (managed && around.monotonic >= old(lastRefreshAt) + 1.0 && around.refresh.RefreshFails?)
              || (around.wall >= View().pausedUntil && Raises(around, report.consumed))
      ensures report.ending.Paused? <==> !report.ending.Failed? && around.wall < View().pausedUntil
      ensures report.ending.NoCapacity? <==>
              !report.ending.Failed? && around.wall >= View().pausedUntil && !around.hasLocalCapacity
      ensures report.ending.Failed? ==>
                && consecutiveDrainFailures == old(consecutiveDrainFailures) + 1
                && report.requested == Some(around.wakeAt + Backoff(consecutiveDrainFailures, window))
      ensures report.ending.Paused? ==>
                && around.wall < View().pausedUntil && consecutiveDrainFailures == old(consecutiveDrainFailures)
                && report.requested == Some(around.wakeAt + (View().pausedUntil - around.wallAgain))
      ensures report.ending.NoCapacity? || report.ending.Finished? ==>
                && consecutiveDrainFailures == 0
                && Continued(report, View().config, JitterSettings(jitterEnabled, window, jitterMinPct, jitterMaxPct,
                                                               maxConcurrency), around)
        // What is admitted is dispatched, and the next drain comes in time.
      ensures DispatchesHead(old(redis.store), redis.store, around, report)
      ensures report.ending.NoCapacity? || report.ending.Finished? ==>
                ComesBackInTime(redis.store, View().config, around, report)
        // Nobody is stranded.
      ensures redis.store.buffer != map[] && report.requested.None? ==>
                LeftToOthers(redis.store, View().config, report.consumed)
    {
      var failed := RefreshIfDue(around);
      if failed {
        report := Recover(around, None);
        return;
      }
      if around.wall < drainPausedUntil {
        var requested := ScheduleDrain(around.wakeAt, drainPausedUntil - around.wallAgain);
        return Report(Paused, None, None, requested);
      }
      report := DrainNow(redis, around);
    }

    /** The drain once no pause holds it back. */
    method DrainNow(redis: Redis, around: Surroundings) returns (report: Report)
      requires drainLoop.Valid() && Proper(Current())
      modifies this`consecutiveDrainFailures, redis, drainLoop
      ensures drainLoop.Valid()
      ensures drainLoop.State() == Woken(old(drainLoop.State()), report.requested, drainLoop.watchdogInterval)
      ensures Consumption(old(redis.store), redis.store, Current(), workerId, around,
                          around.hasLocalCapacity, report.consumed)
      ensures report.ending.Failed? <==> Raises(around, report.consumed)
      ensures !report.ending.Paused?
      ensures report.ending.Failed? ==>
                && consecutiveDrainFailures == old(consecutiveDrainFailures) + 1
                && report.requested == Some(around.wakeAt + Backoff(consecutiveDrainFailures, window))
      ensures !report.ending.Failed? ==>
                && consecutiveDrainFailures == 0
                && Continued(report, View().config, Jitter(), around)
                && ComesBackInTime(redis.store, View().config, around, report)
      ensures DispatchesHead(old(redis.store), redis.store, around, report)
      ensures redis.store.buffer != map[] && report.requested.None? ==>
                LeftToOthers(redis.store, View().config, report.consumed)
    {
      ghost var before, c, j := redis.store, Current(), Jitter();
      var failed;
      failed, report := DrainInner(redis, around);
      if failed {
        report := Recover(around, report.consumed);
      } else {
        consecutiveDrainFailures := 0;
        FollowUpIsPrompt(before, redis.store, c, workerId, j, around, around.hasLocalCapacity, report);
        if redis.store.buffer != map[] && report.requested.None? {
          NoStrandedWork(before, redis.store, c, workerId, j, around, around.hasLocalCapacity, report);
        }
      }
    }

    /** After an exception: schedule a drain with exponential backoff, at most one window away. */
    method Recover(around: Surroundings, consumed: Option<(Option<Task>, ConsumeResult)>) returns (report: Report)
      requires drainLoop.Valid()
      modifies this`consecutiveDrainFailures, drainLoop
      ensures drainLoop.Valid() && consecutiveDrainFailures == old(consecutiveDrainFailures) + 1
      ensures report == Report(Failed, consumed, None, Some(around.wakeAt + Backoff(consecutiveDrainFailures, window)))
      ensures drainLoop.State() == Woken(old(drainLoop.State()), report.requested, drainLoop.watchdogInterval)
    {
      consecutiveDrainFailures := consecutiveDrainFailures + 1;
      var requested := ScheduleDrain(around.wakeAt, Backoff(consecutiveDrainFailures, window));
      report := Report(Failed, consumed, None, requested);
    }

    /** The inner drain; `failed` stands for an exception that leaves it. */
    method DrainInner(redis: Redis, around: Surroundings) returns (failed: bool, report: Report)
      requires drainLoop.Valid() && Proper(Current())
      modifies redis, drainLoop
      ensures drainLoop.Valid()
      ensures failed <==> Raises(around, report.consumed)
      ensures drainLoop.State() == Woken(old(drainLoop.State()), report.requested, drainLoop.watchdogInterval)
      ensures Consumption(old(redis.store), redis.store, Current(), workerId, around,
                          around.hasLocalCapacity, report.consumed)
      ensures DispatchesHead(old(redis.store), redis.store, around, report)
      ensures failed ==> report.dispatched.None? && report.requested.None?
      ensures !failed ==>
                && Continued(report, Current(), Jitter(), around)
                && ComesBackInTime(redis.store, Current(), around, report)
    {
      ghost var before, c := redis.store, Current();
      if !around.hasLocalCapacity {
        var requested := ScheduleDrain(around.wakeAt, TokenInterval(Current()));
        TokenTime(c);
        return false, Report(NoCapacity, None, None, requested);
      }
      if around.reply.CallLost? {
        return true, Report(Failed, None, None, None);
      }
      var head, result := redis.Consume(SettingsOf(Current(), workerId), around.redisMs);
      if around.reply.ReplyLost? {
        assert ConsumedOnce(old(redis.store), redis.store, Current(), workerId, around.redisMs);
        return true, Report(Failed, None, None, None);
      }
      failed, report := Conclude(head, result, around);
      AdmittedIsDispatched(before, redis.store, c, workerId, around, true, report);
      if !failed {
        FollowUpIsPrompt(before, redis.store, c, workerId, Jitter(), around, true, report);
      }
    }

    /** The rest of the inner drain, once the script has answered: dispatch, then schedule the next. */
    method Conclude(head: Option<Task>, result: ConsumeResult, around: Surroundings)
      returns (failed: bool, report: Report)
      requires drainLoop.Valid() && around.hasLocalCapacity && around.reply.Arrives?
      modifies drainLoop
      ensures drainLoop.Valid() && report.consumed == Some((head, result))
      ensures failed <==> InnerFails(around, report.consumed)
      ensures report.dispatched == Dispatched(report.consumed, around)
      ensures drainLoop.State() == Woken(old(drainLoop.State()), report.requested, drainLoop.watchdogInterval)
      ensures failed ==> report.dispatched.None? && report.requested.None?
      ensures !failed ==> Continued(report, Current(), Jitter(), around)
    {
      var dispatched := None;
      if result.status.Admitted? && result.task.Some? && !result.task.value.isMarker {
        if around.dispatchFails {
          return true, Report(Failed, Some((head, result)), None, None);
        }
        dispatched := result.task;
      }
      var requested := Continue(result, around);
      return false, Report(Finished, Some((head, result)), dispatched, requested);
    }

    /** Schedule the follow-up drain that the result calls for. */
    method Continue(result: ConsumeResult, around: Surroundings) returns (requested: Option<real>)
      requires drainLoop.Valid()
      modifies drainLoop
      ensures drainLoop.Valid()
      ensures requested == Delayed(around.wakeAt,
                                   FollowUpDelay(result, Current(),
                                                 SmartJitterMs(Jitter(), result.remainingTasks, result.active,
                                                               around.draw)))
      ensures drainLoop.State() == Woken(old(drainLoop.State()), requested, drainLoop.watchdogInterval)
    {
      var delay := DelayFor(result, around.draw);
      if delay.None? { return None; }
      requested := ScheduleDrain(around.wakeAt, delay.value);
    }

    /** The delay of the follow-up drain that the result calls for. */
    method DelayFor(result: ConsumeResult, draw: real) returns (delay: Option<real>)
      ensures delay == FollowUpDelay(result, Current(),
                                     SmartJitterMs(Jitter(), result.remainingTasks, result.active, draw))
    {
      if result.status.Yielded? {
        return Some(TokenInterval(Current()));
      }
      if result.status.Admitted? {
        return if result.remainingTasks > 0 then Some(0.0) else None;
      }
      if result.remainingTasks == 0 || result.active >= maxConcurrency {
        // The buffer is empty, or the release of a slot wakes the loop.
        return None;
      }
      if result.status.MarkerSkipped? {
        return if result.remainingTasks > 0 then Some(0.0) else None;
      }
      if result.remainingTokens <= 0 {
        var retry := RateLimitedDelay(result, draw);
        return Some(retry);
      }
      return None;
    }

    /** Jitter is added only when the whole window has to pass. */
    method RateLimitedDelay(result: ConsumeResult, draw: real) returns (delay: real)
      ensures delay == RetryDelay(result, Current(),
                                  SmartJitterMs(Jitter(), result.remainingTasks, result.active, draw))
    {
      var baseDelay := RecoveryDelay(result.previous, result.current, result.resetInMs as real, limit, window);
      var isFallback := result.previous <= 0 || result.current >= limit;
      var jitterMs := SmartJitterMs(Jitter(), result.remainingTasks, result.active, draw);
      var jitter := if isFallback then jitterMs as real / 1000.0 else 0.0;
      var delayMs := RoundHalfEven(Max(0.001, baseDelay + jitter) * 1000.0);
      delay := delayMs as real / 1000.0;
    }
  }
}
