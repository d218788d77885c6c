/** The life of one admitted task in its worker: enter registers it for heartbeats, exit ends the
    heartbeats, releases the slot and the in-flight marker, and wakes the drain loop.
  */
module Lifecycle {
  import opened Options
  import opened Collections
  import opened RedisServer
  import opened Heartbeat
  import Steps = HeartbeatSteps
  import Loop = DrainLoop
  import Limiters
  import Scripts

  class TaskLifecycle {
    const scheduler: HeartbeatScheduler
    const redis: Redis
    const drainLoop: Loop.DrainLoop
    const taskId: string
    const onFailure: Steps.FailureAction
    var entry: HeartbeatEntry?

    constructor (scheduler: HeartbeatScheduler, redis: Redis, drainLoop: Loop.DrainLoop, taskId: string,
                 onFailure: Steps.FailureAction)
      ensures this.scheduler == scheduler && this.redis == redis && this.drainLoop == drainLoop
      ensures this.taskId == taskId && this.onFailure == onFailure && entry == null && IsHealthy()
    {
      this.scheduler, this.redis, this.drainLoop := scheduler, redis, drainLoop;
      this.taskId, this.onFailure, this.entry := taskId, onFailure, null;
    }

    /** Whether the most recent heartbeat succeeded; true before the first. */
    predicate IsHealthy() reads this, entry {
      entry == null || entry.isHealthy
    }

    method Enter(now: real)
      requires scheduler.Valid()
      modifies this`entry, scheduler
      ensures scheduler.Valid()
      ensures scheduler.State()
          == Steps.RegisterStep(old(scheduler.State()), taskId, onFailure, now + scheduler.interval)
      ensures entry != null && fresh(entry) && entry.isHealthy
          && scheduler.entries == old(scheduler.entries)[taskId := entry]
    {
      var registered := scheduler.Register(taskId, onFailure, now);
      ghost var after := scheduler.State();
      entry := registered;
      assert scheduler.State() == after;
    }

    /** Leave, whether or not the body raised, and whether the release script runs and replies:
        the heartbeats end, one release is attempted, and the drain loop gets exactly one request,
        due at once.  The entry is kept, and with it the last recorded health. */
    method Exit(bodyRaised: bool, reply: Limiters.Reply, wakeAt: real) returns (raised: bool)
      requires scheduler.Valid() && drainLoop.Valid()
      modifies scheduler`entries, redis, drainLoop
      ensures scheduler.Valid() && drainLoop.Valid()
      ensures scheduler.State() == Steps.Apply(old(scheduler.State()), Steps.Deregister(taskId), scheduler.interval)
      ensures redis.store == if reply.CallLost? then old(redis.store) else Scripts.Release(old(redis.store), taskId)
      ensures drainLoop.State() == Loop.Apply(old(drainLoop.State()), Loop.Wake(wakeAt), drainLoop.watchdogInterval)
      ensures raised <==> bodyRaised || !reply.Arrives?
      ensures IsHealthy() == old(IsHealthy())
    {
      scheduler.Deregister(taskId);
      var releaseRaised := Release(reply);
      drainLoop.Wake(wakeAt, 0.0);
      raised := bodyRaised || releaseRaised;
    }

    method Release(reply: Limiters.Reply) returns (raised: bool)
      modifies redis
      ensures redis.store == if reply.CallLost? then old(redis.store) else Scripts.Release(old(redis.store), taskId)
      ensures raised <==> !reply.Arrives?
    {
      if reply.CallLost? { return true; }
      redis.Release(taskId);
      return reply.ReplyLost?;
    }
  }

  /** What the scheduler records for the entry it handed out is what the task sees, and nothing else is. */
  lemma HealthReachesTask(task: TaskLifecycle, scheduler: HeartbeatScheduler, healthy: bool)
    requires task.taskId in scheduler.entries && task.entry == scheduler.entries[task.taskId]
    requires scheduler.entries[task.taskId].isHealthy == healthy
    ensures task.IsHealthy() == healthy
  {}

  lemma RemoveOne<V>(m: map<string, V>, id: string)
    ensures id !in m - {id} && (forall other :: other != id ==> (other in m - {id} <==> other in m))
    ensures |m - {id}| == |m| - (if id in m then 1 else 0)
    ensures (m - {id}) - {id} == m - {id}
  {
    if id in m { RemoveCount(m, id); } else { assert m - {id} == m; }
  }

  /** The effect of a release on one task's slot and marker, and on nothing else; a second release
      changes nothing. */
  lemma ReleaseFreesOneTask(store: Scripts.Store, id: string)
    requires id != ""
    ensures var after := Scripts.Release(store, id);
            && id !in after.leases && id !in after.markers
            && (forall other :: other != id ==> (other in after.leases <==> other in store.leases))
            && (forall other :: other != id ==> (other in after.markers <==> other in store.markers))
            && |after.leases| == |store.leases| - (if id in store.leases then 1 else 0)
            && Scripts.Release(after, id) == after
            && after == store.(leases := after.leases, markers := after.markers)
            && (forall other :: other in after.leases ==> after.leases[other] == store.leases[other])
            && (forall other :: other in after.markers ==> after.markers[other] == store.markers[other])
            && Scripts.Release(store, "") == store
  {
    RemoveOne(store.leases, id);
    RemoveOne(store.markers, id);
  }

  /** After an exit no renewal of the task starts, and one under way does not put it back into the
      heap, through any further events that do not register it again. */
  lemma ExitIsFinal(s: Steps.Scheduler, taskId: string, events: seq<Steps.Event>, interval: real)
    requires var left := Steps.Apply(s, Steps.Deregister(taskId), interval);
             Steps.Behavior(left, events, interval) && Steps.NeverRegisters(events, taskId)
    ensures var left := Steps.Apply(s, Steps.Deregister(taskId), interval);
            && Steps.NeverRenews(left, events, taskId, interval)
            && Steps.NoNewTickets(s.heap, Steps.After(left, events, interval).heap, taskId)
  {
    Steps.DeregisteredStaysGone(Steps.Apply(s, Steps.Deregister(taskId), interval), events, taskId, interval);
  }

  /** The wake-up of an exit is answered: once the worker of the drain loop has taken two steps after
      it, a drain has started. */
  lemma ExitIsFollowedByDrain(s: Loop.Traced, wakeAt: real, events: seq<Loop.Event>, watchdog: real)
    requires Loop.Inv(s) && !s.loop.shutdown && !s.loop.phase.Leaving?
    requires var woken := Loop.Apply(s, Loop.Wake(wakeAt), watchdog);
             Loop.Behavior(woken, events, watchdog) && Loop.UndisturbedFrom(events, wakeAt)
             && Loop.WorkerSteps(events) >= 2
    ensures Loop.After(Loop.Apply(s, Loop.Wake(wakeAt), watchdog), events, watchdog).starts > s.starts
  {
    Loop.StepKeepsInv(s, Loop.Wake(wakeAt), watchdog);
    Loop.EveryWakeIsServed(Loop.Apply(s, Loop.Wake(wakeAt), watchdog), events, watchdog, wakeAt);
  }
}
