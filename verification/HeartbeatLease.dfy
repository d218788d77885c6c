/** Renewals against the store: the heartbeat scheduler together with the leases its renew script
    finds or misses, and what a missing lease does to the worker.
  */
module HeartbeatLease {
  import opened Options
  import opened HeartbeatSteps
  import opened RedisServer
  import Heartbeat
  import Scripts

  /** How a call of the renew script ends: with the script's answer, with a Redis error before or
      after the script ran, or because the script cannot be loaded. */
  datatype RenewReply = Answered | Broken(ran: bool) | Unloadable

  datatype System = System(core: Scheduler, store: Scripts.Store)

  datatype LeaseEvent =
      // Any step of the scheduler but the outcome of a renewal.
    | Beat(event: Event)
    | CallRenew(nowMs: nat, duration: int, reply: RenewReply)
      // Whatever the scripts of all workers make of the store.
    | OtherScript(store: Scripts.Store)

  predicate IsOutcome(e: Event) {
    e.RenewSucceeds? || e.RenewFails? || e.RenewRaises?
  }

  predicate LeaseEnabled(sys: System, e: LeaseEvent) {
    match e
    case Beat(event) => Enabled(sys.core, event) && !IsOutcome(event)
    case CallRenew(_, _, _) => sys.core.worker.Renewing?
    case OtherScript(_) => true
  }

  predicate Runs(reply: RenewReply) {
    reply.Answered? || (reply.Broken? && reply.ran)
  }

  /** The step of the scheduler that a call amounts to, given the script's answer: a Redis error is
      caught, a missing lease is a KeyError, which is not. */
  function Outcome(reply: RenewReply, found: bool): Event {
    match reply
    case Broken(_) => RenewFails
    case Unloadable => RenewRaises
    case Answered => if found then RenewSucceeds else RenewRaises
  }

  function LeaseApply(sys: System, e: LeaseEvent, interval: real): System
    requires LeaseEnabled(sys, e)
  {
    match e
    case Beat(event) => sys.(core := Apply(sys.core, event, interval))
    case CallRenew(nowMs, duration, reply) =>
      var (after, found) := Scripts.Renew(sys.store, sys.core.worker.taskId, duration, nowMs);
      System(Apply(sys.core, Outcome(reply, found), interval), if Runs(reply) then after else sys.store)
    case OtherScript(store) => sys.(store := store)
  }

  ghost predicate LeaseBehavior(sys: System, events: seq<LeaseEvent>, interval: real)
    decreases |events|
  {
    events == [] || (LeaseEnabled(sys, events[0])
                     && LeaseBehavior(LeaseApply(sys, events[0], interval), events[1..], interval))
  }

  ghost function LeaseAfter(sys: System, events: seq<LeaseEvent>, interval: real): System
    requires LeaseBehavior(sys, events, interval)
    decreases |events|
  {
    if events == [] then sys else LeaseAfter(LeaseApply(sys, events[0], interval), events[1..], interval)
  }

  /** The steps of the scheduler alone. */
  ghost function CoreEvents(sys: System, events: seq<LeaseEvent>, interval: real): seq<Event>
    requires LeaseBehavior(sys, events, interval)
    decreases |events|
  {
    if events == [] then []
    else
      var rest := CoreEvents(LeaseApply(sys, events[0], interval), events[1..], interval);
      match events[0]
      case Beat(event) => [event] + rest
      case CallRenew(nowMs, duration, reply) =>
        [Outcome(reply, Scripts.Renew(sys.store, sys.core.worker.taskId, duration, nowMs).1)] + rest
      case OtherScript(_) => rest
  }

  /** They are a run of the scheduler, so all that is proved of its runs holds here, and a task
      loses its cover only to a call that raises. */
  lemma {:induction false} CoreRuns(sys: System, events: seq<LeaseEvent>, interval: real)
    requires LeaseBehavior(sys, events, interval)
    ensures Behavior(sys.core, CoreEvents(sys, events, interval), interval)
    ensures After(sys.core, CoreEvents(sys, events, interval), interval) == LeaseAfter(sys, events, interval).core
    decreases |events|
  {
    if events != [] {
      var sys' := LeaseApply(sys, events[0], interval);
      CoreRuns(sys', events[1..], interval);
      match events[0]
      case Beat(event) => BehaviorCons(sys.core, event, CoreEvents(sys', events[1..], interval), interval);
      case CallRenew(nowMs, duration, reply) =>
        var found := Scripts.Renew(sys.store, sys.core.worker.taskId, duration, nowMs).1;
        BehaviorCons(sys.core, Outcome(reply, found), CoreEvents(sys', events[1..], interval), interval);
      case OtherScript(_) =>
    }
  }

  // ---------------------------------------------------------------------------
  // What a renewal does
  // ---------------------------------------------------------------------------

  /** A renewal finds a lease iff it is held, and then moves its expiry to `duration` after the
      present second; it never creates one and touches no other.  Until then no reclaim takes it. */
  lemma RenewExtendsOneLease(store: Scripts.Store, id: TaskId, duration: int, nowMs: nat, laterMs: nat)
    ensures var (after, found) := Scripts.Renew(store, id, duration, nowMs);
            && (found <==> id in store.leases)
            && after.leases.Keys == store.leases.Keys
            && (forall other :: other in store.leases && other != id ==> after.leases[other] == store.leases[other])
            && after == store.(leases := after.leases)
            && (found ==> (id in Scripts.Reap(after.leases, laterMs)
                           <==> Scripts.Seconds(laterMs) <= Scripts.Seconds(nowMs) + duration))
  {
    if id in store.leases { assert store.leases[id := Scripts.Seconds(nowMs) + duration].Keys == store.leases.Keys; }
  }

  /** The worker is ended by a call iff the script cannot be loaded, or answers that the lease is
      not held when it runs. */
  lemma CallEndsWorkerIff(sys: System, nowMs: nat, duration: int, reply: RenewReply, interval: real)
    requires sys.core.worker.Renewing?
    ensures LeaseApply(sys, CallRenew(nowMs, duration, reply), interval).core.worker.Exiting?
       <==> reply.Unloadable? || (reply.Answered? && sys.core.worker.taskId !in sys.store.leases)
  {}

  /** A call that does not end the worker leaves its task, if registered, healthy iff the script
      answered, and the store as the script left it, if it ran. */
  lemma CallRecordsOutcome(sys: System, nowMs: nat, duration: int, reply: RenewReply, interval: real)
    requires sys.core.worker.Renewing?
    ensures var id := sys.core.worker.taskId;
            var after := LeaseApply(sys, CallRenew(nowMs, duration, reply), interval);
            && (after.core.worker.Renewed? && id in sys.core.entries ==>
                  id in after.core.entries && (after.core.entries[id].healthy <==> reply.Answered?))
            && (after.core.worker.Exiting? ==> after.core.entries == sys.core.entries)
            && (reply.Unloadable? || reply == Broken(false) ==> after.store == sys.store)
            && (id in sys.store.leases && (reply.Answered? || reply == Broken(true)) ==>
                  id in after.store.leases && after.store.leases[id] == nowMs / 1000 + duration)
  {}

  ghost predicate Alive(core: Scheduler) {
    !core.worker.Exiting? && !core.worker.Stopped?
  }

  ghost predicate AliveThroughout(sys: System, events: seq<LeaseEvent>, interval: real)
    requires LeaseBehavior(sys, events, interval)
    decreases |events|
  {
    Alive(sys.core) && (events == [] || AliveThroughout(LeaseApply(sys, events[0], interval), events[1..], interval))
  }

  /** Every renew script can be loaded, and every one that answers finds its lease. */
  ghost predicate LeasesAlwaysFound(sys: System, events: seq<LeaseEvent>, interval: real)
    requires LeaseBehavior(sys, events, interval)
    decreases |events|
  {
    events == []
    || ((events[0].CallRenew? ==>
           !events[0].reply.Unloadable? && (events[0].reply.Answered? ==> sys.core.worker.taskId in sys.store.leases))
        && LeasesAlwaysFound(LeaseApply(sys, events[0], interval), events[1..], interval))
  }

  ghost predicate NeverShutDown(events: seq<LeaseEvent>) {
    forall i :: 0 <= i < |events| && events[i].Beat? ==> !events[i].event.Shutdown?
  }

  lemma AliveStepIff(sys: System, e: LeaseEvent, interval: real)
    requires Alive(sys.core) && !sys.core.shutdown && LeaseEnabled(sys, e) && (e.Beat? ==> !e.event.Shutdown?)
    ensures var sys' := LeaseApply(sys, e, interval);
            && !sys'.core.shutdown
            && (Alive(sys'.core) <==>
                  (e.CallRenew? ==>
                     !e.reply.Unloadable? && (e.reply.Answered? ==> sys.core.worker.taskId in sys.store.leases)))
  {
    match e
    case Beat(event) =>
      match event {
        case Register(_, _, _) =>
        case Turn(_, _) =>
        case Requeue(_) =>
        case _ =>
      }
    case CallRenew(nowMs, duration, reply) => CallEndsWorkerIff(sys, nowMs, duration, reply, interval);
    case OtherScript(_) =>
  }

  /** Short of a shutdown, a running worker survives a whole run iff every renewal that gets an
      answer finds its lease: losing a lease is what ends the thread. */
  lemma {:induction false} WorkerSurvivesIff(sys: System, events: seq<LeaseEvent>, interval: real)
    requires Alive(sys.core) && !sys.core.shutdown && LeaseBehavior(sys, events, interval) && NeverShutDown(events)
    ensures AliveThroughout(sys, events, interval) <==> LeasesAlwaysFound(sys, events, interval)
    decreases |events|
  {
    if events != [] {
      var sys' := LeaseApply(sys, events[0], interval);
      AliveStepIff(sys, events[0], interval);
      if Alive(sys'.core) {
        WorkerSurvivesIff(sys', events[1..], interval);
      } else {
        DeadIsNotAlive(sys', events[1..], interval);
      }
    }
  }

  lemma DeadIsNotAlive(sys: System, events: seq<LeaseEvent>, interval: real)
    requires !Alive(sys.core) && LeaseBehavior(sys, events, interval)
    ensures !AliveThroughout(sys, events, interval)
  {}

  // ---------------------------------------------------------------------------
  // A task that exits while it is being renewed
  // ---------------------------------------------------------------------------

  /** An ordinary exit, deregistration and release, that falls between the pop and the renew script
      ends the worker, although the task held its lease; all other tickets stay. */
  lemma ExitDuringRenewalEndsWorker(sys: System, nowMs: nat, duration: int, interval: real)
    requires sys.core.worker.Renewing? && sys.core.worker.taskId != ""
    ensures var id := sys.core.worker.taskId;
            var left := LeaseApply(sys, Beat(Deregister(id)), interval);
            var released := LeaseApply(left, OtherScript(Scripts.Release(left.store, id)), interval);
            var called := LeaseApply(released, CallRenew(nowMs, duration, Answered), interval);
            && called.core.worker.Exiting? && called.core.heap == sys.core.heap
            && (forall other :: other != id && HasCurrentTicket(sys.core, other) ==>
                  HasCurrentTicket(called.core, other))
  {
    var id := sys.core.worker.taskId;
    var left := Apply(sys.core, Deregister(id), interval);
    forall other | other != id && HasCurrentTicket(sys.core, other) ensures HasCurrentTicket(left, other) {
      var t :| t in sys.core.heap && t.taskId == other && IsCurrent(sys.core.entries, t);
      assert t in left.heap && IsCurrent(left.entries, t);
    }
  }

  /** With the worker gone, nobody's ticket is popped until somebody registers: the leases of all the
      tasks that are still running are no longer renewed. */
  lemma {:induction false} NobodyRenewsWithoutWorker(s: Scheduler, events: seq<Event>, interval: real)
    requires !Alive(s) && Behavior(s, events, interval)
    requires forall i :: 0 <= i < |events| && events[i].Register? ==> events[i].taskId == ""
    ensures !Alive(After(s, events, interval)) && forall i :: 0 <= i < |events| ==> !events[i].Turn?
    decreases |events|
  {
    if events != [] {
      NobodyRenewsWithoutWorker(Apply(s, events[0], interval), events[1..], interval);
      forall i | 0 <= i < |events| ensures !events[i].Turn? {
        if i > 0 { assert events[i] == events[1..][i - 1]; }
      }
    }
  }

  // ---------------------------------------------------------------------------
  // What becomes of the other leases
  // ---------------------------------------------------------------------------

  /** Scripts of others may take the lease of the task away; none writes it. */
  ghost predicate NobodyElseLeases(sys: System, events: seq<LeaseEvent>, taskId: TaskId, interval: real)
    requires LeaseBehavior(sys, events, interval)
    decreases |events|
  {
    events == []
    || ((events[0].OtherScript? ==> Unwritten(sys.store, events[0].store, taskId))
        && NobodyElseLeases(LeaseApply(sys, events[0], interval), events[1..], taskId, interval))
  }

  predicate Unwritten(before: Scripts.Store, after: Scripts.Store, taskId: TaskId) {
    taskId in after.leases ==> taskId in before.leases && after.leases[taskId] == before.leases[taskId]
  }

  ghost predicate NobodyRegisters(events: seq<LeaseEvent>) {
    forall i :: 0 <= i < |events| && events[i].Beat? && events[i].event.Register? ==> events[i].event.taskId == ""
  }

  lemma {:induction false} LeaseStaysUnwritten(sys: System, events: seq<LeaseEvent>, taskId: TaskId, interval: real)
    requires !Alive(sys.core) && LeaseBehavior(sys, events, interval)
    requires NobodyRegisters(events) && NobodyElseLeases(sys, events, taskId, interval)
    ensures var end := LeaseAfter(sys, events, interval);
            !Alive(end.core) && Unwritten(sys.store, end.store, taskId)
    decreases |events|
  {
    if events != [] {
      LeaseStaysUnwritten(LeaseApply(sys, events[0], interval), events[1..], taskId, interval);
    }
  }

  /** Once the worker has gone, and until somebody registers, the lease of a task that is still
      running stays as it was; so a call of the consume script reclaims it iff its last score has
      passed by then. */
  lemma ReclaimedWithoutWorkerIff(sys: System, events: seq<LeaseEvent>, taskId: TaskId, interval: real, nowMs: nat)
    requires !Alive(sys.core) && LeaseBehavior(sys, events, interval)
    requires NobodyRegisters(events) && NobodyElseLeases(sys, events, taskId, interval)
    requires taskId in LeaseAfter(sys, events, interval).store.leases
    ensures taskId in sys.store.leases
    ensures taskId !in Scripts.Reap(LeaseAfter(sys, events, interval).store.leases, nowMs)
       <==> Scripts.Seconds(nowMs) > sys.store.leases[taskId]
  {
    LeaseStaysUnwritten(sys, events, taskId, interval);
  }

  /** A registration before that rescues it: the new worker finds the ticket, which is due, and its
      renewal finds the lease. */
  lemma RegistrationRescuesLease(sys: System, t: Ticket, other: TaskId, onFailure: FailureAction, now: real,
                                 nowMs: nat, duration: int, interval: real)
    requires sys.core.worker.Stopped? && other != "" && other != t.taskId && interval >= 0.0
    requires Earliest(sys.core.heap, t) && IsCurrent(sys.core.entries, t) && t.due <= now
    requires t.taskId in sys.store.leases
    ensures var registered := LeaseApply(sys, Beat(Register(other, onFailure, now)), interval);
            && LeaseEnabled(registered, Beat(Turn(now, Some(t))))
            && (var popped := LeaseApply(registered, Beat(Turn(now, Some(t))), interval);
                && LeaseEnabled(popped, CallRenew(nowMs, duration, Answered))
                && (var renewed := LeaseApply(popped, CallRenew(nowMs, duration, Answered), interval);
                    && Alive(renewed.core) && t.taskId in renewed.store.leases
                    && renewed.store.leases[t.taskId] == Scripts.Seconds(nowMs) + duration))
  {
    var registered := LeaseApply(sys, Beat(Register(other, onFailure, now)), interval);
    assert registered.core.heap == sys.core.heap + multiset{Ticket(now + interval, other, 0)};
    assert Earliest(registered.core.heap, t);
  }

  lemma LeaseCons(sys: System, e: LeaseEvent, rest: seq<LeaseEvent>, interval: real)
    requires LeaseEnabled(sys, e) && LeaseBehavior(LeaseApply(sys, e, interval), rest, interval)
    ensures LeaseBehavior(sys, [e] + rest, interval)
    ensures LeaseAfter(sys, [e] + rest, interval) == LeaseAfter(LeaseApply(sys, e, interval), rest, interval)
  {
    assert ([e] + rest)[1..] == rest;
  }

  /** The store with two leases, written with the same score. */
  function TwoLeases(a: TaskId, b: TaskId, score: int): Scripts.Store {
    Scripts.EMPTY.(leases := map[a := score, b := score])
  }

  /** The task that is being renewed exits, its renewal misses the lease, and the thread ends. */
  lemma ExitRun(sys: System, nowMs: nat, duration: int, interval: real) returns (events: seq<LeaseEvent>)
    requires sys.core.worker.Renewing? && sys.core.worker.taskId != ""
    ensures LeaseBehavior(sys, events, interval)
    ensures var id := sys.core.worker.taskId;
            LeaseAfter(sys, events, interval)
            == System(sys.core.(entries := sys.core.entries - {id}, worker := Stopped), Scripts.Release(sys.store, id))
  {
    var id := sys.core.worker.taskId;
    var released := Scripts.Release(sys.store, id);
    var e0, e1, e2 := Beat(Deregister(id)), OtherScript(released), CallRenew(nowMs, duration, Answered);
    var e3 := Beat(ThreadEnds);
    events := [e0] + ([e1] + ([e2] + ([e3] + [])));
    var s1 := LeaseApply(sys, e0, interval);
    var s2 := LeaseApply(s1, e1, interval);
    assert id !in s2.store.leases;
    var s3 := LeaseApply(s2, e2, interval);
    LeaseCons(s3, e3, [], interval);
    LeaseCons(s2, e2, [e3] + [], interval);
    LeaseCons(s1, e1, [e2] + ([e3] + []), interval);
    LeaseCons(sys, e0, [e1] + ([e2] + ([e3] + [])), interval);
  }

  /** The scheduler with the worker at the top of its loop and these tasks registered, once each. */
  function Registered(tasks: seq<TaskId>, onFailure: FailureAction, due: real): Scheduler {
    if tasks == [] then INITIAL
    else RegisterStep(Registered(tasks[..|tasks| - 1], onFailure, due), tasks[|tasks| - 1], onFailure, due)
  }

  lemma TwoRegistered(a: TaskId, b: TaskId, onFailure: FailureAction, due: real)
    requires a != "" && b != "" && a != b
    ensures Registered([a], onFailure, due) == RegisterStep(INITIAL, a, onFailure, due)
    ensures var s := Registered([a, b], onFailure, due);
            && s == RegisterStep(Registered([a], onFailure, due), b, onFailure, due)
            && s.entries == map[a := Entry(onFailure, true, 0), b := Entry(onFailure, true, 0)]
            && s.heap == multiset{Ticket(due, a, 0), Ticket(due, b, 0)} && !s.shutdown && s.worker.Top?
  {
    assert [a][..0] == [] && [a, b][..1] == [a];
  }

  /** One of two tickets that are due is popped. */
  lemma PopFirst(s: Scheduler, first: Ticket, second: Ticket, now: real)
    requires s.heap == multiset{first, second} && s.worker.Top? && first.due <= now && first.due <= second.due
    requires IsCurrent(s.entries, first)
    ensures Enabled(s, Turn(now, Some(first)))
    ensures TurnStep(s, Some(first))
         == s.(heap := multiset{second}, worker := Renewing(first.taskId, s.entries[first.taskId].onFailure))
  {}

  /** Two tasks are registered, and the worker has popped the ticket of the first. */
  lemma TwoTasksRun(a: TaskId, b: TaskId, onFailure: FailureAction, store: Scripts.Store, interval: real)
    returns (events: seq<LeaseEvent>)
    requires a != "" && b != "" && a != b
    ensures LeaseBehavior(System(INITIAL, store), events, interval)
    ensures var end := LeaseAfter(System(INITIAL, store), events, interval);
            && end.store == store && end.core.worker == Renewing(a, onFailure)
            && end.core.entries == map[a := Entry(onFailure, true, 0), b := Entry(onFailure, true, 0)]
            && end.core.heap == multiset{Ticket(0.0 + interval, b, 0)}
  {
    var due := 0.0 + interval;
    var ta, tb := Ticket(due, a, 0), Ticket(due, b, 0);
    var e0, e1 := Beat(Register(a, onFailure, 0.0)), Beat(Register(b, onFailure, 0.0));
    var e2 := Beat(Turn(due, Some(ta)));
    events := [e0] + ([e1] + ([e2] + []));
    TwoRegistered(a, b, onFailure, due);
    var s1, s2 := Registered([a], onFailure, due), Registered([a, b], onFailure, due);
    PopFirst(s2, ta, tb, due);
    LeaseCons(System(s2, store), e2, [], interval);
    LeaseCons(System(s1, store), e1, [e2] + [], interval);
    LeaseCons(System(INITIAL, store), e0, [e1] + ([e2] + []), interval);
  }

  lemma {:induction false} LeaseConcat(sys: System, first: seq<LeaseEvent>, second: seq<LeaseEvent>, interval: real)
    requires LeaseBehavior(sys, first, interval) && LeaseBehavior(LeaseAfter(sys, first, interval), second, interval)
    ensures LeaseBehavior(sys, first + second, interval)
    ensures LeaseAfter(sys, first + second, interval) == LeaseAfter(LeaseAfter(sys, first, interval), second, interval)
    decreases |first|
  {
    if first == [] {
      assert first + second == second;
    } else {
      var all, next := first + second, LeaseApply(sys, first[0], interval);
      assert all[0] == first[0] && all[1..] == first[1..] + second;
      LeaseConcat(next, first[1..], second, interval);
    }
  }

  /** Two tasks are leased and registered; one exits while it is being renewed, and the thread ends.
      The scheduler is left with `b` registered and its ticket in the heap. */
  lemma TwoTasksOneExits(a: TaskId, b: TaskId, onFailure: FailureAction, score: int, nowMs: nat, interval: real)
    returns (events: seq<LeaseEvent>)
    requires a != "" && b != "" && a != b
    ensures LeaseBehavior(System(INITIAL, TwoLeases(a, b, score)), events, interval)
    ensures var end := LeaseAfter(System(INITIAL, TwoLeases(a, b, score)), events, interval);
            && end.core.worker.Stopped? && b in end.core.entries && HasCurrentTicket(end.core, b)
            && end.store.leases == map[b := score]
  {
    var start := System(INITIAL, TwoLeases(a, b, score));
    var first := TwoTasksRun(a, b, onFailure, start.store, interval);
    var second := ExitRun(LeaseAfter(start, first, interval), nowMs, score, interval);
    events := first + second;
    LeaseConcat(start, first, second, interval);
    var end := LeaseAfter(start, events, interval);
    var tb := Ticket(0.0 + interval, b, 0);
    assert tb in end.core.heap && IsCurrent(end.core.entries, tb);
    assert start.store.leases - {a} == map[b := score];
  }

  /** Hence a run after which the consume script reclaims the lease of a task that is running,
      registered and has its ticket in the heap: once the second of its score has passed. */
  lemma LiveLeaseReclaimed(a: TaskId, b: TaskId, onFailure: FailureAction, score: int, nowMs: nat, laterMs: nat,
                           interval: real) returns (events: seq<LeaseEvent>)
    requires a != "" && b != "" && a != b && Scripts.Seconds(laterMs) > score
    ensures LeaseBehavior(System(INITIAL, TwoLeases(a, b, score)), events, interval)
    ensures var end := LeaseAfter(System(INITIAL, TwoLeases(a, b, score)), events, interval);
            && b in end.core.entries && HasCurrentTicket(end.core, b)
            && b in end.store.leases && b !in Scripts.Reap(end.store.leases, laterMs)
  {
    events := TwoTasksOneExits(a, b, onFailure, score, nowMs, interval);
    var end := LeaseAfter(System(INITIAL, TwoLeases(a, b, score)), events, interval);
    ReclaimedWithoutWorkerIff(end, [], b, interval, laterMs);
  }

  // ---------------------------------------------------------------------------
  // The renewal as the worker performs it
  // ---------------------------------------------------------------------------

  /** One renewal: call the script, then record the health of the entry, or let the exception out. */
  method RenewOne(scheduler: Heartbeat.HeartbeatScheduler, redis: Redis, duration: int, nowMs: nat, reply: RenewReply)
    returns (raised: bool)
    requires scheduler.Valid() && scheduler.worker.Renewing?
    modifies scheduler`worker, scheduler.entries.Values, redis
    ensures scheduler.Valid() && scheduler.entries == old(scheduler.entries)
    ensures System(scheduler.State(), redis.store)
         == LeaseApply(old(System(scheduler.State(), redis.store)), CallRenew(nowMs, duration, reply),
                       scheduler.interval)
    ensures raised
       <==> reply.Unloadable? || (reply.Answered? && old(scheduler.worker.taskId) !in old(redis.store.leases))
  {
    var id := scheduler.worker.taskId;
    var found := false;
    if Runs(reply) {
      found := redis.Renew(id, duration, nowMs);
    }
    assert scheduler.State() == old(scheduler.State());
    if reply.Broken? {
      scheduler.RecordHealth(false);
      return false;
    }
    if reply.Unloadable? || !found {
      scheduler.Raise();
      return true;
    }
    scheduler.RecordHealth(true);
    return false;
  }
}
