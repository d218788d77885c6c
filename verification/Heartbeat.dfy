/** The heartbeat scheduler itself: the objects it updates in place, one method per region that
    the source protects with its condition lock, each proved to take the corresponding step of
    `HeartbeatSteps`.
  */
module Heartbeat {
  import opened HeartbeatSteps
  import opened Options

  /** The live entry handed to the lifecycle, which keeps reading its health through it. */
  class HeartbeatEntry {
    const taskId: TaskId
    const onFailure: FailureAction
    var isHealthy: bool
    var generation: nat

    constructor (taskId: TaskId, onFailure: FailureAction)
      ensures this.taskId == taskId && View() == Entry(onFailure, true, 0)
    {
      this.taskId, this.onFailure := taskId, onFailure;
      isHealthy, generation := true, 0;
    }

    function View(): Entry reads this {
      Entry(onFailure, isHealthy, generation)
    }
  }

  class HeartbeatScheduler {
    const interval: real
    var entries: map<TaskId, HeartbeatEntry>
    var heap: multiset<Ticket>
    var shutdown: bool
    var worker: Worker

    /** Distinct tasks have distinct entry objects. */
    ghost predicate Valid()
      reads this, entries.Values
    {
      forall id :: id in entries ==> entries[id].taskId == id
    }

    ghost function Table(): map<TaskId, Entry>
      reads this, entries.Values
    {
      map id | id in entries :: entries[id].View()
    }

    ghost function State(): Scheduler
      reads this, entries.Values
    {
      Scheduler(Table(), heap, shutdown, worker)
    }

    constructor (leaseDuration: int)
      ensures Valid() && State() == INITIAL && interval == leaseDuration as real / 2.0
    {
      interval := leaseDuration as real / 2.0;
      entries, heap, shutdown, worker := map[], multiset{}, false, Stopped;
    }

    method Register(taskId: TaskId, onFailure: FailureAction, now: real) returns (entry: HeartbeatEntry)
      requires Valid()
      modifies this
      ensures Valid() && State() == RegisterStep(old(State()), taskId, onFailure, now + interval)
      ensures fresh(entry) && entries == old(entries)[taskId := entry] && entry.View() == Entry(onFailure, true, 0)
    {
      entry := new HeartbeatEntry(taskId, onFailure);
      entries := entries[taskId := entry];
      assert Table() == old(Table())[taskId := Entry(onFailure, true, 0)];
      if taskId != "" {
        heap := heap + multiset{Ticket(now + interval, taskId, entry.generation)};
        EnsureStarted();
      }
    }

    /** Start a worker unless one is alive; called with the lock held. */
    method EnsureStarted()
      modifies this`shutdown, this`worker
      ensures old(worker).Stopped? ==> !shutdown && worker.Top?
      ensures !old(worker).Stopped? ==> shutdown == old(shutdown) && worker == old(worker)
    {
      if worker.Stopped? {
        shutdown := false;
        worker := Top;
      }
    }

    method Deregister(taskId: TaskId)
      requires Valid()
      modifies this`entries
      ensures Valid() && State() == Apply(old(State()), Event.Deregister(taskId), interval)
      ensures entries == old(entries) - {taskId}
    {
      entries := entries - {taskId};
    }

    method GetEntry(taskId: TaskId) returns (entry: HeartbeatEntry?)
      requires Valid()
      ensures entry == null <==> taskId !in entries
      ensures entry != null ==> entry == entries[taskId] && entry.taskId == taskId
    {
      entry := if taskId in entries then entries[taskId] else null;
    }

    method SignalShutdown()
      modifies this`shutdown
      ensures State() == Apply(old(State()), Event.Shutdown, interval)
    {
      shutdown := true;
    }

    /** An earliest ticket, as the front of the heap. */
    method Front() returns (t: Ticket)
      requires heap != multiset{}
      ensures Earliest(heap, t)
    {
      t :| t in heap;
      var rest := heap - multiset{t};
      while rest != multiset{}
        invariant t in heap && rest <= heap
        invariant forall u :: u in heap ==> t.due <= u.due || u in rest
        decreases |rest|
      {
        var u :| u in rest;
        if u.due < t.due { t := u; }
        rest := rest - multiset{u};
      }
    }

    /** One turn of the worker loop, up to the release of the lock: leave on shutdown, wait when
        nothing is due, otherwise pop the front ticket and drop it if it is stale. */
    method Turn(now: real) returns (popped: Option<Ticket>)
      requires Valid() && worker.Top?
      modifies this`heap, this`worker
      ensures Valid() && MayPop(old(State()), now, popped)
      ensures popped.None? <==> old(shutdown) || forall t :: t in old(heap) ==> t.due > now
      ensures popped.Some? ==> popped.value in old(heap) && forall t :: t in old(heap) ==> popped.value.due <= t.due
      ensures State() == TurnStep(old(State()), popped)
      ensures old(shutdown) ==> popped.None?
    {
      if shutdown {
        Leave();
        return None;
      }
      if heap == multiset{} {
        return None;
      }
      var front := Front();
      if front.due > now {
        return None;
      }
      Pop(front);
      return Some(front);
    }

    /** Leave the loop. */
    method Leave()
      requires worker.Top? && shutdown
      modifies this`worker
      ensures State() == TurnStep(old(State()), None)
    {
      worker := Exiting;
      assert Table() == old(Table());
    }

    /** Pop the front ticket; a stale one, whose task was deregistered or rescheduled, is dropped. */
    method Pop(front: Ticket)
      requires Valid() && worker.Top? && front in heap
      modifies this`heap, this`worker
      ensures entries == old(entries) && State() == TurnStep(old(State()), Some(front))
    {
      heap := heap - multiset{front};
      if front.taskId in entries && entries[front.taskId].generation == front.generation {
        worker := Renewing(front.taskId, entries[front.taskId].onFailure);
      }
      assert Table() == old(Table());
    }

    /** The region after the renew script: record the health of the entry that is live now. */
    method RecordHealth(renewed: bool)
      requires Valid() && worker.Renewing?
      modifies this`worker, entries.Values
      ensures Valid() && entries == old(entries)
      ensures State() == RenewedStep(old(State()), renewed)
      ensures old(worker.taskId) in entries ==> entries[old(worker.taskId)].isHealthy == renewed
      ensures forall id :: id in entries && entries[id].isHealthy != old(entries[id].isHealthy) ==>
                id == old(worker.taskId)
    {
      var id := worker.taskId;
      if id in entries {
        var entry := entries[id];
        entry.isHealthy := renewed;
      }
      assert Table() == SetHealth(old(Table()), id, renewed);
      worker := Renewed(id);
    }

    /** An exception other than a Redis error leaves the loop and ends the thread. */
    method Raise()
      requires worker.Renewing?
      modifies this`worker
      ensures State() == Apply(old(State()), RenewRaises, interval)
    {
      worker := Exiting;
    }

    /** After the renewal: bump the generation and schedule the next one, if still registered. */
    method Requeue(now: real)
      requires Valid() && worker.Renewed?
      modifies this`heap, this`worker, entries.Values
      ensures Valid() && entries == old(entries)
      ensures State() == RequeueStep(old(State()), now + interval)
    {
      var id := worker.taskId;
      if id in entries {
        var entry := entries[id];
        entry.generation := entry.generation + 1;
        heap := heap + multiset{Ticket(now + interval, id, entry.generation)};
        assert Table() == old(Table())[id := old(Table())[id].(generation := entry.generation)];
      }
      worker := Top;
    }
  }
}
