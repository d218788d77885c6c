/** The heartbeat scheduler as a transition system.  Each event is one lock-protected region of
    the scheduler, or the outcome of the lease renewal that runs outside the lock; the events of
    callers and of the worker interleave freely.
  */
module HeartbeatSteps {
  import opened Options

  type TaskId = string

  datatype FailureAction = Warn | Kill

  /** The state kept per registered task. */
  datatype Entry = Entry(onFailure: FailureAction, healthy: bool, generation: nat)

  /** An element of the heap of due renewals. */
  datatype Ticket = Ticket(due: real, taskId: TaskId, generation: nat)

  /** Where the worker thread is.  `Exiting` is a thread that has left its loop but still reports
      itself alive; `Stopped` covers a thread never started and one that has ended. */
  datatype Worker =
    | Stopped
    | Top
    | Renewing(taskId: TaskId, onFailure: FailureAction)
    | Renewed(taskId: TaskId)
    | Exiting

  datatype Scheduler = Scheduler(entries: map<TaskId, Entry>, heap: multiset<Ticket>, shutdown: bool, worker: Worker)

  datatype Event =
    | Register(taskId: TaskId, onFailure: FailureAction, now: real)
    | Deregister(taskId: TaskId)
    | Shutdown
      // One turn of the worker loop: the ticket it pops, or none when nothing is due.
    | Turn(now: real, popped: Option<Ticket>)
      // The renewal succeeds, fails with a Redis error, or raises anything else.
    | RenewSucceeds
    | RenewFails
    | RenewRaises
    | Requeue(now: real)
    | ThreadEnds

  const INITIAL := Scheduler(map[], multiset{}, false, Stopped)

  predicate Earliest(heap: multiset<Ticket>, t: Ticket) {
    t in heap && forall u :: u in heap ==> t.due <= u.due
  }

  /** A ticket is current when it carries its task's present generation. */
  predicate IsCurrent(entries: map<TaskId, Entry>, t: Ticket) {
    t.taskId in entries && entries[t.taskId].generation == t.generation
  }

  function SetHealth(entries: map<TaskId, Entry>, taskId: TaskId, healthy: bool): map<TaskId, Entry> {
    if taskId in entries then entries[taskId := entries[taskId].(healthy := healthy)] else entries
  }

  function RegisterStep(s: Scheduler, taskId: TaskId, onFailure: FailureAction, due: real): Scheduler {
    var entries := s.entries[taskId := Entry(onFailure, true, 0)];
    if taskId == "" then s.(entries := entries)
    else if s.worker.Stopped? then
      Scheduler(entries, s.heap + multiset{Ticket(due, taskId, 0)}, false, Top)
    else
      s.(entries := entries, heap := s.heap + multiset{Ticket(due, taskId, 0)})
  }

  /** Whether a turn of the worker loop at `now` may pop `popped`: the earliest ticket, if it is due.
      (The threaded worker pops nothing once shutdown is signalled; the coroutine may.) */
  predicate MayPop(s: Scheduler, now: real, popped: Option<Ticket>) {
    && s.worker.Top?
    && (match popped
        case None => s.shutdown || forall t :: t in s.heap ==> t.due > now
        case Some(t) => Earliest(s.heap, t) && t.due <= now)
  }

  function TurnStep(s: Scheduler, popped: Option<Ticket>): (s': Scheduler)
    ensures s'.entries == s.entries && s'.shutdown == s.shutdown && s'.heap <= s.heap
  {
    match popped
    case None => if s.shutdown then s.(worker := Exiting) else s
    case Some(t) =>
      if IsCurrent(s.entries, t) then
        s.(heap := s.heap - multiset{t}, worker := Renewing(t.taskId, s.entries[t.taskId].onFailure))
      else
        s.(heap := s.heap - multiset{t})
  }

  function RenewedStep(s: Scheduler, healthy: bool): (s': Scheduler)
    requires s.worker.Renewing?
    ensures s'.heap == s.heap && s'.shutdown == s.shutdown && s'.entries.Keys == s.entries.Keys
    ensures forall id :: id in s.entries ==> s'.entries[id].generation == s.entries[id].generation
  {
    s.(entries := SetHealth(s.entries, s.worker.taskId, healthy), worker := Renewed(s.worker.taskId))
  }

  function RequeueStep(s: Scheduler, due: real): Scheduler
    requires s.worker.Renewed?
  {
    var id := s.worker.taskId;
    if id in s.entries then
      var entry := s.entries[id].(generation := s.entries[id].generation + 1);
      s.(entries := s.entries[id := entry],
         heap := s.heap + multiset{Ticket(due, id, entry.generation)},
         worker := Top)
    else
      s.(worker := Top)
  }

  predicate Enabled(s: Scheduler, e: Event) {
    match e
    case Turn(now, popped) => MayPop(s, now, popped)
    case RenewSucceeds => s.worker.Renewing?
    case RenewFails => s.worker.Renewing?
    case RenewRaises => s.worker.Renewing?
    case Requeue(_) => s.worker.Renewed?
    case ThreadEnds => s.worker.Exiting?
    case _ => true
  }

  function Apply(s: Scheduler, e: Event, interval: real): Scheduler
    requires Enabled(s, e)
  {
    match e
    case Register(taskId, onFailure, now) => RegisterStep(s, taskId, onFailure, now + interval)
    case Deregister(taskId) => s.(entries := s.entries - {taskId})
    case Shutdown => s.(shutdown := true)
    case Turn(now, popped) => TurnStep(s, popped)
    case RenewSucceeds => RenewedStep(s, true)
    case RenewFails => RenewedStep(s, false)
    case RenewRaises => s.(worker := Exiting)
    case Requeue(now) => RequeueStep(s, now + interval)
    case ThreadEnds => s.(worker := Stopped)
  }

  /** The ticket an event pushes: only a registration and a requeue push one. */
  function Pushed(s: Scheduler, e: Event, interval: real): Option<Ticket>
    requires Enabled(s, e)
  {
    match e
    case Register(taskId, _, now) => if taskId == "" then None else Some(Ticket(now + interval, taskId, 0))
    case Requeue(now) =>
      if s.worker.taskId in s.entries then
        Some(Ticket(now + interval, s.worker.taskId, s.entries[s.worker.taskId].generation + 1))
      else None
    case _ => None
  }

  /** The ticket an event pops: only a turn of the worker pops one. */
  function Popped(e: Event): Option<Ticket> {
    if e.Turn? then e.popped else None
  }

  lemma HeapAfter(s: Scheduler, e: Event, interval: real)
    requires Enabled(s, e)
    ensures Pushed(s, e, interval).Some? ==>
              Popped(e).None? && Apply(s, e, interval).heap == s.heap + multiset{Pushed(s, e, interval).value}
    ensures Popped(e).Some? ==> Apply(s, e, interval).heap == s.heap - multiset{Popped(e).value}
    ensures Pushed(s, e, interval).None? && Popped(e).None? ==> Apply(s, e, interval).heap == s.heap
  {
    match e
    case Register(_, _, _) =>
    case Requeue(_) =>
    case Turn(_, _) =>
    case _ =>
  }

  /** Only a registration, a deregistration and a requeue change whether a ticket is current. */
  lemma CurrencyOrigin(s: Scheduler, e: Event, t: Ticket, interval: real)
    requires Enabled(s, e) && IsCurrent(Apply(s, e, interval).entries, t) && !IsCurrent(s.entries, t)
    ensures (e.Register? && e.taskId == t.taskId) || (e.Requeue? && s.worker.taskId == t.taskId)
  {
    match e
    case Register(_, _, _) =>
    case Requeue(_) =>
    case _ =>
  }

  /** The worker turns to a task only by popping a current ticket of it. */
  lemma HandlingOrigin(s: Scheduler, e: Event, taskId: TaskId, interval: real)
    requires Enabled(s, e) && IsHandling(Apply(s, e, interval), taskId) && !IsHandling(s, taskId)
    ensures e.Turn? && e.popped.Some? && e.popped.value in s.heap && e.popped.value.taskId == taskId
    ensures IsCurrent(s.entries, e.popped.value)
  {
    match e
    case Register(_, _, _) =>
    case Turn(_, _) =>
    case _ =>
  }

  ghost predicate Behavior(s: Scheduler, events: seq<Event>, interval: real)
    decreases |events|
  {
    events == [] || (Enabled(s, events[0]) && Behavior(Apply(s, events[0], interval), events[1..], interval))
  }

  ghost function After(s: Scheduler, events: seq<Event>, interval: real): Scheduler
    requires Behavior(s, events, interval)
    decreases |events|
  {
    if events == [] then s else After(Apply(s, events[0], interval), events[1..], interval)
  }

  // ---------------------------------------------------------------------------
  // Coverage
  // ---------------------------------------------------------------------------

  ghost predicate HasCurrentTicket(s: Scheduler, taskId: TaskId) {
    exists t :: t in s.heap && t.taskId == taskId && IsCurrent(s.entries, t)
  }

  /** The worker is occupied with a renewal. */
  predicate Busy(s: Scheduler) { s.worker.Renewing? || s.worker.Renewed? }

  predicate IsHandling(s: Scheduler, taskId: TaskId) {
    Busy(s) && s.worker.taskId == taskId
  }

  ghost predicate Covered(s: Scheduler, taskId: TaskId) {
    HasCurrentTicket(s, taskId) || IsHandling(s, taskId)
  }

  /** The tasks whose renewal raised something other than a Redis error while they had no second
      current ticket, and that were neither registered nor deregistered since. */
  ghost function Lost(lost: set<TaskId>, s: Scheduler, e: Event): set<TaskId>
    requires Enabled(s, e)
  {
    match e
    case Register(taskId, _, _) => lost - {taskId}
    case Deregister(taskId) => lost - {taskId}
    case RenewRaises => if HasCurrentTicket(s, s.worker.taskId) then lost else lost + {s.worker.taskId}
    case _ => lost
  }

  ghost function LostAfter(lost: set<TaskId>, s: Scheduler, events: seq<Event>, interval: real): set<TaskId>
    requires Behavior(s, events, interval)
    decreases |events|
  {
    if events == [] then lost
    else LostAfter(Lost(lost, s, events[0]), Apply(s, events[0], interval), events[1..], interval)
  }

  /** Exactly the registered tasks that are not lost are covered. */
  ghost predicate AllCovered(s: Scheduler, lost: set<TaskId>) {
    forall taskId :: taskId in s.entries && taskId != "" ==> (Covered(s, taskId) <==> taskId !in lost)
  }

  /** A ticket loses currency only to a registration, a deregistration or a requeue of its task. */
  lemma CurrencyLost(s: Scheduler, e: Event, t: Ticket, interval: real)
    requires Enabled(s, e) && IsCurrent(s.entries, t) && !IsCurrent(Apply(s, e, interval).entries, t)
    requires t.taskId in Apply(s, e, interval).entries
    ensures (e.Register? && e.taskId == t.taskId) || (e.Requeue? && s.worker.taskId == t.taskId)
  {
    match e
    case Register(_, _, _) =>
    case Requeue(_) =>
    case _ =>
  }

  lemma HandlingLost(s: Scheduler, e: Event, taskId: TaskId, interval: real)
    requires Enabled(s, e) && IsHandling(s, taskId) && !IsHandling(Apply(s, e, interval), taskId)
    ensures e.RenewRaises? || e.Requeue?
  {
    match e
    case Register(_, _, _) =>
    case Turn(_, _) =>
    case _ =>
  }

  /** A registration and a requeue leave a current ticket behind. */
  lemma PushedIsCurrent(s: Scheduler, e: Event, taskId: TaskId, interval: real)
    requires Enabled(s, e) && taskId != "" && taskId in Apply(s, e, interval).entries
    requires (e.Register? && e.taskId == taskId) || (e.Requeue? && s.worker.taskId == taskId)
    ensures HasCurrentTicket(Apply(s, e, interval), taskId)
  {
    HeapAfter(s, e, interval);
    var t := Pushed(s, e, interval).value;
    assert t in Apply(s, e, interval).heap && IsCurrent(Apply(s, e, interval).entries, t);
  }

  lemma PopHandles(s: Scheduler, e: Event, t: Ticket, interval: real)
    requires Enabled(s, e) && Popped(e) == Some(t) && IsCurrent(s.entries, t)
    ensures IsHandling(Apply(s, e, interval), t.taskId)
  {}

  /** Whatever happens, a covered task that stays registered stays covered, unless its renewal raises. */
  lemma CoverPersists(s: Scheduler, e: Event, taskId: TaskId, interval: real)
    requires Enabled(s, e) && Covered(s, taskId)
    requires taskId != "" && taskId in Apply(s, e, interval).entries
    requires e.RenewRaises? ==> !IsHandling(s, taskId)
    ensures Covered(Apply(s, e, interval), taskId)
  {
    var s' := Apply(s, e, interval);
    if (e.Register? && e.taskId == taskId) || (e.Requeue? && s.worker.taskId == taskId) {
      PushedIsCurrent(s, e, taskId, interval);
    } else if HasCurrentTicket(s, taskId) {
      var t :| t in s.heap && t.taskId == taskId && IsCurrent(s.entries, t);
      HeapAfter(s, e, interval);
      if t !in s'.heap {
        PopHandles(s, e, t, interval);
      } else if !IsCurrent(s'.entries, t) {
        CurrencyLost(s, e, t, interval);
      }
    } else if !IsHandling(s', taskId) {
      HandlingLost(s, e, taskId, interval);
    }
  }

  /** A renewal that raises leaves its task covered iff a second current ticket is in the heap. */
  lemma RaiseUncoversIff(s: Scheduler, interval: real)
    requires s.worker.Renewing?
    ensures Covered(Apply(s, RenewRaises, interval), s.worker.taskId) <==> HasCurrentTicket(s, s.worker.taskId)
  {}

  /** A step that is no registration of the task cannot give it cover. */
  lemma NoCoverAppears(s: Scheduler, e: Event, taskId: TaskId, interval: real)
    requires Enabled(s, e) && (e.Register? ==> e.taskId != taskId)
    requires !Covered(s, taskId)
    ensures !Covered(Apply(s, e, interval), taskId) && !Renews(e, s, taskId)
  {
    var s' := Apply(s, e, interval);
    if HasCurrentTicket(s', taskId) {
      var t :| t in s'.heap && t.taskId == taskId && IsCurrent(s'.entries, t);
      HeapAfter(s, e, interval);
      if !IsCurrent(s.entries, t) { CurrencyOrigin(s, e, t, interval); }
    }
    if IsHandling(s', taskId) { HandlingOrigin(s, e, taskId, interval); }
  }

  lemma EntriesAfter(s: Scheduler, e: Event, taskId: TaskId, interval: real)
    requires Enabled(s, e) && (e.Register? ==> e.taskId != taskId)
    ensures taskId in Apply(s, e, interval).entries <==> taskId in s.entries && !(e.Deregister? && e.taskId == taskId)
  {}

  lemma CoverageStep(s: Scheduler, lost: set<TaskId>, e: Event, interval: real)
    requires AllCovered(s, lost) && Enabled(s, e)
    ensures AllCovered(Apply(s, e, interval), Lost(lost, s, e))
  {
    forall taskId | taskId in Apply(s, e, interval).entries && taskId != ""
      ensures Covered(Apply(s, e, interval), taskId) <==> taskId !in Lost(lost, s, e)
    {
      if e.Register? && e.taskId == taskId {
        PushedIsCurrent(s, e, taskId, interval);
      } else {
        EntriesAfter(s, e, taskId, interval);
        if e.RenewRaises? && s.worker.taskId == taskId {
          RaiseUncoversIff(s, interval);
        } else if Covered(s, taskId) {
          CoverPersists(s, e, taskId, interval);
        } else {
          NoCoverAppears(s, e, taskId, interval);
        }
      }
    }
  }

  /** In every reachable state, through any mix of events, a registered task with a non-empty id has
      a current ticket or is being renewed, iff it was not lost to a renewal of its own that raised. */
  lemma {:induction false} Coverage(s: Scheduler, lost: set<TaskId>, events: seq<Event>, interval: real)
    requires AllCovered(s, lost) && Behavior(s, events, interval)
    ensures AllCovered(After(s, events, interval), LostAfter(lost, s, events, interval))
    decreases |events|
  {
    if events != [] {
      CoverageStep(s, lost, events[0], interval);
      Coverage(Apply(s, events[0], interval), Lost(lost, s, events[0]), events[1..], interval);
    }
  }

  /** An exception that is no Redis error stops the worker, yet every ticket is kept, and the next
      registration of any non-empty id after the thread has ended starts a worker again. */
  lemma NextRegisterResumes(s: Scheduler, taskId: TaskId, onFailure: FailureAction, now: real, interval: real)
    requires s.worker.Renewing? && taskId != ""
    ensures var raised := Apply(s, RenewRaises, interval);
            var ended := Apply(raised, ThreadEnds, interval);
            var resumed := Apply(ended, Register(taskId, onFailure, now), interval);
            && resumed.worker.Top? && !resumed.shutdown
            && resumed.heap == s.heap + multiset{Ticket(now + interval, taskId, 0)}
            && (forall other :: other != taskId && HasCurrentTicket(s, other) ==> HasCurrentTicket(resumed, other))
  {
    var resumed := Apply(Apply(Apply(s, RenewRaises, interval), ThreadEnds, interval),
                         Register(taskId, onFailure, now), interval);
    forall other | other != taskId && HasCurrentTicket(s, other) ensures HasCurrentTicket(resumed, other) {
      var t :| t in s.heap && t.taskId == other && IsCurrent(s.entries, t);
      assert t in resumed.heap && IsCurrent(resumed.entries, t);
    }
  }

  // ---------------------------------------------------------------------------
  // Tasks the worker no longer renews
  // ---------------------------------------------------------------------------

  ghost predicate NeverRegisters(events: seq<Event>, taskId: TaskId) {
    forall i :: 0 <= i < |events| && events[i].Register? ==> events[i].taskId != taskId
  }

  ghost predicate Renews(e: Event, s: Scheduler, taskId: TaskId) {
    e.Turn? && e.popped.Some? && e.popped.value.taskId == taskId && IsCurrent(s.entries, e.popped.value)
  }

  /** A task without cover is never renewed again until it is registered again. */
  lemma {:induction false} UncoveredUntilRegistered(s: Scheduler, events: seq<Event>, taskId: TaskId, interval: real)
    requires Behavior(s, events, interval) && NeverRegisters(events, taskId)
    requires !Covered(s, taskId)
    ensures !Covered(After(s, events, interval), taskId)
    ensures NeverRenews(s, events, taskId, interval)
    decreases |events|
  {
    if events != [] {
      NoCoverAppears(s, events[0], taskId, interval);
      UncoveredUntilRegistered(Apply(s, events[0], interval), events[1..], taskId, interval);
    }
  }

  /** A reachable run, for any task and clock, that ends with the task registered and never renewed
      again: its first renewal raises. */
  lemma RaiseLosesCover(taskId: TaskId, onFailure: FailureAction, now: real, interval: real)
    returns (events: seq<Event>)
    requires taskId != ""
    ensures Behavior(INITIAL, events, interval)
    ensures var end := After(INITIAL, events, interval);
            taskId in end.entries && !Covered(end, taskId) && end.worker.Exiting?
  {
    var t := Ticket(now + interval, taskId, 0);
    var e0, e1 := Register(taskId, onFailure, now), Turn(now + interval, Some(t));
    events := [e0] + ([e1] + ([RenewRaises] + []));
    var s1 := Apply(INITIAL, e0, interval);
    assert s1.heap == multiset{t};
    var s2 := Apply(s1, e1, interval);
    assert s2.heap == multiset{};
    RaiseUncoversIff(s2, interval);
    BehaviorCons(s2, RenewRaises, [], interval);
    BehaviorCons(s1, e1, [RenewRaises] + [], interval);
    BehaviorCons(INITIAL, e0, [e1] + ([RenewRaises] + []), interval);
  }

  lemma BehaviorCons(s: Scheduler, e: Event, rest: seq<Event>, interval: real)
    requires Enabled(s, e) && Behavior(Apply(s, e, interval), rest, interval)
    ensures Behavior(s, [e] + rest, interval)
        && After(s, [e] + rest, interval) == After(Apply(s, e, interval), rest, interval)
  {
    assert ([e] + rest)[1..] == rest;
  }

  ghost predicate NeverRenews(s: Scheduler, events: seq<Event>, taskId: TaskId, interval: real)
    requires Behavior(s, events, interval)
    decreases |events|
  {
    events != [] ==>
      !Renews(events[0], s, taskId) && NeverRenews(Apply(s, events[0], interval), events[1..], taskId, interval)
  }

  ghost predicate NoNewTickets(before: multiset<Ticket>, after: multiset<Ticket>, taskId: TaskId) {
    forall t: Ticket :: t.taskId == taskId ==> after[t] <= before[t]
  }

  lemma GoneStep(s: Scheduler, e: Event, taskId: TaskId, interval: real)
    requires taskId !in s.entries && Enabled(s, e) && (e.Register? ==> e.taskId != taskId)
    ensures taskId !in Apply(s, e, interval).entries && !Renews(e, s, taskId)
    ensures NoNewTickets(s.heap, Apply(s, e, interval).heap, taskId)
  {
    match e
    case Register(id, onFailure, now) =>
    case Turn(now, popped) =>
    case Requeue(now) =>
    case _ =>
  }

  /** From deregistration on the task is not in the table, no renewal of it starts, and one that was
      under way is not put back into the heap: its tickets only become fewer. */
  lemma {:induction false} DeregisteredStaysGone(s: Scheduler, events: seq<Event>, taskId: TaskId, interval: real)
    requires taskId !in s.entries && Behavior(s, events, interval) && NeverRegisters(events, taskId)
    ensures taskId !in After(s, events, interval).entries
    ensures NoNewTickets(s.heap, After(s, events, interval).heap, taskId)
    ensures NeverRenews(s, events, taskId, interval)
    decreases |events|
  {
    if events != [] {
      GoneStep(s, events[0], taskId, interval);
      DeregisteredStaysGone(Apply(s, events[0], interval), events[1..], taskId, interval);
    }
  }

  // ---------------------------------------------------------------------------
  // The worker goes on
  // ---------------------------------------------------------------------------

  /** The worker may pass a turn without popping exactly when nothing is due, or shutdown is signalled;
      and only then does a turn end it. */
  lemma IdleTurnIff(s: Scheduler, now: real)
    requires s.worker.Top?
    ensures Enabled(s, Turn(now, None)) <==> s.shutdown || !exists t :: t in s.heap && t.due <= now
    ensures TurnStep(s, None).worker.Exiting? <==> s.shutdown
    ensures TurnStep(s, None) == s.(worker := TurnStep(s, None).worker)
  {}

  /** A renewal that does not raise, whatever its outcome, is followed by a requeue, and that by the next
      turn, with one more ticket iff the task is still registered. */
  lemma WorkerComesBack(s: Scheduler, e: Event, now: real, interval: real)
    requires Enabled(s, e) && (e.RenewSucceeds? || e.RenewFails?)
    ensures var renewed := Apply(s, e, interval);
            && Enabled(renewed, Requeue(now))
            && (var back := Apply(renewed, Requeue(now), interval);
                && back.worker.Top? && back.shutdown == s.shutdown
                && |back.heap| == |s.heap| + if s.worker.taskId in s.entries then 1 else 0)
  {}

  // ---------------------------------------------------------------------------
  // Health
  // ---------------------------------------------------------------------------

  /** What the history says of each registered task: well until a renewal of it has an outcome, and
      then what its latest one was. */
  function Heard(known: map<TaskId, bool>, s: Scheduler, e: Event): map<TaskId, bool>
    requires Enabled(s, e)
  {
    match e
    case Register(taskId, _, _) => known[taskId := true]
    case Deregister(taskId) => known - {taskId}
    case RenewSucceeds => if s.worker.taskId in known then known[s.worker.taskId := true] else known
    case RenewFails => if s.worker.taskId in known then known[s.worker.taskId := false] else known
    case _ => known
  }

  ghost function HeardAfter(known: map<TaskId, bool>, s: Scheduler, events: seq<Event>, interval: real)
    : map<TaskId, bool>
    requires Behavior(s, events, interval)
    decreases |events|
  {
    if events == [] then known
    else HeardAfter(Heard(known, s, events[0]), Apply(s, events[0], interval), events[1..], interval)
  }

  ghost predicate HealthIs(entries: map<TaskId, Entry>, known: map<TaskId, bool>) {
    entries.Keys == known.Keys && forall id :: id in entries ==> entries[id].healthy == known[id]
  }

  lemma OutcomeHealth(entries: map<TaskId, Entry>, known: map<TaskId, bool>, taskId: TaskId, healthy: bool)
    requires HealthIs(entries, known)
    ensures HealthIs(SetHealth(entries, taskId, healthy), if taskId in known then known[taskId := healthy] else known)
  {}

  lemma RequeueHealth(s: Scheduler, due: real, known: map<TaskId, bool>)
    requires s.worker.Renewed? && HealthIs(s.entries, known)
    ensures HealthIs(RequeueStep(s, due).entries, known)
  {}

  lemma HealthStep(s: Scheduler, known: map<TaskId, bool>, e: Event, interval: real)
    requires HealthIs(s.entries, known) && Enabled(s, e)
    ensures HealthIs(Apply(s, e, interval).entries, Heard(known, s, e))
  {
    match e
    case Register(_, _, _) =>
    case RenewSucceeds => OutcomeHealth(s.entries, known, s.worker.taskId, true);
    case RenewFails => OutcomeHealth(s.entries, known, s.worker.taskId, false);
    case Requeue(now) => RequeueHealth(s, now + interval, known);
    case _ =>
  }

  /** In every reachable state an entry is healthy iff no renewal has had an outcome since the task
      was registered, or the latest one that had succeeded. */
  lemma {:induction false} HealthIsLatestOutcome(s: Scheduler, known: map<TaskId, bool>, events: seq<Event>,
                                                 interval: real)
    requires HealthIs(s.entries, known) && Behavior(s, events, interval)
    ensures HealthIs(After(s, events, interval).entries, HeardAfter(known, s, events, interval))
    decreases |events|
  {
    if events != [] {
      HealthStep(s, known, events[0], interval);
      HealthIsLatestOutcome(Apply(s, events[0], interval), Heard(known, s, events[0]), events[1..], interval);
    }
  }

  /** What a task was registered with is kept, and a renewal of it acts on it. */
  lemma ActionIsKept(s: Scheduler, e: Event, taskId: TaskId, interval: real)
    requires Enabled(s, e) && taskId in s.entries && taskId in Apply(s, e, interval).entries
    ensures Apply(s, e, interval).entries[taskId].onFailure
         == if e.Register? && e.taskId == taskId then e.onFailure else s.entries[taskId].onFailure
    ensures Renews(e, s, taskId) ==>
              Apply(s, e, interval).worker == Renewing(taskId, s.entries[taskId].onFailure)
  {
    match e
    case Register(_, _, _) =>
    case Turn(_, _) =>
    case _ =>
  }

  // ---------------------------------------------------------------------------
  // Tickets and time
  // ---------------------------------------------------------------------------

  function Instant(e: Event, clock: real): real {
    match e
    case Register(_, _, now) => now
    case Turn(now, _) => now
    case Requeue(now) => now
    case _ => clock
  }

  /** The clock readings of the events never go back. */
  ghost predicate ClockAdvances(clock: real, events: seq<Event>)
    decreases |events|
  {
    events == [] || (clock <= Instant(events[0], clock) && ClockAdvances(Instant(events[0], clock), events[1..]))
  }

  ghost function ClockAfter(clock: real, events: seq<Event>): real
    decreases |events|
  {
    if events == [] then clock else ClockAfter(Instant(events[0], clock), events[1..])
  }

  ghost predicate DueWithin(s: Scheduler, clock: real, interval: real) {
    && (forall t :: t in s.heap ==> t.due <= clock + interval && t.taskId != "")
    && !IsHandling(s, "")
  }

  lemma DueWithinStep(s: Scheduler, e: Event, clock: real, interval: real)
    requires DueWithin(s, clock, interval) && Enabled(s, e) && clock <= Instant(e, clock)
    ensures DueWithin(Apply(s, e, interval), Instant(e, clock), interval)
  {
    var s' := Apply(s, e, interval);
    forall t | t in s'.heap ensures t.due <= Instant(e, clock) + interval && t.taskId != "" {
      HeapAfter(s, e, interval);
    }
    if IsHandling(s', "") { HandlingOrigin(s, e, "", interval); }
  }

  /** Every ticket is due within one interval of the clock, so nothing is postponed beyond it. */
  lemma {:induction false} TicketsDueWithinInterval(s: Scheduler, events: seq<Event>, clock: real, interval: real)
    requires DueWithin(s, clock, interval) && Behavior(s, events, interval) && ClockAdvances(clock, events)
    ensures DueWithin(After(s, events, interval), ClockAfter(clock, events), interval)
    decreases |events|
  {
    if events != [] {
      DueWithinStep(s, events[0], clock, interval);
      TicketsDueWithinInterval(Apply(s, events[0], interval), events[1..], Instant(events[0], clock), interval);
    }
  }

  /** No ticket of the task falls due before `at`. */
  ghost predicate NothingBefore(s: Scheduler, taskId: TaskId, at: real) {
    forall t :: t in s.heap && t.taskId == taskId ==> t.due >= at
  }

  ghost predicate NeverRenewedBefore(s: Scheduler, events: seq<Event>, taskId: TaskId, at: real, interval: real)
    requires Behavior(s, events, interval)
    decreases |events|
  {
    events != [] ==>
      && (Renews(events[0], s, taskId) ==> events[0].now >= at)
      && NeverRenewedBefore(Apply(s, events[0], interval), events[1..], taskId, at, interval)
  }

  /** A task is not renewed sooner than one interval after its registration or its last requeue: if
      its tickets are not due before then, no renewal of it starts before then. */
  lemma {:induction false} NotRenewedTooSoon(s: Scheduler, events: seq<Event>, taskId: TaskId, clock: real,
                                             interval: real)
    requires Behavior(s, events, interval) && ClockAdvances(clock, events)
    requires NothingBefore(s, taskId, clock + interval)
    ensures NeverRenewedBefore(s, events, taskId, clock + interval, interval)
    decreases |events|
  {
    RenewedFrom(s, events, taskId, clock, clock + interval, interval);
  }

  lemma {:induction false} RenewedFrom(s: Scheduler, events: seq<Event>, taskId: TaskId, clock: real, at: real,
                                       interval: real)
    requires Behavior(s, events, interval) && ClockAdvances(clock, events)
    requires NothingBefore(s, taskId, at) && at <= clock + interval
    ensures NeverRenewedBefore(s, events, taskId, at, interval)
    decreases |events|
  {
    if events != [] {
      HeapAfter(s, events[0], interval);
      if Pushed(s, events[0], interval).Some? { PushedOneIntervalAhead(s, events[0], interval); }
      RenewedFrom(Apply(s, events[0], interval), events[1..], taskId, Instant(events[0], clock), at, interval);
    }
  }

  /** Every ticket is pushed one interval ahead of the clock. */
  lemma PushedOneIntervalAhead(s: Scheduler, e: Event, interval: real)
    requires Enabled(s, e) && Pushed(s, e, interval).Some?
    ensures (e.Register? || e.Requeue?) && Pushed(s, e, interval).value.due == e.now + interval
  {}

  /** The tickets due by `cutoff`. */
  ghost function DueBy(heap: multiset<Ticket>, cutoff: real): (due: multiset<Ticket>)
    ensures forall t :: due[t] == if t.due <= cutoff then heap[t] else 0
    decreases |heap|
  {
    if heap == multiset{} then multiset{}
    else
      var t :| t in heap;
      var rest := DueBy(heap - multiset{t}, cutoff);
      if t.due <= cutoff then rest + multiset{t} else rest
  }

  lemma DueByRemove(heap: multiset<Ticket>, t: Ticket, cutoff: real)
    requires t in heap && t.due <= cutoff
    ensures |DueBy(heap - multiset{t}, cutoff)| == |DueBy(heap, cutoff)| - 1
  {
    var all, rest := DueBy(heap, cutoff), DueBy(heap - multiset{t}, cutoff);
    forall u: Ticket ensures all[u] == (rest + multiset{t})[u] {}
    assert all == rest + multiset{t};
  }

  lemma DueByIgnores(heap: multiset<Ticket>, other: multiset<Ticket>, t: Ticket, cutoff: real)
    requires t.due > cutoff && (other == heap + multiset{t} || other == heap - multiset{t})
    ensures DueBy(other, cutoff) == DueBy(heap, cutoff)
  {
    var a, b := DueBy(heap, cutoff), DueBy(other, cutoff);
    forall u: Ticket ensures a[u] == b[u] {}
    assert a == b;
  }

  lemma PopShrinksBacklog(heap: multiset<Ticket>, t: Ticket, cutoff: real)
    requires Earliest(heap, t)
    ensures |DueBy(heap - multiset{t}, cutoff)| <= |DueBy(heap, cutoff)|
    ensures |DueBy(heap, cutoff)| > 0 ==> |DueBy(heap - multiset{t}, cutoff)| == |DueBy(heap, cutoff)| - 1
  {
    if t.due <= cutoff {
      DueByRemove(heap, t, cutoff);
    } else {
      DueByIgnores(heap, heap - multiset{t}, t, cutoff);
      assert DueBy(heap, cutoff) == multiset{};
    }
  }

  /** Once `cutoff` has passed, no event adds a ticket due by it, and every pop removes one while
      there are any: the worker catches up and stale tickets vanish. */
  lemma BacklogShrinks(s: Scheduler, e: Event, cutoff: real, clock: real, interval: real)
    requires interval > 0.0 && Enabled(s, e) && cutoff <= clock <= Instant(e, clock)
    ensures var before, after := |DueBy(s.heap, cutoff)|, |DueBy(Apply(s, e, interval).heap, cutoff)|;
            && after <= before
            && (before > 0 && e.Turn? && e.popped.Some? ==> after == before - 1)
  {
    HeapAfter(s, e, interval);
    if Pushed(s, e, interval).Some? {
      DueByIgnores(s.heap, Apply(s, e, interval).heap, Pushed(s, e, interval).value, cutoff);
    } else if Popped(e).Some? {
      PopShrinksBacklog(s.heap, Popped(e).value, cutoff);
    }
  }

  /** After as many pops as tickets were due by `cutoff`, none of them is left. */
  lemma {:induction false} BacklogCleared(s: Scheduler, events: seq<Event>, cutoff: real, clock: real, interval: real)
    requires interval > 0.0 && Behavior(s, events, interval)
    requires cutoff <= clock && ClockAdvances(clock, events)
    ensures |DueBy(After(s, events, interval).heap, cutoff)|
         <= if |DueBy(s.heap, cutoff)| <= PopCount(events) then 0 else |DueBy(s.heap, cutoff)| - PopCount(events)
    decreases |events|
  {
    if events != [] {
      BacklogShrinks(s, events[0], cutoff, clock, interval);
      BacklogCleared(Apply(s, events[0], interval), events[1..], cutoff, Instant(events[0], clock), interval);
    }
  }

  ghost function PopCount(events: seq<Event>): nat
    decreases |events|
  {
    if events == [] then 0
    else (if events[0].Turn? && events[0].popped.Some? then 1 else 0) + PopCount(events[1..])
  }
}
