/** The life of a task across concurrent schedulers, drains and workers: claim, insertion,
    consumption, release.  Every script is one atomic step; the steps of any number of callers
    interleave freely, and replies, clean-ups and workers may fail.  Here is where a task can be;
    what its marker has to do with it is the subject of `TaskMarkers`.
  */
module TaskFlow {
  import opened Options
  import opened Collections
  import opened SlidingWindow
  import opened Scripts

  /** Seconds an in-flight marker lives, for a per-task maximum age or the limiter's own. */
  function InflightTtl(maxAgeOverride: Option<int>, s: Settings): int {
    var maxAge := if maxAgeOverride.Some? then maxAgeOverride.value else s.maxAge;
    Ceiling(AtLeastOne(maxAge as real) + AtLeastOne(s.lease as real) + AtLeastOne(s.window))
  }

  function AtLeastOne(x: real): real { if x < 1.0 then 1.0 else x }

  function Ceiling(x: real): int { if x.Floor as real == x then x.Floor else x.Floor + 1 }

  /** What schedule.lua receives for the override: 0 is passed on as an empty string. */
  function ScriptMaxAge(maxAgeOverride: Option<int>): Option<int> {
    if maxAgeOverride == Some(0) then None else maxAgeOverride
  }

  datatype Tally = Tally(claims: nat, failed: nat, inserted: nat, admitted: nat, dropped: nat, released: nat,
                         crashed: nat)

  /** A claim: when it was made, the override it came with, and when its marker expires. */
  datatype Claimed = Claimed(at: nat, maxAge: Option<int>, expiry: real)

  /** A task in execution, and when it was admitted. */
  datatype Job = Job(task: Task, since: nat)

  /** The store, with what the callers and workers know: the ids being scheduled, the tasks being
      executed, the ids whose holder is gone, the ids held without a marker, and the latest claim of
      each id. */
  datatype Flow = Flow(
    store: Store,
    clock: nat,
    claiming: set<TaskId>,
    running: map<TaskId, Job>,
    abandoned: set<TaskId>,
    unmarked: set<TaskId>,
    claims: map<TaskId, Claimed>,
    tally: Tally,
    admissions: seq<real>)

  const INITIAL := Flow(Scripts.EMPTY, 0, {}, map[], {}, {}, map[], Tally(0, 0, 0, 0, 0, 0, 0), [])

  datatype Action =
    | ClaimTask(id: TaskId, maxAge: Option<int>)
    | RejectTask(id: TaskId)
    | InsertTask(task: Task, priority: real)
      // The script ran but its reply was lost, so the caller gives its claim back, if it can.
    | LoseReply(task: Task, priority: real, cleaned: bool)
      // The script did not run, and the caller gives its claim back, if it can.
    | InsertFails(id: TaskId, cleaned: bool)
    | ConsumeTask(worker: WorkerId, head: Option<Task>)
    | ReleaseTask(id: TaskId)
    | RenewLease(id: TaskId, duration: int)
    | WorkerDies(id: TaskId)

  datatype Event = Event(now: nat, action: Action)

  function BufferedIds(buffer: map<Task, real>): set<TaskId> {
    set t | t in buffer :: t.id
  }

  function Held(f: Flow): set<TaskId> {
    f.claiming + BufferedIds(f.store.buffer) + f.running.Keys
  }

  /** The task a caller inserts is the one it claimed, stamped on arrival. */
  predicate MayInsert(f: Flow, task: Task, now: nat) {
    && task.id in f.claiming && task.arrivedAt == now
    && task.id in f.claims && task.maxAge == ScriptMaxAge(f.claims[task.id].maxAge)
  }

  predicate Enabled(f: Flow, e: Event) {
    && f.clock <= e.now
    && (match e.action
        case ClaimTask(id, _) => id != "" && !IsLive(f.store.markers, id, e.now)
        case RejectTask(id) => IsLive(f.store.markers, id, e.now)
        case InsertTask(task, _) => MayInsert(f, task, e.now)
        case LoseReply(task, _, _) => MayInsert(f, task, e.now)
        case InsertFails(id, _) => id in f.claiming
        case ConsumeTask(_, head) => IsHead(f.store.buffer, head)
        case ReleaseTask(id) => id in f.running
        case RenewLease(_, _) => true
        case WorkerDies(id) => id in f.running)
  }

  function ClaimStep(f: Flow, id: TaskId, maxAge: Option<int>, now: nat, s: Settings): Flow {
    var expiry := now as real + 1000.0 * InflightTtl(maxAge, s) as real;
    f.(store := Claim(f.store, id, InflightTtl(maxAge, s), now).0,
       claiming := f.claiming + {id}, abandoned := f.abandoned - {id},
       claims := f.claims[id := Claimed(now, maxAge, expiry)],
       tally := f.tally.(claims := f.tally.claims + 1))
  }

  function InsertStep(f: Flow, task: Task, priority: real): Flow {
    f.(store := Schedule(f.store, task, priority), claiming := f.claiming - {task.id},
       tally := f.tally.(inserted := f.tally.inserted + 1))
  }

  /** The marker of a task that is buffered all the same is deleted, if the clean-up succeeds. */
  function LostReplyStep(f: Flow, task: Task, priority: real, cleaned: bool): Flow {
    var inserted := InsertStep(f, task, priority);
    if cleaned then inserted.(store := Unclaim(inserted.store, task.id), unmarked := f.unmarked + {task.id})
    else inserted
  }

  /** The claim is given back; if the clean-up fails, too, its marker is left behind. */
  function FailStep(f: Flow, id: TaskId, cleaned: bool): Flow {
    f.(store := if cleaned then Unclaim(f.store, id) else f.store,
       claiming := f.claiming - {id},
       abandoned := if cleaned then f.abandoned else f.abandoned + {id},
       tally := f.tally.(failed := f.tally.failed + 1))
  }

  /** Record the outcome of a call of the consume script. */
  function RecordOutcome(f: Flow, head: Option<Task>, now: nat, after: Store, status: Status): Flow
    requires status == Admitted || status == Expired || status == MarkerSkipped ==> head.Some?
  {
    match status
    case Admitted =>
      f.(store := after, running := f.running[head.value.id := Job(head.value, now)],
         admissions := f.admissions + [now as real], tally := f.tally.(admitted := f.tally.admitted + 1))
    case Denied => f.(store := after)
    case Yielded => f.(store := after)
    case _ =>
      f.(store := after, unmarked := f.unmarked - {head.value.id}, tally := f.tally.(dropped := f.tally.dropped + 1))
  }

  function ConsumeStep(f: Flow, head: Option<Task>, now: nat, s: Settings): Flow
    requires s.Valid() && IsHead(f.store.buffer, head)
  {
    var (after, result) := Consume(f.store, s, now, head);
    RecordOutcome(f, head, now, after, result.status)
  }

  /** Every action but a call of the consume script. */
  function SimpleStep(f: Flow, e: Event, s: Settings): Flow
    requires Enabled(f, e) && !e.action.ConsumeTask?
  {
    match e.action
    case ClaimTask(id, maxAge) => ClaimStep(f, id, maxAge, e.now, s)
    case RejectTask(id) => f
    case InsertTask(task, priority) => InsertStep(f, task, priority)
    case LoseReply(task, priority, cleaned) => LostReplyStep(f, task, priority, cleaned)
    case InsertFails(id, cleaned) => FailStep(f, id, cleaned)
    case ReleaseTask(id) =>
      f.(store := Release(f.store, id), running := f.running - {id}, unmarked := f.unmarked - {id},
         tally := f.tally.(released := f.tally.released + 1))
    case RenewLease(id, duration) => f.(store := Renew(f.store, id, duration, e.now).0)
    case WorkerDies(id) =>
      f.(running := f.running - {id}, abandoned := f.abandoned + {id}, unmarked := f.unmarked - {id},
         tally := f.tally.(crashed := f.tally.crashed + 1))
  }

  function ActionStep(f: Flow, e: Event, s: Settings): Flow
    requires s.Valid() && Enabled(f, e)
  {
    if e.action.ConsumeTask? then ConsumeStep(f, e.action.head, e.now, s.(worker := e.action.worker))
    else SimpleStep(f, e, s)
  }

  function Apply(f: Flow, e: Event, s: Settings): Flow
    requires s.Valid() && Enabled(f, e)
  {
    ActionStep(f.(clock := e.now), e, s)
  }

  ghost predicate Behavior(f: Flow, events: seq<Event>, s: Settings)
    requires s.Valid()
    decreases |events|
  {
    events == [] || (Enabled(f, events[0]) && Behavior(Apply(f, events[0], s), events[1..], s))
  }

  ghost function After(f: Flow, events: seq<Event>, s: Settings): Flow
    requires s.Valid() && Behavior(f, events, s)
    decreases |events|
  {
    if events == [] then f else After(Apply(f, events[0], s), events[1..], s)
  }

  /** The store follows the scripts, action by action; a renewal may come at any time. */
  lemma StoreFollowsScripts(f: Flow, e: Event, s: Settings)
    requires s.Valid() && Enabled(f, e)
    ensures var store, after := f.store, Apply(f, e, s).store;
            match e.action
            case ClaimTask(id, maxAge) => Claim(store, id, InflightTtl(maxAge, s), e.now) == (after, true)
            case RejectTask(id) => after == store
            case InsertTask(task, priority) => after == Schedule(store, task, priority)
            case LoseReply(task, priority, cleaned) =>
              after == if cleaned then Unclaim(Schedule(store, task, priority), task.id)
                       else Schedule(store, task, priority)
            case InsertFails(id, cleaned) => after == if cleaned then Unclaim(store, id) else store
            case ConsumeTask(worker, head) => after == Consume(store, s.(worker := worker), e.now, head).0
            case ReleaseTask(id) => after == Release(store, id)
            case RenewLease(id, duration) => after == Renew(store, id, duration, e.now).0
            case WorkerDies(id) => after == store
    ensures forall id, duration :: Enabled(f, Event(e.now, RenewLease(id, duration)))
  {}

  // ---------------------------------------------------------------------------
  // Exclusive places
  // ---------------------------------------------------------------------------

  ghost predicate Apart(claiming: set<TaskId>, buffered: set<TaskId>, running: set<TaskId>, abandoned: set<TaskId>) {
    && claiming !! buffered && claiming !! running && running !! buffered
    && abandoned !! claiming + buffered + running
    && "" !in claiming + buffered + running
  }

  ghost predicate OneMemberPerId(buffer: map<Task, real>) {
    forall t, u :: t in buffer && u in buffer && t.id == u.id ==> t == u
  }

  /** Each task is in one place, once. */
  ghost predicate Exclusive(f: Flow) {
    && Apart(f.claiming, BufferedIds(f.store.buffer), f.running.Keys, f.abandoned)
    && OneMemberPerId(f.store.buffer)
  }

  /** Claims, insertions and admissions are all accounted for. */
  ghost predicate Conserved(f: Flow) {
    && f.tally.claims == f.tally.failed + |f.claiming| + f.tally.inserted
    && f.tally.inserted == |f.store.buffer| + f.tally.admitted + f.tally.dropped
    && f.tally.admitted == |f.running| + f.tally.released + f.tally.crashed
  }

  lemma BufferedIdsInsert(buffer: map<Task, real>, t: Task, priority: real)
    ensures BufferedIds(buffer[t := priority]) == BufferedIds(buffer) + {t.id}
  {
    var after := buffer[t := priority];
    forall id | id in BufferedIds(buffer) + {t.id} ensures id in BufferedIds(after) {
      if id == t.id { assert t in after; } else {
        var u :| u in buffer && u.id == id;
        assert u in after;
      }
    }
  }

  lemma BufferedIdsRemove(buffer: map<Task, real>, t: Task)
    requires t in buffer && forall u, v :: u in buffer && v in buffer && u.id == v.id ==> u == v
    ensures BufferedIds(buffer - {t}) == BufferedIds(buffer) - {t.id}
  {
    var after := buffer - {t};
    forall id | id in BufferedIds(buffer) - {t.id} ensures id in BufferedIds(after) {
      var u :| u in buffer && u.id == id;
      assert u in after;
    }
  }

  lemma MemberIsBuffered(buffer: map<Task, real>)
    ensures forall t :: t in buffer ==> t.id in BufferedIds(buffer)
  {}

  lemma InsertKeeps(f: Flow, task: Task, priority: real, f': Flow)
    requires Exclusive(f) && task.id in f.claiming
    requires f'.store.buffer == f.store.buffer[task := priority] && f'.claiming == f.claiming - {task.id}
    requires f'.running == f.running && f'.abandoned == f.abandoned
    ensures Exclusive(f') && Held(f') == Held(f) && task !in f.store.buffer
  {
    BufferedIdsInsert(f.store.buffer, task, priority);
    MemberIsBuffered(f.store.buffer);
    assert Held(f') == Held(f);
  }

  /** The task leaves its place; it may be remembered as abandoned. */
  lemma LeaveKeeps(f: Flow, id: TaskId, f': Flow)
    requires Exclusive(f) && id in Held(f)
    requires f'.claiming == f.claiming - {id} && f'.running == f.running - {id}
    requires f'.abandoned == f.abandoned || f'.abandoned == f.abandoned + {id}
    requires BufferedIds(f'.store.buffer) == BufferedIds(f.store.buffer) - {id}
        && f'.store.buffer.Keys <= f.store.buffer.Keys
    ensures Exclusive(f') && Held(f') == Held(f) - {id}
  {
    assert Held(f') == Held(f) - {id};
  }

  /** An admitted task moves from the buffer to the running ones. */
  lemma AdmitKeeps(f: Flow, t: Task, job: Job, f': Flow)
    requires Exclusive(f) && t in f.store.buffer
    requires f'.claiming == f.claiming && f'.running == f.running[t.id := job] && f'.abandoned == f.abandoned
    requires f'.store.buffer == f.store.buffer - {t}
    ensures Exclusive(f') && Held(f') == Held(f) && t.id !in f.running
  {
    MemberIsBuffered(f.store.buffer);
    BufferedIdsRemove(f.store.buffer, t);
    assert Held(f') == Held(f);
  }

  /** An expired task, and a marker whose caller gave up, leave the buffer for good. */
  lemma DiscardKeeps(f: Flow, t: Task, f': Flow)
    requires Exclusive(f) && t in f.store.buffer
    requires f'.claiming == f.claiming && f'.running == f.running && f'.abandoned == f.abandoned
    requires f'.store.buffer == f.store.buffer - {t}
    ensures Exclusive(f') && Held(f') == Held(f) - {t.id}
  {
    MemberIsBuffered(f.store.buffer);
    BufferedIdsRemove(f.store.buffer, t);
    assert f'.running == f.running - {t.id} && f'.claiming == f.claiming - {t.id};
    LeaveKeeps(f, t.id, f');
  }

  /** Nothing moves. */
  lemma StillKeeps(f: Flow, f': Flow)
    requires Exclusive(f)
    requires f'.claiming == f.claiming && f'.running == f.running && f'.abandoned == f.abandoned
    requires f'.store.buffer == f.store.buffer
    ensures Exclusive(f') && Held(f') == Held(f)
  {}

  lemma ClaimKeeps(f: Flow, id: TaskId, f': Flow)
    requires Exclusive(f) && id !in Held(f) && id != ""
    requires f'.claiming == f.claiming + {id} && f'.running == f.running && f'.abandoned == f.abandoned - {id}
    requires f'.store.buffer == f.store.buffer
    ensures Exclusive(f') && Held(f') == Held(f) + {id}
  {
    assert Held(f') == Held(f) + {id};
  }

  lemma OutcomeKeeps(f: Flow, head: Option<Task>, now: nat, s: Settings, after: Store, status: Status)
    requires IsHead(f.store.buffer, head) && Exclusive(f) && ConsumeEffect(f.store, s, now, head, after, status)
    ensures Exclusive(RecordOutcome(f, head, now, after, status))
    ensures status == Admitted ==> head.value.id !in f.running
    ensures Held(RecordOutcome(f, head, now, after, status))
         == if status == Expired || status == MarkerSkipped then Held(f) - {head.value.id} else Held(f)
  {
    var f' := RecordOutcome(f, head, now, after, status);
    if status == Denied || status == Yielded {
      StillKeeps(f, f');
    } else {
      PopEffect(Called(f.store, s, now), s, now, head.value);
      if status == Admitted {
        AdmitKeeps(f, head.value, Job(head.value, now), f');
      } else {
        DiscardKeeps(f, head.value, f');
      }
    }
  }

  /** Every action but a consumption and a claim of a task that is held. */
  lemma SimpleKeeps(f: Flow, e: Event, s: Settings, f': Flow)
    requires Exclusive(f) && Enabled(f, e) && !ClaimsHeld(f, e) && !e.action.ConsumeTask?
    requires f' == SimpleStep(f, e, s)
    ensures Exclusive(f')
  {
    match e.action
    case ClaimTask(id, maxAge) => ClaimKeeps(f, id, f');
    case RejectTask(_) =>
    case InsertTask(task, priority) => InsertKeeps(f, task, priority, f');
    case LoseReply(task, priority, _) => InsertKeeps(f, task, priority, f');
    case InsertFails(id, _) => LeaveKeeps(f, id, f');
    case ReleaseTask(id) => LeaveKeeps(f, id, f');
    case RenewLease(_, _) => StillKeeps(f, f');
    case WorkerDies(id) => LeaveKeeps(f, id, f');
  }

  lemma ConsumeKeeps(f: Flow, head: Option<Task>, now: nat, s: Settings)
    requires s.Valid() && IsHead(f.store.buffer, head) && Exclusive(f) && Conserved(f)
    ensures Exclusive(ConsumeStep(f, head, now, s)) && Conserved(ConsumeStep(f, head, now, s))
  {
    var (after, result) := Consume(f.store, s, now, head);
    ConsumeHasEffect(f.store, s, now, head);
    OutcomeKeeps(f, head, now, s, after, result.status);
    OutcomeConserves(f, head, now, s, after, result.status);
  }

  // ---------------------------------------------------------------------------
  // Conservation
  // ---------------------------------------------------------------------------

  lemma OutcomeConserves(f: Flow, head: Option<Task>, now: nat, s: Settings, after: Store, status: Status)
    requires IsHead(f.store.buffer, head) && ConsumeEffect(f.store, s, now, head, after, status)
    requires Conserved(f) && (status == Admitted ==> head.value.id !in f.running)
    ensures Conserved(RecordOutcome(f, head, now, after, status))
  {
    if status != Denied && status != Yielded {
      PopEffect(Called(f.store, s, now), s, now, head.value);
      RemoveCount(f.store.buffer, head.value);
      InsertCount(f.running, head.value.id, Job(head.value, now));
    }
  }

  lemma SetCounts<T>(a: set<T>, x: T)
    ensures |a + {x}| == |a| + if x in a then 0 else 1
    ensures x in a ==> |a - {x}| == |a| - 1
  {
    if x in a { assert a + {x} == a; assert a == (a - {x}) + {x}; }
  }

  lemma InsertConserves(f: Flow, task: Task, priority: real, f': Flow)
    requires Exclusive(f) && Conserved(f) && task.id in f.claiming
    requires f'.store.buffer == f.store.buffer[task := priority] && f'.claiming == f.claiming - {task.id}
    requires f'.running == f.running && f'.tally == f.tally.(inserted := f.tally.inserted + 1)
    ensures Conserved(f')
  {
    MemberIsBuffered(f.store.buffer);
    SetCounts(f.claiming, task.id);
    InsertCount(f.store.buffer, task, priority);
  }

  lemma FailureConserves(f: Flow, id: TaskId, f': Flow)
    requires Conserved(f) && id in f.claiming
    requires f'.store.buffer == f.store.buffer && f'.claiming == f.claiming - {id}
    requires f'.running == f.running && f'.tally == f.tally.(failed := f.tally.failed + 1)
    ensures Conserved(f')
  {
    SetCounts(f.claiming, id);
  }

  lemma EndConserves(f: Flow, id: TaskId, f': Flow)
    requires Conserved(f) && id in f.running
    requires f'.store.buffer == f.store.buffer && f'.claiming == f.claiming && f'.running == f.running - {id}
    requires f'.tally == f.tally.(released := f.tally.released + 1)
        || f'.tally == f.tally.(crashed := f.tally.crashed + 1)
    ensures Conserved(f')
  {
    RemoveCount(f.running, id);
  }

  /** A claim is accounted for iff nobody is claiming the same task already. */
  lemma ClaimConservesIff(f: Flow, id: TaskId, maxAge: Option<int>, now: nat, s: Settings)
    requires Conserved(f)
    ensures Conserved(ClaimStep(f, id, maxAge, now, s)) <==> id !in f.claiming
  {
    SetCounts(f.claiming, id);
  }

  lemma LostReplyConserves(f: Flow, task: Task, priority: real, cleaned: bool)
    requires Exclusive(f) && Conserved(f) && task.id in f.claiming
    ensures Conserved(LostReplyStep(f, task, priority, cleaned))
  {
    InsertConserves(f, task, priority, InsertStep(f, task, priority));
  }

  lemma FailConserves(f: Flow, id: TaskId, cleaned: bool)
    requires Conserved(f) && id in f.claiming
    ensures Conserved(FailStep(f, id, cleaned))
  {
    FailureConserves(f, id, FailStep(f, id, cleaned));
  }

  lemma EndStepConserves(f: Flow, e: Event, s: Settings)
    requires Conserved(f) && Enabled(f, e) && (e.action.ReleaseTask? || e.action.WorkerDies?)
    ensures Conserved(SimpleStep(f, e, s))
  {
    EndConserves(f, e.action.id, SimpleStep(f, e, s));
  }

  lemma SimpleConserves(f: Flow, e: Event, s: Settings)
    requires Exclusive(f) && Conserved(f) && Enabled(f, e) && !ClaimsHeld(f, e) && !e.action.ConsumeTask?
    ensures Conserved(SimpleStep(f, e, s))
  {
    match e.action
    case ClaimTask(id, maxAge) => ClaimConservesIff(f, id, maxAge, e.now, s);
    case InsertTask(task, priority) => InsertConserves(f, task, priority, InsertStep(f, task, priority));
    case LoseReply(task, priority, cleaned) => LostReplyConserves(f, task, priority, cleaned);
    case InsertFails(id, cleaned) => FailConserves(f, id, cleaned);
    case ReleaseTask(_) => EndStepConserves(f, e, s);
    case WorkerDies(_) => EndStepConserves(f, e, s);
    case _ =>
  }

  // ---------------------------------------------------------------------------
  // The exact condition
  // ---------------------------------------------------------------------------

  ghost predicate InOrder(f: Flow) {
    Exclusive(f) && Conserved(f)
  }

  /** The event claims a task that somebody is scheduling, that is buffered, or that is running. */
  predicate ClaimsHeld(f: Flow, e: Event) {
    e.action.ClaimTask? && e.action.id in Held(f)
  }

  lemma KeptUnlessHeldIsClaimed(f: Flow, e: Event, s: Settings)
    requires s.Valid() && InOrder(f) && Enabled(f, e) && !ClaimsHeld(f, e)
    ensures InOrder(ActionStep(f, e, s))
  {
    if e.action.ConsumeTask? {
      ConsumeKeeps(f, e.action.head, e.now, s.(worker := e.action.worker));
    } else {
      SimpleKeeps(f, e, s, SimpleStep(f, e, s));
      SimpleConserves(f, e, s);
    }
  }

  lemma HeldClaimBreaks(f: Flow, id: TaskId, maxAge: Option<int>, now: nat, s: Settings)
    requires InOrder(f) && id in Held(f)
    ensures !InOrder(ClaimStep(f, id, maxAge, now, s))
  {
    ClaimConservesIff(f, id, maxAge, now, s);
    var f' := ClaimStep(f, id, maxAge, now, s);
    assert id in f'.claiming && f'.running == f.running && f'.store.buffer == f.store.buffer;
  }

  /** One step keeps every task in one place, and all of them accounted for, iff it is no claim of a
      task that is held. */
  lemma StepKeepsOrderIff(f: Flow, e: Event, s: Settings)
    requires s.Valid() && InOrder(f) && Enabled(f, e)
    ensures InOrder(Apply(f, e, s)) <==> !ClaimsHeld(f, e)
  {
    var g := f.(clock := e.now);
    StillKeeps(f, g);
    if ClaimsHeld(f, e) {
      HeldClaimBreaks(g, e.action.id, e.action.maxAge, e.now, s);
    } else {
      KeptUnlessHeldIsClaimed(g, e, s);
    }
  }

  ghost predicate Throughout(f: Flow, events: seq<Event>, s: Settings)
    requires s.Valid() && Behavior(f, events, s)
    decreases |events|
  {
    InOrder(f) && (events == [] || Throughout(Apply(f, events[0], s), events[1..], s))
  }

  ghost predicate NobodyClaimsHeld(f: Flow, events: seq<Event>, s: Settings)
    requires s.Valid() && Behavior(f, events, s)
    decreases |events|
  {
    events == [] || (!ClaimsHeld(f, events[0]) && NobodyClaimsHeld(Apply(f, events[0], s), events[1..], s))
  }

  /** Through a run, every task is in one place and nothing is lost, at every moment, iff no task is
      claimed while it is held. */
  lemma {:induction false} RunKeepsOrderIff(f: Flow, events: seq<Event>, s: Settings)
    requires s.Valid() && InOrder(f) && Behavior(f, events, s)
    ensures Throughout(f, events, s) <==> NobodyClaimsHeld(f, events, s)
    decreases |events|
  {
    if events != [] {
      StepKeepsOrderIff(f, events[0], s);
      if !ClaimsHeld(f, events[0]) {
        RunKeepsOrderIff(Apply(f, events[0], s), events[1..], s);
      }
    }
  }

  // ---------------------------------------------------------------------------
  // Slots and rate
  // ---------------------------------------------------------------------------

  lemma SimpleSlotStep(f: Flow, e: Event, s: Settings)
    requires Enabled(f, e) && !e.action.ConsumeTask?
    ensures |SimpleStep(f, e, s).store.leases| <= |f.store.leases|
  {
    match e.action
    case RenewLease(id, duration) =>
      if id in f.store.leases { InsertCount(f.store.leases, id, Seconds(e.now) + duration); }
    case ReleaseTask(id) =>
      SubsetCardinality((f.store.leases - {id}).Keys, f.store.leases.Keys);
    case _ =>
  }

  lemma SlotStep(f: Flow, e: Event, s: Settings)
    requires s.Valid() && Enabled(f, e) && |f.store.leases| <= s.maxConcurrency
    ensures |Apply(f, e, s).store.leases| <= s.maxConcurrency
  {
    var g := f.(clock := e.now);
    if e.action.ConsumeTask? {
      SlotsBounded(f.store, s.(worker := e.action.worker), e.now, e.action.head);
    } else {
      SimpleSlotStep(g, e, s);
    }
  }

  /** In every run at most `maxConcurrency` slots are leased. */
  lemma {:induction false} SlotsNeverExceeded(f: Flow, events: seq<Event>, s: Settings)
    requires s.Valid() && Behavior(f, events, s) && |f.store.leases| <= s.maxConcurrency
    ensures |After(f, events, s).store.leases| <= s.maxConcurrency
    decreases |events|
  {
    if events != [] {
      SlotStep(f, events[0], s);
      SlotsNeverExceeded(Apply(f, events[0], s), events[1..], s);
    }
  }

  /** The counters are those of a run of the admission rule at the instants of the admissions. */
  ghost predicate CountersMatch(f: Flow, s: Settings)
    requires s.Valid()
  {
    && Run(f.admissions, s.WindowMs(), s.limit) == Outcome(f.store.counters, f.admissions)
    && Chronological(f.admissions)
    && forall i :: 0 <= i < |f.admissions| ==> f.admissions[i] <= f.clock as real
  }

  lemma AdmissionIsAttempt(admissions: seq<real>, counters: Counters, s: Settings, now: nat)
    requires s.Valid() && Run(admissions, s.WindowMs(), s.limit) == Outcome(counters, admissions)
    requires Estimated(counters, s, now) < s.limit as real
    ensures Run(admissions + [now as real], s.WindowMs(), s.limit)
         == Outcome(Counted(counters, s, now), admissions + [now as real])
  {
    assert (admissions + [now as real])[..|admissions|] == admissions;
  }

  /** The caller's identity enters neither the estimate nor the counters. */
  lemma WorkerIrrelevant(counters: Counters, s: Settings, worker: WorkerId, now: nat)
    requires s.Valid()
    ensures Estimated(counters, s.(worker := worker), now) == Estimated(counters, s, now)
    ensures Counted(counters, s.(worker := worker), now) == Counted(counters, s, now)
  {}

  lemma OutcomeMatches(f: Flow, head: Option<Task>, now: nat, s: Settings, s': Settings, after: Store, status: Status)
    requires s.Valid() && CountersMatch(f, s) && f.clock == now
    requires ConsumeEffect(f.store, s', now, head, after, status)
    requires status == Admitted ==> Estimated(f.store.counters, s, now) < s.limit as real
    requires Counted(f.store.counters, s', now) == Counted(f.store.counters, s, now)
    ensures CountersMatch(RecordOutcome(f, head, now, after, status), s)
  {
    if status != Denied && status != Yielded {
      PopEffect(Called(f.store, s', now), s', now, head.value);
      if status == Admitted { AdmissionIsAttempt(f.admissions, f.store.counters, s, now); }
    }
  }

  lemma ConsumeMatches(f: Flow, worker: WorkerId, head: Option<Task>, s: Settings)
    requires s.Valid() && CountersMatch(f, s) && IsHead(f.store.buffer, head)
    ensures CountersMatch(ConsumeStep(f, head, f.clock, s.(worker := worker)), s)
  {
    var s' := s.(worker := worker);
    var (after, result) := Consume(f.store, s', f.clock, head);
    ConsumeHasEffect(f.store, s', f.clock, head);
    WorkerIrrelevant(f.store.counters, s, worker, f.clock);
    if result.status == Admitted { PopHadRoom(f.store, s', f.clock, head); }
    OutcomeMatches(f, head, f.clock, s, s', after, result.status);
  }

  lemma CountedStep(f: Flow, e: Event, s: Settings)
    requires s.Valid() && Enabled(f, e) && CountersMatch(f, s)
    ensures CountersMatch(Apply(f, e, s), s)
  {
    var g := f.(clock := e.now);
    assert CountersMatch(g, s);
    if e.action.ConsumeTask? {
      ConsumeMatches(g, e.action.worker, e.action.head, s);
    } else {
      SimpleKeepsCounters(g, e, s);
    }
  }

  lemma SimpleKeepsCounters(f: Flow, e: Event, s: Settings)
    requires Enabled(f, e) && !e.action.ConsumeTask?
    ensures var f' := SimpleStep(f, e, s);
            f'.store.counters == f.store.counters && f'.admissions == f.admissions && f'.clock == f.clock
  {
    match e.action
    case ClaimTask(_, _) =>
    case RenewLease(_, _) =>
    case _ =>
  }

  lemma {:induction false} BoundKept(f: Flow, events: seq<Event>, s: Settings, now: real)
    requires s.Valid() && Behavior(f, events, s) && CountersMatch(f, s)
    ensures RollingBoundAt(After(f, events, s).admissions, s.WindowMs(), s.limit, now)
    decreases |events|
  {
    if events == [] {
      RollingBound(f.admissions, s.WindowMs(), s.limit, now);
    } else {
      CountedStep(f, events[0], s);
      BoundKept(Apply(f, events[0], s), events[1..], s, now);
    }
  }

  /** However many drains share the limiter, any interval of one window's length sees no more
      admissions than the sliding window bound allows. */
  lemma AdmissionsWithinRollingBound(events: seq<Event>, s: Settings, now: real)
    requires s.Valid() && Behavior(INITIAL, events, s)
    ensures RollingBoundAt(After(INITIAL, events, s).admissions, s.WindowMs(), s.limit, now)
  {
    BoundKept(INITIAL, events, s, now);
  }
}
