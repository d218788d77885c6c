/** The local slots of the in-process backends.  The capacity check and the increment of the counter
    are separate regions, with a call of the consume script between them, and completions interleave
    at any point; here any number of drainers share the counter, of which the backends have one.
  */
module LocalSlots {
  import opened Collections

  type TaskId = string
  type DrainerId = int

  /** A drainer holds nothing, has been told there is capacity, or has counted a task it is about to
      submit. */
  datatype Stage = Idle | Granted | Counted

  /** The counter, the tasks submitted and not finished, the stages of the drainers, and how many
      counted tasks will never be uncounted. */
  datatype Slots = Slots(dispatched: int, submitted: set<TaskId>, stages: map<DrainerId, Stage>, leaked: nat)

  datatype Event =
    | Check(drainer: DrainerId)
      // The consume script gave nothing to dispatch.
    | Nothing(drainer: DrainerId)
    | Count(drainer: DrainerId)
    | Submit(drainer: DrainerId, task: TaskId)
    | SubmitRaises(drainer: DrainerId)
    | Finish(task: TaskId)
      // A future cancelled before it ran: its clean-up never runs.
    | Cancel(task: TaskId)

  predicate At(s: Slots, drainer: DrainerId, stage: Stage) {
    drainer in s.stages && s.stages[drainer] == stage
  }

  predicate Enabled(s: Slots, e: Event) {
    match e
    case Check(d) => At(s, d, Idle)
    case Nothing(d) => At(s, d, Granted)
    case Count(d) => At(s, d, Granted)
    case Submit(d, task) => At(s, d, Counted) && task !in s.submitted
    case SubmitRaises(d) => At(s, d, Counted)
    case Finish(task) => task in s.submitted
    case Cancel(task) => task in s.submitted
  }

  function To(s: Slots, drainer: DrainerId, stage: Stage): Slots {
    s.(stages := s.stages[drainer := stage])
  }

  function Apply(s: Slots, e: Event, maxWorkers: nat): Slots
    requires Enabled(s, e)
  {
    match e
    case Check(d) => if s.dispatched < maxWorkers then To(s, d, Granted) else s
    case Nothing(d) => To(s, d, Idle)
    case Count(d) => To(s, d, Counted).(dispatched := s.dispatched + 1)
    case Submit(d, task) => To(s, d, Idle).(submitted := s.submitted + {task})
    case SubmitRaises(d) => To(s, d, Idle).(leaked := s.leaked + 1)
    case Finish(task) => s.(submitted := s.submitted - {task}, dispatched := s.dispatched - 1)
    case Cancel(task) => s.(submitted := s.submitted - {task}, leaked := s.leaked + 1)
  }

  ghost predicate Behavior(s: Slots, events: seq<Event>, maxWorkers: nat)
    decreases |events|
  {
    events == [] || (Enabled(s, events[0]) && Behavior(Apply(s, events[0], maxWorkers), events[1..], maxWorkers))
  }

  ghost function After(s: Slots, events: seq<Event>, maxWorkers: nat): Slots
    requires Behavior(s, events, maxWorkers)
    decreases |events|
  {
    if events == [] then s else After(Apply(s, events[0], maxWorkers), events[1..], maxWorkers)
  }

  ghost function AtStage(stages: map<DrainerId, Stage>, stage: Stage): set<DrainerId> {
    set d | d in stages && stages[d] == stage
  }

  /** A check grants a slot exactly while fewer are taken than there are workers; a count takes one, a
      finished task gives one back, and a drainer that has submitted may check again. */
  lemma SlotsTaken(s: Slots, e: Event, maxWorkers: nat)
    requires Enabled(s, e)
    ensures var s' := Apply(s, e, maxWorkers);
            && s'.dispatched == s.dispatched + (if e.Count? then 1 else if e.Finish? then -1 else 0)
            && (e.Check? ==> (At(s', e.drainer, Granted) <==> s.dispatched < maxWorkers))
            && (e.Submit? || e.SubmitRaises? || e.Nothing? ==> Enabled(s', Check(e.drainer)))
            && (e.Submit? ==> Enabled(s', Finish(e.task)) && s'.submitted == s.submitted + {e.task})
  {}

  /** Every counted slot is accounted for. */
  ghost predicate Balanced(s: Slots) {
    s.dispatched == |s.submitted| + |AtStage(s.stages, Counted)| + s.leaked
  }

  /** A drainer that has been told there is capacity may act on it after others have. */
  ghost predicate Bounded(s: Slots, maxWorkers: nat) {
    && s.stages != map[]
    && s.dispatched + |AtStage(s.stages, Granted)| <= maxWorkers + |s.stages| - 1
  }

  lemma Moves(stages: map<DrainerId, Stage>, d: DrainerId, stage: Stage, any: Stage)
    requires d in stages
    ensures |AtStage(stages[d := stage], any)|
         == |AtStage(stages, any)| + (if stage == any then 1 else 0) - (if stages[d] == any then 1 else 0)
    ensures |stages[d := stage]| == |stages|
  {
    var before, after := AtStage(stages, any), AtStage(stages[d := stage], any);
    assert after - {d} == before - {d};
    assert stages[d := stage].Keys == stages.Keys;
    assert d in before ==> before == before - {d} + {d};
    assert d in after ==> after == after - {d} + {d};
  }

  lemma AtStageFew(stages: map<DrainerId, Stage>, stage: Stage, d: DrainerId)
    requires d in stages && stages[d] != stage
    ensures |AtStage(stages, stage)| <= |stages| - 1
  {
    SubsetCardinality(AtStage(stages, stage), stages.Keys - {d});
  }

  lemma SlotStep(s: Slots, e: Event, maxWorkers: nat)
    requires Balanced(s) && Bounded(s, maxWorkers) && Enabled(s, e)
    ensures Balanced(Apply(s, e, maxWorkers)) && Bounded(Apply(s, e, maxWorkers), maxWorkers)
  {
    if !e.Finish? && !e.Cancel? {
      var stage := if e.Check? then Granted else if e.Count? then Counted else Idle;
      Moves(s.stages, e.drainer, stage, Granted);
      Moves(s.stages, e.drainer, stage, Counted);
      if e.Check? { AtStageFew(s.stages, Granted, e.drainer); }
    }
  }

  /** The counter is always the number of tasks submitted and not finished, plus those counted and
      not yet submitted, plus those that leaked; and with n drainers it never exceeds the number of
      workers by more than n - 1, so with one drainer it never exceeds it. */
  lemma {:induction false} CounterIsExact(s: Slots, events: seq<Event>, maxWorkers: nat)
    requires Balanced(s) && Bounded(s, maxWorkers) && Behavior(s, events, maxWorkers)
    ensures var end := After(s, events, maxWorkers);
            && Balanced(end) && 0 <= end.dispatched <= maxWorkers + |s.stages| - 1
            && (|s.stages| == 1 ==> |end.submitted| <= end.dispatched <= maxWorkers)
    decreases |events|
  {
    if events != [] {
      SlotStep(s, events[0], maxWorkers);
      StagesStay(s, events[0], maxWorkers);
      CounterIsExact(Apply(s, events[0], maxWorkers), events[1..], maxWorkers);
    }
  }

  lemma StagesStay(s: Slots, e: Event, maxWorkers: nat)
    requires Enabled(s, e)
    ensures Apply(s, e, maxWorkers).stages.Keys == s.stages.Keys && |Apply(s, e, maxWorkers).stages| == |s.stages|
  {
    assert Apply(s, e, maxWorkers).stages.Keys == s.stages.Keys;
    assert |s.stages| == |s.stages.Keys|;
    assert |Apply(s, e, maxWorkers).stages| == |Apply(s, e, maxWorkers).stages.Keys|;
  }

  ghost predicate NothingLeaks(events: seq<Event>) {
    forall i :: 0 <= i < |events| ==> !events[i].SubmitRaises? && !events[i].Cancel?
  }

  lemma {:induction false} LeaksOnlyGrow(s: Slots, events: seq<Event>, maxWorkers: nat)
    requires Behavior(s, events, maxWorkers)
    ensures After(s, events, maxWorkers).leaked >= s.leaked
    ensures After(s, events, maxWorkers).leaked == s.leaked <==> NothingLeaks(events)
    decreases |events|
  {
    if events != [] {
      LeaksOnlyGrow(Apply(s, events[0], maxWorkers), events[1..], maxWorkers);
      if NothingLeaks(events[1..]) && !events[0].SubmitRaises? && !events[0].Cancel? {
        forall i | 0 <= i < |events| ensures !events[i].SubmitRaises? && !events[i].Cancel? {
          if i > 0 { assert events[i] == events[1..][i - 1]; }
        }
      }
    }
  }

  /** When no drainer is between its check and its submission, the counter equals the number of
      unfinished tasks iff no submission has raised and no future was cancelled before it ran; a
      slot lost to either never comes back. */
  lemma ExactIff(s: Slots, events: seq<Event>, maxWorkers: nat)
    requires Balanced(s) && Bounded(s, maxWorkers) && Behavior(s, events, maxWorkers) && s.leaked == 0
    requires AtStage(After(s, events, maxWorkers).stages, Counted) == {}
    ensures After(s, events, maxWorkers).dispatched == |After(s, events, maxWorkers).submitted|
        <==> NothingLeaks(events)
  {
    CounterIsExact(s, events, maxWorkers);
    LeaksOnlyGrow(s, events, maxWorkers);
  }

  // ---------------------------------------------------------------------------
  // The counter of the thread pool and process pool backends
  // ---------------------------------------------------------------------------

  class PoolSlots {
    const maxWorkers: nat
    var localDispatched: int
    ghost var submitted: set<TaskId>
    ghost var stage: Stage
    ghost var leaked: nat

    ghost function State(): Slots reads this {
      Slots(localDispatched, submitted, map[0 := stage], leaked)
    }

    ghost predicate Valid() reads this {
      Balanced(State()) && Bounded(State(), maxWorkers)
    }

    constructor (maxWorkers: nat)
      ensures Valid() && this.maxWorkers == maxWorkers && State() == Slots(0, {}, map[0 := Idle], 0)
    {
      this.maxWorkers := maxWorkers;
      localDispatched, submitted, stage, leaked := 0, {}, Idle, 0;
      new;
      assert 0 in State().stages;
      assert AtStage(State().stages, Counted) == {} && AtStage(State().stages, Granted) == {};
    }

    method HasLocalCapacity() returns (free: bool)
      requires Valid() && stage.Idle?
      modifies this`stage
      ensures Valid() && State() == Apply(old(State()), Check(0), maxWorkers)
      ensures free <==> stage.Granted?
      ensures free <==> localDispatched < maxWorkers
    {
      SlotStep(State(), Check(0), maxWorkers);
      free := localDispatched < maxWorkers;
      if free {
        stage := Granted;
        assert State().stages == old(State().stages)[0 := Granted];
      }
      assert State() == Apply(old(State()), Check(0), maxWorkers);
    }

    /** The first region of a dispatch. */
    method CountTask()
      requires Valid() && stage.Granted?
      modifies this`localDispatched, this`stage
      ensures Valid() && State() == Apply(old(State()), Count(0), maxWorkers)
    {
      SlotStep(State(), Count(0), maxWorkers);
      localDispatched := localDispatched + 1;
      stage := Counted;
      assert State().stages == old(State().stages)[0 := Counted];
    }

    /** The call of the executor; when it raises, the count stays. */
    method SubmitTask(task: TaskId, raises: bool)
      requires Valid() && stage.Counted? && task !in submitted
      modifies this`submitted, this`stage, this`leaked
      ensures Valid() && State() == Apply(old(State()), if raises then SubmitRaises(0) else Submit(0, task), maxWorkers)
    {
      SlotStep(State(), if raises then SubmitRaises(0) else Submit(0, task), maxWorkers);
      stage := Idle;
      if raises { leaked := leaked + 1; } else { submitted := submitted + {task}; }
      assert State().stages == old(State().stages)[0 := Idle];
    }

    /** The clean-up after a task, whatever its outcome. */
    method TaskDone(task: TaskId)
      requires Valid() && task in submitted
      modifies this`localDispatched, this`submitted
      ensures Valid() && State() == Apply(old(State()), Finish(task), maxWorkers)
      ensures localDispatched >= 0
    {
      SlotStep(State(), Finish(task), maxWorkers);
      localDispatched := localDispatched - 1;
      submitted := submitted - {task};
    }
  }

  // ---------------------------------------------------------------------------
  // The counter of the event loop backend
  // ---------------------------------------------------------------------------

  class TaskSlots {
    const maxTasks: nat
    var activeCount: int
    var activeTasks: set<TaskId>
    ghost var granted: bool

    /** A task cancelled before its first step leaves both the count and the set unchanged, so they
        agree even then; a shutdown clears both. */
    ghost predicate Valid() reads this {
      activeCount == |activeTasks| && activeCount + (if granted then 1 else 0) <= maxTasks
    }

    constructor (maxTasks: nat)
      ensures Valid() && this.maxTasks == maxTasks && activeTasks == {} && !granted
    {
      this.maxTasks := maxTasks;
      activeCount, activeTasks, granted := 0, {}, false;
    }

    method HasLocalCapacity() returns (free: bool)
      requires Valid() && !granted
      modifies this`granted
      ensures Valid() && free == granted && (free <==> |activeTasks| < maxTasks)
    {
      free := activeCount < maxTasks;
      granted := free;
    }

    method Dispatch(task: TaskId)
      requires Valid() && granted && task !in activeTasks
      modifies this
      ensures Valid() && activeTasks == old(activeTasks) + {task} && !granted
    {
      activeCount := activeCount + 1;
      activeTasks := activeTasks + {task};
      granted := false;
    }

    method Done(task: TaskId)
      requires Valid() && task in activeTasks
      modifies this
      ensures Valid() && activeTasks == old(activeTasks) - {task} && granted == old(granted)
      ensures 0 <= activeCount == old(activeCount) - 1
    {
      activeCount := activeCount - 1;
      activeTasks := activeTasks - {task};
    }

    /** Cancel everything and wait: `finished` are the tasks whose clean-up runs meanwhile, the others
        were cancelled before their first step. */
    method Shutdown(finished: set<TaskId>)
      requires Valid() && finished <= activeTasks && !granted
      modifies this
      ensures Valid() && activeTasks == {} && activeCount == 0
    {
      if activeTasks != {} {
        ghost var all := activeTasks;
        var left := finished;
        while left != {}
          invariant left <= finished && left <= activeTasks && Valid() && !granted
          invariant activeTasks == all - (finished - left)
          decreases left
        {
          var task :| task in left;
          Done(task);
          left := left - {task};
        }
        activeTasks := {};
        activeCount := 0;
      }
    }
  }
}
