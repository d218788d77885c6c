/** What the in-flight marker of a task promises: when it keeps a second claim away, what its
    lifetime covers, and what a lost reply and a failed clean-up do to it.
  */
module TaskMarkers {
  import opened Options
  import opened Scripts
  import opened TaskFlow

  // ---------------------------------------------------------------------------
  // Markers and holders
  // ---------------------------------------------------------------------------

  /** What is held carries the marker of its claim, unless a lost reply took it away; a marker
      without a holder was left behind. */
  ghost predicate Marked(held: set<TaskId>, abandoned: set<TaskId>, unmarked: set<TaskId>,
                         markers: map<TaskId, real>, claims: map<TaskId, Claimed>) {
    && unmarked <= held
    && (forall id :: id in held ==> id in claims)
    && (forall id :: id in held && id !in unmarked ==> id in markers && markers[id] == claims[id].expiry)
    && (forall id :: id in markers ==> (id in held && id !in unmarked) || id in abandoned)
  }

  ghost predicate WellMarked(f: Flow) {
    Marked(Held(f), f.abandoned, f.unmarked, f.store.markers, f.claims)
  }

  lemma MarkedOutcome(f: Flow, head: Option<Task>, now: nat, s: Settings, after: Store, status: Status)
    requires IsHead(f.store.buffer, head) && Exclusive(f) && ConsumeEffect(f.store, s, now, head, after, status)
    requires WellMarked(f)
    ensures WellMarked(RecordOutcome(f, head, now, after, status))
  {
    OutcomeKeeps(f, head, now, s, after, status);
    if status != Denied && status != Yielded {
      PopEffect(Called(f.store, s, now), s, now, head.value);
    }
  }

  lemma MarkedInsert(f: Flow, task: Task, priority: real, cleaned: bool)
    requires Exclusive(f) && WellMarked(f) && task.id in f.claiming
    ensures WellMarked(InsertStep(f, task, priority)) && WellMarked(LostReplyStep(f, task, priority, cleaned))
  {
    InsertKeeps(f, task, priority, InsertStep(f, task, priority));
    InsertKeeps(f, task, priority, LostReplyStep(f, task, priority, cleaned));
    assert task.id in Held(f);
  }

  /** Nobody is both claiming a task and holding it unmarked. */
  ghost predicate UnmarkedElsewhere(f: Flow) {
    f.unmarked !! f.claiming
  }

  lemma MarkedFailure(f: Flow, id: TaskId, cleaned: bool)
    requires Exclusive(f) && WellMarked(f) && UnmarkedElsewhere(f) && id in f.claiming
    ensures Exclusive(FailStep(f, id, cleaned)) && WellMarked(FailStep(f, id, cleaned))
    ensures Held(FailStep(f, id, cleaned)) == Held(f) - {id}
  {
    LeaveKeeps(f, id, FailStep(f, id, cleaned));
  }

  lemma MarkedEnd(f: Flow, e: Event, s: Settings)
    requires Exclusive(f) && WellMarked(f) && Enabled(f, e) && (e.action.ReleaseTask? || e.action.WorkerDies?)
    ensures WellMarked(SimpleStep(f, e, s))
  {
    LeaveKeeps(f, e.action.id, SimpleStep(f, e, s));
  }

  lemma MarkedClaim(f: Flow, id: TaskId, maxAge: Option<int>, now: nat, s: Settings)
    requires Exclusive(f) && WellMarked(f) && id !in Held(f) && id != "" && !IsLive(f.store.markers, id, now)
    ensures WellMarked(ClaimStep(f, id, maxAge, now, s))
  {
    ClaimKeeps(f, id, ClaimStep(f, id, maxAge, now, s));
  }

  lemma MarkedSimple(f: Flow, e: Event, s: Settings)
    requires Exclusive(f) && WellMarked(f) && UnmarkedElsewhere(f)
    requires Enabled(f, e) && !ClaimsHeld(f, e) && !e.action.ConsumeTask?
    ensures WellMarked(SimpleStep(f, e, s))
  {
    match e.action
    case ClaimTask(id, maxAge) => MarkedClaim(f, id, maxAge, e.now, s);
    case InsertTask(task, priority) => MarkedInsert(f, task, priority, false);
    case LoseReply(task, priority, cleaned) => MarkedInsert(f, task, priority, cleaned);
    case InsertFails(id, cleaned) => MarkedFailure(f, id, cleaned);
    case ReleaseTask(_) => MarkedEnd(f, e, s);
    case WorkerDies(_) => MarkedEnd(f, e, s);
    case RenewLease(_, _) => StillKeeps(f, SimpleStep(f, e, s));
    case _ =>
  }

  lemma UnmarkedSimple(f: Flow, e: Event, s: Settings)
    requires WellMarked(f) && UnmarkedElsewhere(f) && Enabled(f, e) && !ClaimsHeld(f, e) && !e.action.ConsumeTask?
    ensures UnmarkedElsewhere(SimpleStep(f, e, s))
  {
    match e.action
    case ClaimTask(id, maxAge) => assert id !in f.unmarked;
    case _ =>
  }

  lemma UnmarkedOutcome(f: Flow, head: Option<Task>, now: nat, after: Store, status: Status)
    requires UnmarkedElsewhere(f) && (status != Denied && status != Yielded ==> head.Some?)
    ensures UnmarkedElsewhere(RecordOutcome(f, head, now, after, status))
  {}

  ghost predicate Guarded(f: Flow) {
    InOrder(f) && WellMarked(f) && UnmarkedElsewhere(f)
  }

  lemma ActionGuarded(f: Flow, e: Event, s: Settings)
    requires s.Valid() && Guarded(f) && Enabled(f, e) && !ClaimsHeld(f, e)
    ensures WellMarked(ActionStep(f, e, s)) && UnmarkedElsewhere(ActionStep(f, e, s))
  {
    if e.action.ConsumeTask? {
      var s' := s.(worker := e.action.worker);
      ConsumeHasEffect(f.store, s', e.now, e.action.head);
      var (after, result) := Consume(f.store, s', e.now, e.action.head);
      MarkedOutcome(f, e.action.head, e.now, s', after, result.status);
      UnmarkedOutcome(f, e.action.head, e.now, after, result.status);
    } else {
      MarkedSimple(f, e, s);
      UnmarkedSimple(f, e, s);
    }
  }

  lemma GuardedStep(f: Flow, e: Event, s: Settings)
    requires s.Valid() && Guarded(f) && Enabled(f, e) && !ClaimsHeld(f, e)
    ensures Guarded(Apply(f, e, s))
  {
    var g := f.(clock := e.now);
    StillKeeps(f, g);
    StepKeepsOrderIff(f, e, s);
    ActionGuarded(g, e, s);
  }

  // ---------------------------------------------------------------------------
  // When a held task can be claimed again
  // ---------------------------------------------------------------------------

  /** The marker of a held task keeps a second claim away exactly until it expires, and not at all
      once a lost reply has taken it away. */
  lemma HeldIsClaimableIff(f: Flow, id: TaskId, maxAge: Option<int>, now: nat)
    requires Guarded(f) && id in Held(f)
    ensures Enabled(f, Event(now, ClaimTask(id, maxAge)))
       <==> f.clock <= now && (id in f.unmarked || now as real > f.claims[id].expiry)
  {}

  /** No task is held past the time its marker was given, or without one. */
  ghost predicate Timely(f: Flow, now: nat) {
    f.unmarked == {} && forall id :: id in Held(f) ==> id in f.claims && now as real <= f.claims[id].expiry
  }

  ghost predicate TimelyBehavior(f: Flow, events: seq<Event>, s: Settings)
    requires s.Valid() && Behavior(f, events, s)
    decreases |events|
  {
    events == [] || (Timely(f, events[0].now) && TimelyBehavior(Apply(f, events[0], s), events[1..], s))
  }

  lemma TimelyHeldIsNotClaimed(f: Flow, e: Event)
    requires Guarded(f) && Enabled(f, e) && Timely(f, e.now)
    ensures !ClaimsHeld(f, e)
  {
    if ClaimsHeld(f, e) { HeldIsClaimableIff(f, e.action.id, e.action.maxAge, e.now); }
  }

  lemma {:induction false} TimelyRun(f: Flow, events: seq<Event>, s: Settings)
    requires s.Valid() && Guarded(f) && Behavior(f, events, s) && TimelyBehavior(f, events, s)
    ensures NobodyClaimsHeld(f, events, s) && Guarded(After(f, events, s))
    decreases |events|
  {
    if events != [] {
      TimelyHeldIsNotClaimed(f, events[0]);
      GuardedStep(f, events[0], s);
      TimelyRun(Apply(f, events[0], s), events[1..], s);
    }
  }

  /** While no task outstays its marker and no reply is lost, every task is claimed, buffered or
      running in exactly one place at every moment, with its marker, and nothing is lost. */
  lemma ExclusiveAndConserved(f: Flow, events: seq<Event>, s: Settings)
    requires s.Valid() && Guarded(f) && Behavior(f, events, s) && TimelyBehavior(f, events, s)
    ensures Throughout(f, events, s) && Guarded(After(f, events, s))
  {
    TimelyRun(f, events, s);
    RunKeepsOrderIff(f, events, s);
  }

  /** A task that is held is claimed, having outstayed its marker, or having none since the reply to
      its insertion was lost. */
  ghost predicate Duplicates(f: Flow, e: Event) {
    && Guarded(f) && ClaimsHeld(f, e)
    && (e.action.id in f.unmarked || e.now as real > f.claims[e.action.id].expiry)
  }

  lemma HeldClaimDuplicates(f: Flow, e: Event)
    requires Guarded(f) && Enabled(f, e) && ClaimsHeld(f, e)
    ensures Duplicates(f, e)
  {
    HeldIsClaimableIff(f, e.action.id, e.action.maxAge, e.now);
  }

  /** Such a claim happens in the run. */
  ghost predicate SomeDuplicate(f: Flow, events: seq<Event>, s: Settings)
    requires s.Valid() && Behavior(f, events, s)
    decreases |events|
  {
    events != [] && (Duplicates(f, events[0]) || SomeDuplicate(Apply(f, events[0], s), events[1..], s))
  }

  /** Order is lost in a run iff such a claim happens in it, made while everything was in order. */
  lemma {:induction false} OrderIsLostIff(f: Flow, events: seq<Event>, s: Settings)
    requires s.Valid() && Guarded(f) && Behavior(f, events, s)
    ensures !Throughout(f, events, s) <==> SomeDuplicate(f, events, s)
    decreases |events|
  {
    if events == [] {
    } else if ClaimsHeld(f, events[0]) {
      HeldClaimDuplicates(f, events[0]);
      RunKeepsOrderIff(f, events, s);
    } else {
      GuardedStep(f, events[0], s);
      OrderIsLostIff(Apply(f, events[0], s), events[1..], s);
    }
  }

  /** A live marker says exactly where its task is: being scheduled, buffered, running, or left
      behind by a holder that is gone. */
  lemma LiveMarkerHasOnePlace(f: Flow, id: TaskId, now: nat)
    requires Guarded(f) && IsLive(f.store.markers, id, now)
    ensures (id in f.claiming && id !in BufferedIds(f.store.buffer) && id !in f.running && id !in f.abandoned)
         || (id !in f.claiming && id in BufferedIds(f.store.buffer) && id !in f.running && id !in f.abandoned)
         || (id !in f.claiming && id !in BufferedIds(f.store.buffer) && id in f.running && id !in f.abandoned)
         || (id !in f.claiming && id !in BufferedIds(f.store.buffer) && id !in f.running && id in f.abandoned)
  {}

  // ---------------------------------------------------------------------------
  // Giving a claim back
  // ---------------------------------------------------------------------------

  /** What is left when a task has gone without a trace. */
  ghost predicate Freed(f: Flow, id: TaskId, f': Flow) {
    && id !in f'.store.markers && id !in Held(f') && id !in f'.abandoned
    && Held(f') == Held(f) - {id} && f'.store.markers == f.store.markers - {id} && f'.store.buffer == f.store.buffer
  }

  /** A failed insertion whose clean-up succeeds leaves neither marker nor holder of that task, and
      touches no other. */
  lemma FailureFreesOneTask(f: Flow, id: TaskId)
    requires Exclusive(f) && id in f.claiming
    ensures Freed(f, id, FailStep(f, id, true))
  {
    LeaveKeeps(f, id, FailStep(f, id, true));
  }

  /** So does a release. */
  lemma ReleaseFreesOneHolder(f: Flow, now: nat, id: TaskId, s: Settings)
    requires Exclusive(f) && Enabled(f, Event(now, ReleaseTask(id)))
    ensures Freed(f, id, SimpleStep(f, Event(now, ReleaseTask(id)), s))
  {
    LeaveKeeps(f, id, SimpleStep(f, Event(now, ReleaseTask(id)), s));
  }

  lemma FailureKeepsGuard(f: Flow, id: TaskId, cleaned: bool)
    requires Guarded(f) && id in f.claiming
    ensures Guarded(FailStep(f, id, cleaned)) && Held(FailStep(f, id, cleaned)) == Held(f) - {id}
  {
    MarkedFailure(f, id, cleaned);
    FailConserves(f, id, cleaned);
    var f' := FailStep(f, id, cleaned);
    assert f'.unmarked == f.unmarked && f'.claiming == f.claiming - {id};
  }

  /** A failed clean-up leaves a marker without a holder: order is kept, but until that marker
      expires nobody can schedule the task again. */
  lemma FailedCleanUpBlocks(f: Flow, id: TaskId, maxAge: Option<int>, now: nat)
    requires Guarded(f) && id in f.claiming && f.clock <= now
    ensures var f' := FailStep(f, id, false);
            && Guarded(f') && id !in Held(f') && id in f'.abandoned
            && (Enabled(f', Event(now, ClaimTask(id, maxAge))) <==> now as real > f.claims[id].expiry)
  {
    FailureKeepsGuard(f, id, false);
    assert id in f.store.markers && f.store.markers[id] == f.claims[id].expiry && id != "" by {
      assert id in Held(f) && id !in f.unmarked;
    }
    var f' := FailStep(f, id, false);
    assert f'.store.markers == f.store.markers && f'.clock == f.clock;
  }

  /** A lost reply leaves the task buffered.  Its marker is gone iff the clean-up succeeds, and only
      then is a second claim let in before the marker would have expired. */
  lemma LostReplyUnmarks(f: Flow, task: Task, priority: real, cleaned: bool, maxAge: Option<int>, now: nat)
    requires Guarded(f) && task.id in f.claiming && f.clock <= now <= f.claims[task.id].expiry.Floor
    ensures var f' := LostReplyStep(f, task, priority, cleaned);
            && Guarded(f') && task in f'.store.buffer && task.id in Held(f')
            && (Enabled(f', Event(now, ClaimTask(task.id, maxAge))) <==> cleaned)
  {
    var f' := LostReplyStep(f, task, priority, cleaned);
    MarkedInsert(f, task, priority, cleaned);
    LostReplyConserves(f, task, priority, cleaned);
    InsertKeeps(f, task, priority, f');
    assert task.id in Held(f) && task.id !in f.unmarked;
    HeldIsClaimableIff(f', task.id, maxAge, now);
  }

  // ---------------------------------------------------------------------------
  // How long a marker lasts
  // ---------------------------------------------------------------------------

  /** The maximum age the consume script applies. */
  function AppliedMaxAge(maxAgeOverride: Option<int>, s: Settings): int {
    match ScriptMaxAge(maxAgeOverride)
    case Some(age) => age
    case None => s.maxAge
  }

  /** The marker outlasts queueing up to the maximum age the script applies, one lease and one
      window, for every override except 0: there the lifetime counts one second, but the script
      falls back to the limiter's maximum age. */
  lemma TtlCovers(maxAgeOverride: Option<int>, s: Settings)
    requires s.Valid() && s.lease >= 1 && s.maxAge >= 1
    ensures AppliedMaxAge(maxAgeOverride, s) as real + s.lease as real + s.window
        <= InflightTtl(maxAgeOverride, s) as real
       <==> maxAgeOverride != Some(0) || s.maxAge == 1
  {
    var maxAge := if maxAgeOverride.Some? then maxAgeOverride.value else s.maxAge;
    var seconds := AtLeastOne(maxAge as real) + s.lease as real + AtLeastOne(s.window);
    CeilingBounds(seconds);
    if s.window < 1.0 && maxAgeOverride == Some(0) {
      assert seconds == (s.lease + 2) as real;
      assert seconds.Floor == s.lease + 2;
    }
  }

  lemma CeilingBounds(x: real)
    ensures x <= Ceiling(x) as real < x + 1.0
  {}

  /** Milliseconds a task may run for: a lease and a window. */
  function RunTime(s: Settings): real { 1000.0 * (s.lease as real + s.window) }

  /** The last millisecond at which the script still admits a task that arrived at `arrived`: it
      compares whole seconds. */
  function LastAdmission(arrived: nat, maxAge: int): int { 1000 * (Seconds(arrived) + maxAge) + 999 }

  /** The script admits at `now` a task of this arrival and override. */
  predicate Admissible(arrived: nat, maxAgeOverride: Option<int>, s: Settings, now: nat) {
    Seconds(now) - Seconds(arrived) <= AppliedMaxAge(maxAgeOverride, s)
  }

  lemma AdmissibleUntil(arrived: nat, maxAgeOverride: Option<int>, s: Settings, now: nat)
    ensures Admissible(arrived, maxAgeOverride, s, now)
        <==> now <= LastAdmission(arrived, AppliedMaxAge(maxAgeOverride, s))
  {}

  /** The latest admission that arrival allows, and a full run time after it, end before the marker
      of the claim does. */
  predicate ArrivesInTime(c: Claimed, arrived: nat, s: Settings) {
    LastAdmission(arrived, AppliedMaxAge(c.maxAge, s)) as real + RunTime(s) < c.expiry + 1.0
  }

  /** Every admission by the script, followed by a release within a lease and a window, happens
      before the marker expires. */
  ghost predicate AlwaysReleasedInTime(c: Claimed, arrived: nat, s: Settings) {
    forall admitted: nat, released: nat :: Punctual(c, arrived, s, admitted, released) ==> released as real <= c.expiry
  }

  /** The script admits the task, and it is released within a lease and a window of that. */
  predicate Punctual(c: Claimed, arrived: nat, s: Settings, admitted: nat, released: nat) {
    && arrived <= admitted && Admissible(arrived, c.maxAge, s, admitted)
    && ReleasedWithin(admitted, s, released)
  }

  ghost predicate Recorded(c: Claimed, s: Settings) {
    c.expiry == c.at as real + 1000.0 * InflightTtl(c.maxAge, s) as real
  }

  lemma WholeExpiry(c: Claimed, s: Settings)
    requires Recorded(c, s)
    ensures c.expiry == (c.at + 1000 * InflightTtl(c.maxAge, s)) as real
  {}

  lemma InTime(c: Claimed, arrived: nat, s: Settings, admitted: nat, released: nat)
    requires Recorded(c, s) && ArrivesInTime(c, arrived, s) && Admissible(arrived, c.maxAge, s, admitted)
    requires ReleasedWithin(admitted, s, released)
    ensures released as real <= c.expiry
  {
    WholeExpiry(c, s);
    AdmissibleUntil(arrived, c.maxAge, s, admitted);
    assert released < c.at + 1000 * InflightTtl(c.maxAge, s) + 1;
  }

  /** A marker outlives every task that the script admits and that is released within a lease and a
      window of that, iff the task arrived in time after the claim (or is too old on arrival). */
  lemma MarkerOutlivesIff(c: Claimed, arrived: nat, s: Settings)
    requires s.Valid() && s.lease >= 1 && Recorded(c, s)
    ensures AlwaysReleasedInTime(c, arrived, s) <==> AppliedMaxAge(c.maxAge, s) < 0 || ArrivesInTime(c, arrived, s)
  {
    WholeExpiry(c, s);
    var last := LastAdmission(arrived, AppliedMaxAge(c.maxAge, s));
    if AlwaysReleasedInTime(c, arrived, s) && AppliedMaxAge(c.maxAge, s) >= 0 {
      AdmissibleUntil(arrived, c.maxAge, s, last);
      var released := (last as real + RunTime(s)).Floor;
      assert Punctual(c, arrived, s, last, released);
    }
    if ArrivesInTime(c, arrived, s) {
      forall admitted: nat, released: nat | Punctual(c, arrived, s, admitted, released)
        ensures released as real <= c.expiry
      {
        InTime(c, arrived, s, admitted, released);
      }
    }
  }

  // ---------------------------------------------------------------------------
  // Punctual runs
  // ---------------------------------------------------------------------------

  /** What is on record agrees with what the scripts know: expiries, overrides, and that a running
      task was admitted within its age. */
  ghost predicate Documented(f: Flow, s: Settings) {
    && (forall id :: id in Held(f) ==> id in f.claims && Recorded(f.claims[id], s))
    && (forall t :: t in f.store.buffer ==> t.id in f.claims && t.maxAge == ScriptMaxAge(f.claims[t.id].maxAge))
    && (forall id :: id in f.running ==>
          id in f.claims && Admissible(f.running[id].task.arrivedAt, f.claims[id].maxAge, s, f.running[id].since))
  }

  lemma DocumentedClaim(f: Flow, id: TaskId, maxAge: Option<int>, now: nat, s: Settings)
    requires Exclusive(f) && Documented(f, s) && id !in Held(f) && id != ""
    ensures Documented(ClaimStep(f, id, maxAge, now, s), s)
  {
    var f' := ClaimStep(f, id, maxAge, now, s);
    ClaimKeeps(f, id, f');
    MemberIsBuffered(f.store.buffer);
  }

  lemma DocumentedInsert(f: Flow, task: Task, priority: real, cleaned: bool, now: nat, s: Settings)
    requires Exclusive(f) && Documented(f, s) && MayInsert(f, task, now)
    ensures Documented(InsertStep(f, task, priority), s) && Documented(LostReplyStep(f, task, priority, cleaned), s)
  {
    InsertKeeps(f, task, priority, InsertStep(f, task, priority));
    InsertKeeps(f, task, priority, LostReplyStep(f, task, priority, cleaned));
  }

  /** Nothing new is held. */
  lemma DocumentedLess(f: Flow, f': Flow, s: Settings)
    requires Documented(f, s) && Held(f') <= Held(f) && f'.claims == f.claims
    requires f'.store.buffer.Keys <= f.store.buffer.Keys
    requires forall id :: id in f'.running ==> id in f.running && f'.running[id] == f.running[id]
    ensures Documented(f', s)
  {}

  lemma DocumentedSimple(f: Flow, e: Event, s: Settings)
    requires Exclusive(f) && Documented(f, s) && Enabled(f, e) && !ClaimsHeld(f, e) && !e.action.ConsumeTask?
    ensures Documented(SimpleStep(f, e, s), s)
  {
    match e.action
    case ClaimTask(id, maxAge) => DocumentedClaim(f, id, maxAge, e.now, s);
    case InsertTask(task, priority) => DocumentedInsert(f, task, priority, false, e.now, s);
    case LoseReply(task, priority, cleaned) => DocumentedInsert(f, task, priority, cleaned, e.now, s);
    case RejectTask(_) =>
    case InsertFails(_, _) => DocumentedLess(f, SimpleStep(f, e, s), s);
    case ReleaseTask(_) => DocumentedLess(f, SimpleStep(f, e, s), s);
    case RenewLease(_, _) => DocumentedLess(f, SimpleStep(f, e, s), s);
    case WorkerDies(_) => DocumentedLess(f, SimpleStep(f, e, s), s);
  }

  lemma DocumentedAdmit(f: Flow, t: Task, now: nat, s: Settings, f': Flow)
    requires Exclusive(f) && Documented(f, s) && t in f.store.buffer && !IsExpired(t, s, now)
    requires f'.running == f.running[t.id := Job(t, now)] && f'.claims == f.claims && Held(f') == Held(f)
    requires f'.store.buffer == f.store.buffer - {t}
    ensures Documented(f', s)
  {}

  lemma DocumentedOutcome(f: Flow, head: Option<Task>, now: nat, s: Settings, s': Settings, after: Store,
                          status: Status)
    requires IsHead(f.store.buffer, head) && Exclusive(f) && ConsumeEffect(f.store, s', now, head, after, status)
    requires Documented(f, s) && s'.maxAge == s.maxAge
    ensures Documented(RecordOutcome(f, head, now, after, status), s)
  {
    var f' := RecordOutcome(f, head, now, after, status);
    OutcomeKeeps(f, head, now, s', after, status);
    if status == Denied || status == Yielded {
      DocumentedLess(f, f', s);
    } else {
      PopEffect(Called(f.store, s', now), s', now, head.value);
      if status == Admitted { DocumentedAdmit(f, head.value, now, s, f'); } else { DocumentedLess(f, f', s); }
    }
  }

  lemma DocumentedStep(f: Flow, e: Event, s: Settings)
    requires s.Valid() && InOrder(f) && Documented(f, s) && Enabled(f, e) && !ClaimsHeld(f, e)
    ensures Documented(Apply(f, e, s), s)
  {
    var g := f.(clock := e.now);
    StillKeeps(f, g);
    if e.action.ConsumeTask? {
      var s' := s.(worker := e.action.worker);
      ConsumeHasEffect(g.store, s', e.now, e.action.head);
      var (after, result) := Consume(g.store, s', e.now, e.action.head);
      DocumentedOutcome(g, e.action.head, e.now, s, s', after, result.status);
    } else {
      DocumentedSimple(g, e, s);
    }
  }

  /** A lease and a window after this admission, the marker is still live. */
  predicate AdmittedInTime(c: Claimed, since: nat, s: Settings) {
    since as real + RunTime(s) < c.expiry + 1.0
  }

  /** The task was admitted within its maximum age of the claim, and its override, if 0, did not
      shorten the marker. */
  predicate AdmittedWithinAge(c: Claimed, since: nat, s: Settings) {
    && since <= c.at + 1000 * AppliedMaxAge(c.maxAge, s)
    && (c.maxAge != Some(0) || s.maxAge == 1)
  }

  predicate ReleasedWithin(since: nat, s: Settings, released: nat) {
    released as real <= since as real + RunTime(s)
  }

  /** Every release within a lease and a window of the admission comes before the marker expires iff
      the admission was in time. */
  lemma AdmittedInTimeIff(c: Claimed, since: nat, s: Settings)
    requires s.Valid() && s.lease >= 1 && Recorded(c, s)
    ensures (forall released: nat :: ReleasedWithin(since, s, released) ==> released as real <= c.expiry)
       <==> AdmittedInTime(c, since, s)
  {
    WholeExpiry(c, s);
    var last := (since as real + RunTime(s)).Floor;
    assert ReleasedWithin(since, s, last);
    if AdmittedInTime(c, since, s) {
      forall released: nat | ReleasedWithin(since, s, released) ensures released as real <= c.expiry {
        assert released < c.at + 1000 * InflightTtl(c.maxAge, s) + 1;
      }
    }
  }

  /** An admission within the maximum age of the claim is in time. */
  lemma WithinAgeIsInTime(c: Claimed, since: nat, s: Settings)
    requires s.Valid() && s.lease >= 1 && s.maxAge >= 1 && Recorded(c, s) && AdmittedWithinAge(c, since, s)
    ensures AdmittedInTime(c, since, s)
  {
    TtlCovers(c.maxAge, s);
  }

  /** So is every admission by the script of a task that arrived in time. */
  lemma ArrivedInTimeIsInTime(f: Flow, id: TaskId, s: Settings)
    requires Documented(f, s) && id in f.running && id in f.claims
    requires ArrivesInTime(f.claims[id], f.running[id].task.arrivedAt, s)
    ensures AdmittedInTime(f.claims[id], f.running[id].since, s)
  {
    AdmissibleUntil(f.running[id].task.arrivedAt, f.claims[id].maxAge, s, f.running[id].since);
  }

  /** Every held task is on time at `now`: what is claimed or buffered has a live marker; what runs
      was admitted within its maximum age of the claim, or in time at any rate, and has not run for
      longer than a lease and a window.  No reply was lost. */
  ghost predicate OnTime(f: Flow, now: nat, s: Settings) {
    && f.unmarked == {}
    && (forall id :: id in f.claiming + BufferedIds(f.store.buffer) ==>
          id in f.claims && now as real <= f.claims[id].expiry)
    && (forall id :: id in f.running ==>
          && id in f.claims
          && (AdmittedWithinAge(f.claims[id], f.running[id].since, s)
              || AdmittedInTime(f.claims[id], f.running[id].since, s))
          && ReleasedWithin(f.running[id].since, s, now))
  }

  ghost predicate PunctualBehavior(f: Flow, events: seq<Event>, s: Settings)
    requires s.Valid() && Behavior(f, events, s)
    decreases |events|
  {
    events == [] || (OnTime(f, events[0].now, s) && PunctualBehavior(Apply(f, events[0], s), events[1..], s))
  }

  lemma OnTimeIsTimely(f: Flow, now: nat, s: Settings)
    requires s.Valid() && s.lease >= 1 && s.maxAge >= 1 && Documented(f, s) && OnTime(f, now, s)
    ensures Timely(f, now)
  {
    forall id | id in f.running ensures now as real <= f.claims[id].expiry {
      var c, since := f.claims[id], f.running[id].since;
      assert Recorded(c, s) by { assert id in Held(f); }
      if AdmittedWithinAge(c, since, s) { WithinAgeIsInTime(c, since, s); }
      AdmittedInTimeIff(c, since, s);
    }
  }

  /** In a run in which every held task is on time, none outstays its marker. */
  lemma {:induction false} PunctualRunIsTimely(f: Flow, events: seq<Event>, s: Settings)
    requires s.Valid() && s.lease >= 1 && s.maxAge >= 1 && Guarded(f) && Documented(f, s)
    requires Behavior(f, events, s) && PunctualBehavior(f, events, s)
    ensures TimelyBehavior(f, events, s)
    decreases |events|
  {
    if events != [] {
      OnTimeIsTimely(f, events[0].now, s);
      TimelyHeldIsNotClaimed(f, events[0]);
      GuardedStep(f, events[0], s);
      DocumentedStep(f, events[0], s);
      PunctualRunIsTimely(Apply(f, events[0], s), events[1..], s);
    }
  }

  /** So from the start on, punctual runs keep every task in one place, with its marker, and lose
      none. */
  lemma PunctualRunsKeepOrder(events: seq<Event>, s: Settings)
    requires s.Valid() && s.lease >= 1 && s.maxAge >= 1
    requires Behavior(INITIAL, events, s) && PunctualBehavior(INITIAL, events, s)
    ensures Throughout(INITIAL, events, s) && Guarded(After(INITIAL, events, s))
  {
    assert Guarded(INITIAL) && Documented(INITIAL, s);
    PunctualRunIsTimely(INITIAL, events, s);
    ExclusiveAndConserved(INITIAL, events, s);
  }

  lemma PunctualCons(f: Flow, e: Event, rest: seq<Event>, s: Settings)
    requires s.Valid() && Enabled(f, e) && OnTime(f, e.now, s)
    requires Behavior(Apply(f, e, s), rest, s) && PunctualBehavior(Apply(f, e, s), rest, s)
    ensures Behavior(f, [e] + rest, s) && PunctualBehavior(f, [e] + rest, s)
  {
    BehaviorCons(f, e, rest, s);
    assert ([e] + rest)[1..] == rest;
  }

  function OrdinaryClaim(claimed: nat, s: Settings): Claimed {
    Claimed(claimed, None, claimed as real + 1000.0 * InflightTtl(None, s) as real)
  }

  /** Nothing but this one task, claimed, is known. */
  ghost predicate OnlyClaimed(f: Flow, id: TaskId, c: Claimed) {
    && f.claiming == {id} && f.store.buffer == map[] && f.running == map[] && f.unmarked == {}
    && f.claims == map[id := c] && f.clock == c.at && f.store.markers == map[id := c.expiry]
    && f.store.counters == map[] && f.store.leases == map[] && f.store.lastConsumer == None
  }

  ghost predicate OnlyBuffered(f: Flow, task: Task, c: Claimed) {
    && f.claiming == {} && f.store.buffer == map[task := 0.0] && f.running == map[] && f.unmarked == {}
    && f.claims == map[task.id := c] && f.clock == task.arrivedAt && f.store.markers == map[task.id := c.expiry]
    && f.store.counters == map[] && f.store.leases == map[] && f.store.lastConsumer == None
  }

  ghost predicate OnlyRunning(f: Flow, job: Job, c: Claimed) {
    && f.claiming == {} && f.store.buffer == map[] && f.running == map[job.task.id := job] && f.unmarked == {}
    && f.claims == map[job.task.id := c] && f.clock == job.since && f.store.markers == map[job.task.id := c.expiry]
  }

  lemma FirstClaim(id: TaskId, claimed: nat, s: Settings)
    requires s.Valid() && id != ""
    ensures var e := Event(claimed, ClaimTask(id, None));
            && Enabled(INITIAL, e) && OnTime(INITIAL, claimed, s)
            && OnlyClaimed(Apply(INITIAL, e, s), id, OrdinaryClaim(claimed, s))
  {}

  lemma FirstInsert(f: Flow, task: Task, c: Claimed, s: Settings)
    requires s.Valid() && OnlyClaimed(f, task.id, c) && f.clock <= task.arrivedAt
    requires task.maxAge == None && c.maxAge == None && task.arrivedAt as real <= c.expiry
    ensures var e := Event(task.arrivedAt, InsertTask(task, 0.0));
            && Enabled(f, e) && OnTime(f, task.arrivedAt, s)
            && OnlyBuffered(Apply(f, e, s), task, c)
  {}

  lemma FirstConsume(f: Flow, task: Task, c: Claimed, now: nat, s: Settings)
    requires s.Valid() && s.limit >= 1 && s.maxConcurrency >= 1
    requires OnlyBuffered(f, task, c) && f.clock <= now <= c.expiry.Floor
    requires !IsExpired(task, s, now) && !task.isMarker
    ensures var e := Event(now, ConsumeTask(s.worker, Some(task)));
            && Enabled(f, e) && OnTime(f, now, s)
            && OnlyRunning(Apply(f, e, s), Job(task, now), c)
  {
    HeadIsAdmitted(f, task, now, s);
  }

  lemma FirstRelease(f: Flow, job: Job, c: Claimed, now: nat, s: Settings)
    requires s.Valid() && OnlyRunning(f, job, c) && f.clock <= now
    requires AdmittedWithinAge(c, job.since, s) && ReleasedWithin(job.since, s, now)
    ensures Enabled(f, Event(now, ReleaseTask(job.task.id))) && OnTime(f, now, s)
  {}

  /** The ordinary life of a task is such a run: scheduled at any time, inserted, consumed within its
      maximum age of the claim, and released within a lease and a window of that. */
  lemma OrdinaryLifeIsPunctual(id: TaskId, s: Settings, claimed: nat, inserted: nat, consumed: nat, released: nat)
    returns (events: seq<Event>)
    requires s.Valid() && s.lease >= 1 && s.maxAge >= 1 && s.limit >= 1 && s.maxConcurrency >= 1 && id != ""
    requires claimed <= inserted <= consumed <= claimed + 1000 * s.maxAge
    requires consumed <= released && ReleasedWithin(consumed, s, released)
    ensures |events| == 4 && events[2].action.ConsumeTask? && events[3] == Event(released, ReleaseTask(id))
    ensures Behavior(INITIAL, events, s) && PunctualBehavior(INITIAL, events, s)
  {
    var task, c := Task(id, false, inserted, None, None), OrdinaryClaim(claimed, s);
    var e0, e1 := Event(claimed, ClaimTask(id, None)), Event(inserted, InsertTask(task, 0.0));
    var e2, e3 := Event(consumed, ConsumeTask(s.worker, Some(task))), Event(released, ReleaseTask(id));
    events := [e0] + ([e1] + ([e2] + ([e3] + [])));
    OrdinaryExpiry(c, s);
    FirstClaim(id, claimed, s);
    var f1 := Apply(INITIAL, e0, s);
    FirstInsert(f1, task, c, s);
    var f2 := Apply(f1, e1, s);
    FirstConsume(f2, task, c, consumed, s);
    var f3 := Apply(f2, e2, s);
    FirstRelease(f3, Job(task, consumed), c, released, s);
    PunctualCons(f3, e3, [], s);
    PunctualCons(f2, e2, [e3] + [], s);
    PunctualCons(f1, e1, [e2] + ([e3] + []), s);
    PunctualCons(INITIAL, e0, [e1] + ([e2] + ([e3] + [])), s);
  }

  lemma OrdinaryExpiry(c: Claimed, s: Settings)
    requires s.Valid() && s.lease >= 1 && s.maxAge >= 1 && c == OrdinaryClaim(c.at, s)
    ensures c.expiry.Floor >= c.at + 1000 * s.maxAge
  {
    TtlCovers(None, s);
    WholeExpiry(c, s);
  }

  /** With nothing counted and nothing leased, a single young task is admitted. */
  lemma HeadIsAdmitted(f: Flow, task: Task, now: nat, s: Settings)
    requires s.Valid() && s.limit >= 1 && s.maxConcurrency >= 1 && f.clock <= now
    requires f.store.buffer == map[task := 0.0] && f.store.counters == map[] && f.store.leases == map[]
    requires f.store.lastConsumer == None && !IsExpired(task, s, now) && !task.isMarker && f.running == map[]
    ensures Enabled(f, Event(now, ConsumeTask(s.worker, Some(task))))
    ensures var f' := Apply(f, Event(now, ConsumeTask(s.worker, Some(task))), s);
            && f'.running == map[task.id := Job(task, now)] && f'.store.buffer == map[]
            && f'.claims == f.claims && f'.claiming == f.claiming && f'.unmarked == f.unmarked && f'.clock == now
            && f'.store.markers == f.store.markers
  {
    NoCountersNoEstimate(s, now);
    assert MayAdmit(f.store.counters, Reap(f.store.leases, now), s, now);
  }

  // ---------------------------------------------------------------------------
  // Where markers fall short
  // ---------------------------------------------------------------------------

  lemma BehaviorCons(f: Flow, e: Event, rest: seq<Event>, s: Settings)
    requires s.Valid() && Enabled(f, e) && Behavior(Apply(f, e, s), rest, s)
    ensures Behavior(f, [e] + rest, s) && After(f, [e] + rest, s) == After(Apply(f, e, s), rest, s)
  {
    assert ([e] + rest)[1..] == rest;
  }

  /** The defaults of an hour, half a minute and a window of a minute: a task admitted 3600.9 seconds
      after its arrival, hence within its maximum age by the script's whole seconds, may run for
      a lease and a window, but after 89.1 seconds of that it can be scheduled a second time. */
  lemma AdmittedTaskOutlivesMarker() returns (events: seq<Event>, s: Settings)
    ensures s == Settings(60.0, 1, 1, 3600, 30, "w") && Behavior(INITIAL, events, s)
    ensures var f := After(INITIAL, events, s);
            && "a" in f.running && f.running["a"].since == 3600900
            && Enabled(f, Event(3690001, ClaimTask("a", None)))
            && 3690001.0 <= f.running["a"].since as real + RunTime(s)
  {
    s := Settings(60.0, 1, 1, 3600, 30, "w");
    var task, c := Task("a", false, 0, None, None), OrdinaryClaim(0, s);
    var e0, e1 := Event(0, ClaimTask("a", None)), Event(0, InsertTask(task, 0.0));
    var e2 := Event(3600900, ConsumeTask("w", Some(task)));
    events := [e0] + ([e1] + ([e2] + []));
    assert c.expiry == 3690000.0;
    FirstClaim("a", 0, s);
    var f1 := Apply(INITIAL, e0, s);
    FirstInsert(f1, task, c, s);
    var f2 := Apply(f1, e1, s);
    FirstConsume(f2, task, c, 3600900, s);
    BehaviorCons(f2, e2, [], s);
    BehaviorCons(f1, e1, [e2] + [], s);
    BehaviorCons(INITIAL, e0, [e1] + ([e2] + []), s);
  }

  /** A task still buffered when its marker expires can be scheduled, and buffered, a second time. */
  lemma OverstayDuplicates() returns (events: seq<Event>, s: Settings)
    ensures s.Valid() && Behavior(INITIAL, events, s) && !OneMemberPerId(After(INITIAL, events, s).store.buffer)
  {
    s := Settings(1.0, 1, 1, 1, 1, "w");
    var early, late := Task("a", false, 0, None, None), Task("a", false, 3001, None, None);
    var e0, e1 := Event(0, ClaimTask("a", None)), Event(0, InsertTask(early, 0.0));
    var e2, e3 := Event(3001, ClaimTask("a", None)), Event(3001, InsertTask(late, 0.0));
    events := [e0] + ([e1] + ([e2] + ([e3] + [])));
    var f1 := Apply(INITIAL, e0, s);
    assert InflightTtl(None, s) == 3;
    var f2 := Apply(f1, e1, s);
    var f3 := Apply(f2, e2, s);
    var f4 := Apply(f3, e3, s);
    assert early in f4.store.buffer && late in f4.store.buffer;
    BehaviorCons(f3, e3, [], s);
    BehaviorCons(f2, e2, [e3] + [], s);
    BehaviorCons(f1, e1, [e2] + ([e3] + []), s);
    BehaviorCons(INITIAL, e0, [e1] + ([e2] + ([e3] + [])), s);
  }
}
