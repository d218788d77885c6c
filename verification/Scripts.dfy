/** The state the scripts keep in Redis and the atomic step each script takes on it. */
module Scripts {
  import opened Options
  import opened Collections
  import opened SlidingWindow
  import TokenRecovery

  type TaskId = string
  type WorkerId = string

  /** A buffered task.  `timeoutMs` is set on acquire markers only; `maxAge` is the per-task override. */
  datatype Task = Task(id: TaskId, isMarker: bool, arrivedAt: nat, maxAge: Option<int>, timeoutMs: Option<int>)

  /** Buffer and leases are sorted sets (member to score); lease scores are expiry seconds; the
      in-flight markers map to their expiry in milliseconds. */
  datatype Store = Store(
    counters: Counters,
    buffer: map<Task, real>,
    leases: map<TaskId, int>,
    markers: map<TaskId, real>,
    dlq: seq<Task>,
    lastConsumer: Option<WorkerId>,
    lastCaller: Option<WorkerId>)

  /** The arguments of the consume script; `window` is in seconds. */
  datatype Settings = Settings(window: real, limit: nat, maxConcurrency: int, maxAge: int, lease: int,
                               worker: WorkerId) {
    function WindowMs(): real { window * 1000.0 }
    predicate Valid() { window > 0.0 }
  }

  datatype Status = Admitted | Denied | Expired | MarkerSkipped | Yielded

  datatype ConsumeResult = ConsumeResult(
    status: Status,
    task: Option<Task>,
    remainingTokens: int,
    active: nat,
    resetInMs: int,
    remainingTasks: int,
    previous: nat,
    current: nat)

  const EMPTY := Store(map[], map[], map[], map[], [], None, None)

  /** `ZRANGE buffer 0 0`: a member of least score. */
  predicate IsHead(buffer: map<Task, real>, head: Option<Task>) {
    match head
    case None => buffer == map[]
    case Some(t) => t in buffer && forall u :: u in buffer ==> buffer[t] <= buffer[u]
  }

  /** Redis time in whole seconds. */
  function Seconds(nowMs: nat): nat { nowMs / 1000 }

  /** Reclaim the leases whose score lies before the current second. */
  function Reap(leases: map<TaskId, int>, nowMs: nat): map<TaskId, int> {
    map id | id in leases && leases[id] > Seconds(nowMs) - 1 :: leases[id]
  }

  function Estimated(counters: Counters, s: Settings, nowMs: nat): real
    requires s.Valid()
  {
    var index := WindowIndex(nowMs as real, s.WindowMs());
    Estimate(Read(counters, index - 1, nowMs as real), Read(counters, index, nowMs as real), s.WindowMs(),
             nowMs as real - WindowStart(index, s.WindowMs()))
  }

  function RemainingTokens(counters: Counters, s: Settings, nowMs: nat): nat
    requires s.Valid()
  {
    var left := (s.limit as real - Estimated(counters, s, nowMs)).Floor;
    if left < 0 then 0 else left
  }

  predicate MustYield(store: Store, worker: WorkerId) {
    store.lastConsumer == Some(worker) && store.lastCaller.Some? && store.lastCaller != Some(worker)
  }

  /** The task's age in seconds exceeds its own maximum or the limiter's. */
  predicate IsExpired(t: Task, s: Settings, nowMs: nat) {
    Seconds(nowMs) - Seconds(t.arrivedAt) > (if t.maxAge.Some? then t.maxAge.value else s.maxAge)
  }

  predicate DeadlinePassed(t: Task, nowMs: nat) {
    t.isMarker && t.timeoutMs.Some? && nowMs >= t.arrivedAt + t.timeoutMs.value
  }

  predicate MayAdmit(counters: Counters, leases: map<TaskId, int>, s: Settings, nowMs: nat)
    requires s.Valid()
  {
    Estimated(counters, s, nowMs) < s.limit as real && |leases| < s.maxConcurrency
  }

  /** The counters after an admission. */
  function Counted(counters: Counters, s: Settings, nowMs: nat): Counters
    requires s.Valid()
  {
    Increment(counters, WindowIndex(nowMs as real, s.WindowMs()), nowMs as real, s.WindowMs())
  }

  /** Take `t` off the buffer: bury it if it is too old, drop a marker whose caller has given up,
      otherwise count the admission and lease a slot. */
  function PopHead(store: Store, s: Settings, nowMs: nat, t: Task): (Store, Status)
    requires s.Valid()
  {
    var popped := store.(buffer := store.buffer - {t});
    if IsExpired(t, s, nowMs) then
      (popped.(dlq := if t.isMarker then store.dlq else store.dlq + [t], markers := store.markers - {t.id}), Expired)
    else if DeadlinePassed(t, nowMs) then
      (popped.(markers := store.markers - {t.id}), MarkerSkipped)
    else
      (popped.(counters := Counted(store.counters, s, nowMs),
               leases := store.leases[t.id := Seconds(nowMs) + s.lease],
               lastConsumer := Some(s.worker)),
       Admitted)
  }

  /** What a call that does not yield reports before it pops anything. */
  function Telemetry(store: Store, s: Settings, nowMs: nat): ConsumeResult
    requires s.Valid()
  {
    var index := WindowIndex(nowMs as real, s.WindowMs());
    ConsumeResult(Denied, None, RemainingTokens(store.counters, s, nowMs), |store.leases|,
                  TokenRecovery.ReportedReset(nowMs, s.WindowMs()), |store.buffer|,
                  Read(store.counters, index - 1, nowMs as real), Read(store.counters, index, nowMs as real))
  }

  /** The store after the lines that run on every call: expired leases reclaimed, caller recorded. */
  function Called(store: Store, s: Settings, nowMs: nat): Store {
    store.(leases := Reap(store.leases, nowMs), lastCaller := Some(s.worker))
  }

  /** consume.lua: dequeue at most one task and admit it if rate and concurrency allow. */
  function Consume(store: Store, s: Settings, nowMs: nat, head: Option<Task>): (Store, ConsumeResult)
    requires s.Valid() && IsHead(store.buffer, head)
  {
    var called := Called(store, s, nowMs);
    if MustYield(store, s.worker) then
      (called, ConsumeResult(Yielded, None, 0, |called.leases|, 0, 0, 0, 0))
    else
      var result := Telemetry(called, s, nowMs);
      if !MayAdmit(called.counters, called.leases, s, nowMs) || head.None? then (called, result)
      else
        var (after, status) := PopHead(called, s, nowMs, head.value);
        var shorter := result.(status := status, remainingTasks := result.remainingTasks - 1);
        (after,
         if status != Admitted then shorter
         else shorter.(task := head, remainingTokens := result.remainingTokens - 1,
                       active := result.active + 1, current := result.current + 1))
  }

  /** schedule.lua: insert the task, stamped with the time of arrival. */
  function Schedule(store: Store, t: Task, priority: real): Store {
    store.(buffer := store.buffer[t := priority])
  }

  /** release.lua: free the slot and clear the in-flight marker; an empty id is a no-op. */
  function Release(store: Store, id: TaskId): Store {
    if id == "" then store else store.(leases := store.leases - {id}, markers := store.markers - {id})
  }

  /** renew.lua: extend a lease that is still held; the flag tells whether it was. */
  function Renew(store: Store, id: TaskId, duration: int, nowMs: nat): (Store, bool) {
    if id in store.leases then (store.(leases := store.leases[id := Seconds(nowMs) + duration]), true)
    else (store, false)
  }

  /** Whether an in-flight marker is visible. */
  predicate IsLive(markers: map<TaskId, real>, id: TaskId, nowMs: nat) {
    id in markers && nowMs as real <= markers[id]
  }

  /** `SET marker NX EX ttl`: claim the right to schedule; refused while a marker is live. */
  function Claim(store: Store, id: TaskId, ttl: int, nowMs: nat): (Store, bool) {
    if IsLive(store.markers, id, nowMs) then (store, false)
    else (store.(markers := store.markers[id := nowMs as real + 1000.0 * ttl as real]), true)
  }

  /** `DEL marker`, after a failed insertion. */
  function Unclaim(store: Store, id: TaskId): Store {
    store.(markers := store.markers - {id})
  }

  // ---------------------------------------------------------------------------
  // What the telemetry of a result means
  // ---------------------------------------------------------------------------

  /** A call either pops the head or leaves everything but the leases and the caller alone. */
  ghost predicate ConsumeEffect(store: Store, s: Settings, nowMs: nat, head: Option<Task>, after: Store,
                                status: Status) {
    && s.Valid()
    && (if status == Denied || status == Yielded then after == Called(store, s, nowMs)
        else head.Some? && (after, status) == PopHead(Called(store, s, nowMs), s, nowMs, head.value))
  }

  lemma ConsumeHasEffect(store: Store, s: Settings, nowMs: nat, head: Option<Task>)
    requires s.Valid() && IsHead(store.buffer, head)
    ensures ConsumeEffect(store, s, nowMs, head, Consume(store, s, nowMs, head).0,
                          Consume(store, s, nowMs, head).1.status)
  {}

  /** What popping the head does to the sets a task can be in. */
  lemma PopEffect(store: Store, s: Settings, nowMs: nat, t: Task)
    requires s.Valid()
    ensures var (after, status) := PopHead(store, s, nowMs, t);
            && (status == Admitted || status == Expired || status == MarkerSkipped)
            && after.buffer == store.buffer - {t}
            && after.markers == (if status == Admitted then store.markers else store.markers - {t.id})
            && after.counters == (if status == Admitted then Counted(store.counters, s, nowMs) else store.counters)
            && (status == Expired <==> IsExpired(t, s, nowMs))
  {}

  lemma PopCounts(store: Store, s: Settings, nowMs: nat, t: Task)
    requires s.Valid() && t in store.buffer
    ensures var (after, status) := PopHead(store, s, nowMs, t);
            && |after.buffer| == |store.buffer| - 1
            && |after.leases| == |store.leases| + (if status == Admitted && t.id !in store.leases then 1 else 0)
  {
    RemoveCount(store.buffer, t);
    InsertCount(store.leases, t.id, Seconds(nowMs) + s.lease);
  }

  /** Unless the script yields, the reported task count is that of the state it leaves; and the
      reported slot count is too, iff the call does not admit a task whose id still holds a lease,
      which it counts twice. */
  lemma ResultReportsState(store: Store, s: Settings, nowMs: nat, head: Option<Task>)
    requires s.Valid() && IsHead(store.buffer, head)
    ensures var (after, result) := Consume(store, s, nowMs, head);
            && (result.status != Yielded ==> result.remainingTasks == |after.buffer|)
            && (result.active == |after.leases|
                <==> !(result.status == Admitted && head.value.id in Reap(store.leases, nowMs)))
  {
    if head.Some? { PopCounts(Called(store, s, nowMs), s, nowMs, head.value); }
  }

  /** At most `maxConcurrency` slots are ever leased. */
  lemma SlotsBounded(store: Store, s: Settings, nowMs: nat, head: Option<Task>)
    requires s.Valid() && IsHead(store.buffer, head) && |store.leases| <= s.maxConcurrency
    ensures |Consume(store, s, nowMs, head).0.leases| <= s.maxConcurrency
  {
    ReapShrinks(store.leases, nowMs);
    if head.Some? { PopCounts(Called(store, s, nowMs), s, nowMs, head.value); }
  }

  lemma ReapShrinks(leases: map<TaskId, int>, nowMs: nat)
    ensures |Reap(leases, nowMs)| <= |leases|
  {
    SubsetCardinality(Reap(leases, nowMs).Keys, leases.Keys);
  }

  /** A denial with tasks left has a reason: no free slot, or not even one token. */
  lemma DenialHasReason(store: Store, s: Settings, nowMs: nat, head: Option<Task>)
    requires s.Valid() && IsHead(store.buffer, head)
    requires Consume(store, s, nowMs, head).1.status == Denied && Consume(store, s, nowMs, head).1.remainingTasks > 0
    ensures var result := Consume(store, s, nowMs, head).1;
            result.active >= s.maxConcurrency
            || (result.remainingTokens == 0 && Estimated(store.counters, s, nowMs) >= s.limit as real)
  {}

  /** A script that pops a task had a free slot and was below the limit. */
  lemma PopHadRoom(store: Store, s: Settings, nowMs: nat, head: Option<Task>)
    requires s.Valid() && IsHead(store.buffer, head)
    requires Consume(store, s, nowMs, head).1.status != Denied && Consume(store, s, nowMs, head).1.status != Yielded
    ensures MayAdmit(store.counters, Reap(store.leases, nowMs), s, nowMs)
    ensures Consume(store, s, nowMs, head).1.status != Admitted
        ==> Consume(store, s, nowMs, head).1.active < s.maxConcurrency
  {}

  lemma NoCountersNoEstimate(s: Settings, nowMs: nat)
    requires s.Valid()
    ensures Estimated(map[], s, nowMs) == 0.0
  {
    var start := WindowStart(WindowIndex(nowMs as real, s.WindowMs()), s.WindowMs());
    var weight := (s.WindowMs() - (nowMs as real - start)) / s.WindowMs();
    assert 0.0 * weight == 0.0;
  }

  // ---------------------------------------------------------------------------
  // What a call of the consume script does
  // ---------------------------------------------------------------------------

  /** An admitted result carries the task that was taken off the buffer; no other result carries one. */
  lemma ResultNamesHead(store: Store, s: Settings, nowMs: nat, head: Option<Task>)
    requires s.Valid() && IsHead(store.buffer, head)
    ensures var (after, r) := Consume(store, s, nowMs, head);
            && (r.status == Admitted ==> head.Some? && r.task == head && head.value !in after.buffer)
            && (r.status != Admitted ==> r.task == None)
            && (r.status == Expired || r.status == MarkerSkipped ==> head.Some? && head.value !in after.buffer)
  {}

  /** A call that yields reports the leased slots and nothing else. */
  lemma YieldReportsSlots(store: Store, s: Settings, nowMs: nat, head: Option<Task>)
    requires s.Valid() && IsHead(store.buffer, head) && Consume(store, s, nowMs, head).1.status == Yielded
    ensures var (after, r) := Consume(store, s, nowMs, head);
            && r.active == |after.leases| && r.remainingTokens == r.resetInMs == r.remainingTasks == 0
            && r.previous == r.current == 0
  {}

  /** A claim is refused exactly while a marker is live, and then changes nothing; otherwise it sets the
      marker to expire after its lifetime, and nothing else. */
  lemma ClaimIff(store: Store, id: TaskId, ttl: int, nowMs: nat)
    ensures var (after, claimed) := Claim(store, id, ttl, nowMs);
            && (claimed <==> !(id in store.markers && store.markers[id] >= nowMs as real))
            && (!claimed ==> after == store)
            && (claimed ==> after == store.(markers := after.markers) && id in after.markers
                            && after.markers[id] == nowMs as real + 1000.0 * ttl as real
                            && after.markers - {id} == store.markers - {id})
  {}

  /** There is a turn, a free slot and room in the window for this caller. */
  ghost predicate HasRoom(store: Store, s: Settings, nowMs: nat)
    requires s.Valid()
  {
    && !(store.lastConsumer == Some(s.worker) && store.lastCaller.Some? && store.lastCaller.value != s.worker)
    && Estimated(store.counters, s, nowMs) < s.limit as real
    && |set id | id in store.leases && store.leases[id] >= nowMs / 1000| < s.maxConcurrency
  }

  /** The task has waited, in whole seconds, for longer than its own maximum or the limiter's. */
  ghost predicate Overage(t: Task, s: Settings, nowMs: nat) {
    nowMs / 1000 - t.arrivedAt / 1000 > match t.maxAge { case Some(own) => own case None => s.maxAge }
  }

  /** Its caller has given up waiting. */
  ghost predicate GivenUp(t: Task, nowMs: nat) {
    t.isMarker && exists timeout :: t.timeoutMs == Some(timeout) && nowMs - t.arrivedAt >= timeout
  }

  lemma LiveLeases(leases: map<TaskId, int>, nowMs: nat)
    ensures Reap(leases, nowMs).Keys == set id | id in leases && leases[id] >= nowMs / 1000
    ensures |Reap(leases, nowMs)| == |set id | id in leases && leases[id] >= nowMs / 1000|
  {
    assert Reap(leases, nowMs).Keys == set id | id in leases && leases[id] >= nowMs / 1000;
    assert |Reap(leases, nowMs)| == |Reap(leases, nowMs).Keys|;
  }

  lemma RoomIff(store: Store, s: Settings, nowMs: nat)
    requires s.Valid()
    ensures HasRoom(store, s, nowMs)
       <==> !MustYield(store, s.worker) && MayAdmit(store.counters, Reap(store.leases, nowMs), s, nowMs)
  {
    LiveLeases(store.leases, nowMs);
  }

  lemma AgeIff(t: Task, s: Settings, nowMs: nat)
    ensures Overage(t, s, nowMs) <==> IsExpired(t, s, nowMs)
    ensures GivenUp(t, nowMs) <==> DeadlinePassed(t, nowMs)
  {}

  /** What becomes of the head of the buffer: nothing without room; otherwise an overage task is
      buried, a marker whose caller has given up is skipped, and anything else is admitted. */
  lemma OutcomeIff(store: Store, s: Settings, nowMs: nat, head: Option<Task>)
    requires s.Valid() && IsHead(store.buffer, head)
    ensures var status := Consume(store, s, nowMs, head).1.status;
            var popped := HasRoom(store, s, nowMs) && head.Some?;
            && (status == Expired <==> popped && Overage(head.value, s, nowMs))
            && (status == MarkerSkipped <==> popped && !Overage(head.value, s, nowMs) && GivenUp(head.value, nowMs))
            && (status == Admitted <==> popped && !Overage(head.value, s, nowMs) && !GivenUp(head.value, nowMs))
  {
    RoomIff(store, s, nowMs);
    if head.Some? { AgeIff(head.value, s, nowMs); }
  }

  /** Who called and who was admitted last; and the dead letters, to which only a buried task that is
      no marker is added. */
  lemma WhoCalled(store: Store, s: Settings, nowMs: nat, head: Option<Task>)
    requires s.Valid() && IsHead(store.buffer, head)
    ensures var (after, r) := Consume(store, s, nowMs, head);
            && after.lastCaller == Some(s.worker)
            && after.lastConsumer == (if r.status == Admitted then Some(s.worker) else store.lastConsumer)
            && after.dlq == store.dlq + (if r.status == Expired && !head.value.isMarker then [head.value] else [])
  {}

  /** The buffer, the markers and the counters after the call: a call that is denied or yields leaves
      them; any other takes the head off, and with a task that is not admitted its marker. */
  lemma WhatIsLeft(store: Store, s: Settings, nowMs: nat, head: Option<Task>)
    requires s.Valid() && IsHead(store.buffer, head)
    ensures var (after, r) := Consume(store, s, nowMs, head);
            var popped := r.status != Denied && r.status != Yielded;
            && after.buffer == (if popped then store.buffer - {head.value} else store.buffer)
            && after.markers == (if popped && r.status != Admitted then store.markers - {head.value.id}
                                 else store.markers)
            && (r.status != Admitted ==> after.counters == store.counters)
  {
    if head.Some? { PopEffect(Called(store, s, nowMs), s, nowMs, head.value); }
  }

  /** The leases after the call: those of the present second or later, and a new one for an admitted
      task, which no call reclaims until its duration has passed. */
  lemma LeasesLeft(store: Store, s: Settings, nowMs: nat, head: Option<Task>, laterMs: nat)
    requires s.Valid() && IsHead(store.buffer, head)
    ensures var (after, r) := Consume(store, s, nowMs, head);
            && (forall id :: (r.status == Admitted ==> id != head.value.id) ==>
                  (id in after.leases <==> id in store.leases && store.leases[id] >= nowMs / 1000)
                  && (id in after.leases ==> after.leases[id] == store.leases[id]))
            && (r.status == Admitted ==>
                  && head.value.id in after.leases && after.leases[head.value.id] == nowMs / 1000 + s.lease
                  && (head.value.id in Reap(after.leases, laterMs) <==> laterMs / 1000 <= nowMs / 1000 + s.lease))
  {}

  /** The reported tokens: at least `k` iff `k` whole admissions fit under the limit before the call,
      less the one it made; and the reported current count is that of the counters it leaves. */
  lemma TokensReported(store: Store, s: Settings, nowMs: nat, head: Option<Task>, k: nat)
    requires s.Valid() && IsHead(store.buffer, head) && k > 0
    ensures var (after, r) := Consume(store, s, nowMs, head);
            r.status != Yielded ==>
              var tokens := r.remainingTokens + if r.status == Admitted then 1 else 0;
              tokens >= 0 && (tokens >= k <==> Estimated(store.counters, s, nowMs) <= (s.limit - k) as real)
  {
    var left := s.limit as real - Estimated(store.counters, s, nowMs);
    assert (s.limit - k) as real == s.limit as real - k as real;
    assert left.Floor >= k <==> left >= k as real;
  }

  lemma CountsReported(store: Store, s: Settings, nowMs: nat, head: Option<Task>)
    requires s.Valid() && IsHead(store.buffer, head)
    ensures var (after, r) := Consume(store, s, nowMs, head);
            var index := WindowIndex(nowMs as real, s.WindowMs());
            r.status != Yielded ==>
              && r.current == Read(after.counters, index, nowMs as real)
              && r.previous == Read(after.counters, index - 1, nowMs as real)
  {
    CountersLeft(store, s, nowMs, head);
    CountsOfTelemetry(store, s, nowMs, head);
    CountedReads(store.counters, s, nowMs);
  }

  lemma CountersLeft(store: Store, s: Settings, nowMs: nat, head: Option<Task>)
    requires s.Valid() && IsHead(store.buffer, head)
    ensures var (after, r) := Consume(store, s, nowMs, head);
            after.counters == if r.status == Admitted then Counted(store.counters, s, nowMs) else store.counters
  {
    ConsumeHasEffect(store, s, nowMs, head);
    if head.Some? { PopEffect(Called(store, s, nowMs), s, nowMs, head.value); }
  }

  lemma CountsOfTelemetry(store: Store, s: Settings, nowMs: nat, head: Option<Task>)
    requires s.Valid() && IsHead(store.buffer, head)
    ensures var r, t := Consume(store, s, nowMs, head).1, Telemetry(Called(store, s, nowMs), s, nowMs);
            r.status != Yielded ==>
              r.previous == t.previous && r.current == t.current + if r.status == Admitted then 1 else 0
  {}

  lemma CountedReads(counters: Counters, s: Settings, nowMs: nat)
    requires s.Valid()
    ensures var index := WindowIndex(nowMs as real, s.WindowMs());
            && Read(Counted(counters, s, nowMs), index, nowMs as real) == Read(counters, index, nowMs as real) + 1
            && Read(Counted(counters, s, nowMs), index - 1, nowMs as real) == Read(counters, index - 1, nowMs as real)
  {}

  /** Workers take turns: when another worker has called since a worker was admitted, without being
      admitted itself, the first yields its next call, and only that one. */
  lemma WorkersTakeTurns(store: Store, first: Settings, other: Settings, heads: seq<Option<Task>>, clock: seq<nat>)
    requires first.Valid() && other.Valid() && other.worker != first.worker && |heads| == |clock| == 4
    requires IsHead(store.buffer, heads[0]) && Consume(store, first, clock[0], heads[0]).1.status == Admitted
    requires var s1 := Consume(store, first, clock[0], heads[0]).0;
             && IsHead(s1.buffer, heads[1])
             && (var s2 := Consume(s1, other, clock[1], heads[1]).0;
                 && IsHead(s2.buffer, heads[2])
                 && IsHead(Consume(s2, first, clock[2], heads[2]).0.buffer, heads[3]))
    ensures var s1 := Consume(store, first, clock[0], heads[0]).0;
            var (s2, r2) := Consume(s1, other, clock[1], heads[1]);
            var (s3, r3) := Consume(s2, first, clock[2], heads[2]);
            && r2.status != Yielded
            && (r2.status != Admitted ==> r3.status == Yielded && s3.buffer == s2.buffer)
            && (r3.status == Yielded ==> Consume(s3, first, clock[3], heads[3]).1.status != Yielded)
  {
    var s1 := Consume(store, first, clock[0], heads[0]).0;
    WhoCalled(store, first, clock[0], heads[0]);
    YieldsIff(s1, other, clock[1], heads[1]);
    WhoCalled(s1, other, clock[1], heads[1]);
    var s2 := Consume(s1, other, clock[1], heads[1]).0;
    YieldsIff(s2, first, clock[2], heads[2]);
    WhoCalled(s2, first, clock[2], heads[2]);
    var s3 := Consume(s2, first, clock[2], heads[2]).0;
    YieldsIff(s3, first, clock[3], heads[3]);
  }

  lemma YieldsIff(store: Store, s: Settings, nowMs: nat, head: Option<Task>)
    requires s.Valid() && IsHead(store.buffer, head)
    ensures Consume(store, s, nowMs, head).1.status == Yielded
       <==> store.lastConsumer == Some(s.worker) && store.lastCaller.Some? && store.lastCaller.value != s.worker
  {}
}
