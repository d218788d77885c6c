/** What a drain decides to do next: how long after a call of the consume script the next drain is
    asked for, and how long after a failure.  A drain that asks for nothing leaves the buffer to
    somebody else; here is shown exactly when that happens.
  */
module FollowUp {
  import opened Options
  import opened Numbers
  import opened Scripts
  import opened Configuration
  import opened SlidingWindow
  import opened TokenRecovery

  /** Seconds between successive tokens. */
  function TokenInterval(c: Config): real {
    if c.limit > 0 then c.window / c.limit as real else c.window
  }

  predicate Proper(c: Config) {
    c.window > 0.0 && c.limit >= 0
  }

  function SettingsOf(c: Config, worker: WorkerId): Settings
    requires Proper(c)
  {
    Settings(c.window, c.limit, c.maxConcurrency, c.maxAge, c.leaseDuration, worker)
  }

  /** The sleep in seconds after a denial for lack of tokens. */
  function RetryDelay(r: ConsumeResult, c: Config, jitterMs: int): real {
    RetryMs(r.previous, r.current, r.resetInMs, c.limit, c.window, jitterMs) as real / 1000.0
  }

  /** The delay of the follow-up drain that a result asks for, if any. */
  function FollowUpDelay(r: ConsumeResult, c: Config, jitterMs: int): Option<real> {
    if r.status.Yielded? then Some(TokenInterval(c))
    else if r.status.Admitted? then if r.remainingTasks > 0 then Some(0.0) else None
    else if r.remainingTasks == 0 || r.active >= c.maxConcurrency then None
    else if r.status.MarkerSkipped? then if r.remainingTasks > 0 then Some(0.0) else None
    else if r.remainingTokens <= 0 then Some(RetryDelay(r, c, jitterMs))
    else None
  }

  /** A drain that asks for no follow-up although tasks are buffered has either found every slot
      leased, or buried an expired task while at least one token was left.  In the first the release
      of a slot wakes the loop, in the second only its watchdog does. */
  lemma StrandedIff(store: Store, c: Config, worker: WorkerId, nowMs: nat, head: Option<Task>, jitterMs: int)
    requires Proper(c) && IsHead(store.buffer, head)
    ensures var (after, r) := Consume(store, SettingsOf(c, worker), nowMs, head);
            after.buffer != map[] && FollowUpDelay(r, c, jitterMs).None?
            <==> after.buffer != map[]
                 && ((r.status.Denied? && |after.leases| >= c.maxConcurrency)
                     || (r.status.Expired?
                         && Estimated(store.counters, SettingsOf(c, worker), nowMs) <= c.limit as real - 1.0))
  {
    var s := SettingsOf(c, worker);
    var (after, r) := Consume(store, s, nowMs, head);
    TasksReported(store, s, nowMs, head);
    assert r.status.Denied? && after.buffer != map[] ==> r.active >= c.maxConcurrency || r.remainingTokens == 0 by {
      if r.status.Denied? && after.buffer != map[] { DenialHasReason(store, s, nowMs, head); }
    }
    if r.status.Expired? {
      PopHadRoom(store, s, nowMs, head);
      ExpiredTokens(store, s, nowMs, head);
    } else if r.status.MarkerSkipped? {
      PopHadRoom(store, s, nowMs, head);
    }
  }

  /** The same before the call: the call will not yield, and tasks are buffered with every slot
      leased once expired leases are reclaimed; or it may admit, the head is too old, more tasks
      are buffered, and a whole token is left. */
  predicate WillStrand(store: Store, c: Config, s: Settings, nowMs: nat, head: Option<Task>)
    requires s.Valid()
  {
    var leases := Reap(store.leases, nowMs);
    && !MustYield(store, s.worker)
    && ((store.buffer != map[] && |leases| >= c.maxConcurrency)
        || (head.Some? && |store.buffer| >= 2 && IsExpired(head.value, s, nowMs) && |leases| < c.maxConcurrency
            && Estimated(store.counters, s, nowMs) <= c.limit as real - 1.0))
  }

  lemma StrandedBeforeIff(store: Store, c: Config, worker: WorkerId, nowMs: nat, head: Option<Task>, jitterMs: int)
    requires Proper(c) && IsHead(store.buffer, head)
    ensures var s := SettingsOf(c, worker);
            var (after, r) := Consume(store, s, nowMs, head);
            after.buffer != map[] && FollowUpDelay(r, c, jitterMs).None? <==> WillStrand(store, c, s, nowMs, head)
  {
    var s := SettingsOf(c, worker);
    StrandedIff(store, c, worker, nowMs, head, jitterMs);
    OutcomeBefore(store, s, nowMs, head);
  }

  /** What the call denies and what it buries, before the call. */
  lemma OutcomeBefore(store: Store, s: Settings, nowMs: nat, head: Option<Task>)
    requires s.Valid() && IsHead(store.buffer, head)
    ensures var (after, r) := Consume(store, s, nowMs, head);
            var leases := Reap(store.leases, nowMs);
            && (r.status.Denied? && after.buffer != map[] && |after.leases| >= s.maxConcurrency
                <==> !MustYield(store, s.worker) && store.buffer != map[] && |leases| >= s.maxConcurrency)
            && (r.status.Expired? && after.buffer != map[]
                <==> !MustYield(store, s.worker) && MayAdmit(store.counters, leases, s, nowMs)
                     && head.Some? && IsExpired(head.value, s, nowMs) && |store.buffer| >= 2)
  {
    if head.Some? {
      PopCounts(Called(store, s, nowMs), s, nowMs, head.value);
      PopEffect(Called(store, s, nowMs), s, nowMs, head.value);
    }
  }

  /** Under any configuration that admits anything, the second case can arise: a task that could be
      admitted at once is left in the buffer, below the limit and with every slot free, and nobody
      is asked to fetch it. */
  lemma ExpiredHeadStrands(c: Config, worker: WorkerId, jitterMs: int)
    returns (store: Store, nowMs: nat, head: Option<Task>, waiting: Task)
    requires Proper(c) && c.limit >= 1 && c.maxConcurrency >= 1 && c.maxAge >= 0
    ensures IsHead(store.buffer, head)
    ensures var s := SettingsOf(c, worker);
            var (after, r) := Consume(store, s, nowMs, head);
            && after.buffer.Keys == {waiting} && FollowUpDelay(r, c, jitterMs).None?
            && !IsExpired(waiting, s, nowMs) && MayAdmit(after.counters, after.leases, s, nowMs)
            && after.leases == map[] && RemainingTokens(after.counters, s, nowMs) >= 1
  {
    var stale := Task("a", false, 0, None, None);
    nowMs := 1000 * (c.maxAge + 1);
    waiting := Task("b", false, nowMs, None, None);
    store := Scripts.EMPTY.(buffer := map[stale := 0.0, waiting := 0.0]);
    head := Some(stale);
    var s := SettingsOf(c, worker);
    NoCountersNoEstimate(s, nowMs);
    assert IsExpired(stale, s, nowMs);
    var (after, r) := Consume(store, s, nowMs, head);
    assert after.buffer == map[waiting := 0.0];
    TasksReported(store, s, nowMs, head);
  }

  lemma TasksReported(store: Store, s: Settings, nowMs: nat, head: Option<Task>)
    requires s.Valid() && IsHead(store.buffer, head)
    ensures var (after, r) := Consume(store, s, nowMs, head);
            && (!r.status.Yielded? ==> r.remainingTasks == |after.buffer|)
            && (r.status.Denied? ==> r.active == |after.leases|)
  {
    if head.Some? { PopCounts(Called(store, s, nowMs), s, nowMs, head.value); }
  }

  lemma ExpiredTokens(store: Store, s: Settings, nowMs: nat, head: Option<Task>)
    requires s.Valid() && IsHead(store.buffer, head) && Consume(store, s, nowMs, head).1.status.Expired?
    ensures Consume(store, s, nowMs, head).1.remainingTokens >= 1
       <==> Estimated(store.counters, s, nowMs) <= s.limit as real - 1.0
  {
    assert Consume(store, s, nowMs, head).1.remainingTokens == RemainingTokens(store.counters, s, nowMs);
  }

  // ---------------------------------------------------------------------------
  // The sleep after a rate denial
  // ---------------------------------------------------------------------------

  /** A denial with tasks buffered and slots free sleeps exactly as long as the recovery path of
      the sliding window prescribes for the admissions made so far. */
  lemma DenialSleeps(store: Store, c: Config, worker: WorkerId, nowMs: nat, head: Option<Task>, jitterMs: int,
                     admitted: seq<real>)
    requires Proper(c) && IsHead(store.buffer, head)
    requires Ledger(store.counters, admitted, SettingsOf(c, worker).WindowMs())
    requires var r := Consume(store, SettingsOf(c, worker), nowMs, head).1;
             r.status.Denied? && r.remainingTasks > 0 && r.active < c.maxConcurrency
    ensures var windowMs := SettingsOf(c, worker).WindowMs();
            && FollowUpDelay(Consume(store, SettingsOf(c, worker), nowMs, head).1, c, jitterMs)
               == Some(RetryAt(admitted, windowMs, c.limit, nowMs, jitterMs) as real / 1000.0)
            && !Allowed(admitted, windowMs, c.limit, nowMs as real)
  {
    var s := SettingsOf(c, worker);
    var now := nowMs as real;
    var r := Consume(store, s, nowMs, head).1;
    DenialHasReason(store, s, nowMs, head);
    LedgerReads(store.counters, admitted, s.WindowMs(), WindowIndex(now, s.WindowMs()), now);
    LedgerReads(store.counters, admitted, s.WindowMs(), WindowIndex(now, s.WindowMs()) - 1, now);
    assert r == Telemetry(Called(store, s, nowMs), s, nowMs);
    assert s.WindowMs() / 1000.0 == c.window;
  }

  /** So does a drain that has buried an expired task with less than a token left. */
  lemma BurialSleeps(store: Store, c: Config, worker: WorkerId, nowMs: nat, head: Option<Task>, jitterMs: int,
                     admitted: seq<real>)
    requires Proper(c) && IsHead(store.buffer, head)
    requires Ledger(store.counters, admitted, SettingsOf(c, worker).WindowMs())
    requires var (after, r) := Consume(store, SettingsOf(c, worker), nowMs, head);
             r.status.Expired? && after.buffer != map[]
    requires Estimated(store.counters, SettingsOf(c, worker), nowMs) > c.limit as real - 1.0
    ensures FollowUpDelay(Consume(store, SettingsOf(c, worker), nowMs, head).1, c, jitterMs)
         == Some(RetryAt(admitted, SettingsOf(c, worker).WindowMs(), c.limit, nowMs, jitterMs) as real / 1000.0)
  {
    var s := SettingsOf(c, worker);
    TasksReported(store, s, nowMs, head);
    PopHadRoom(store, s, nowMs, head);
    ExpiredTokens(store, s, nowMs, head);
    BurialReports(store, s, nowMs, head);
    TelemetryReads(store, s, nowMs, admitted);
    BuriedThenSleeps(Consume(store, s, nowMs, head).1, c, worker, nowMs, jitterMs, admitted);
  }

  lemma BuriedThenSleeps(r: ConsumeResult, c: Config, worker: WorkerId, nowMs: nat, jitterMs: int, admitted: seq<real>)
    requires Proper(c) && r.status.Expired? && r.remainingTasks > 0 && r.active < c.maxConcurrency
    requires r.remainingTokens <= 0
    requires var windowMs := SettingsOf(c, worker).WindowMs();
             && r.previous == Previous(admitted, windowMs, nowMs as real)
             && r.current == Current(admitted, windowMs, nowMs as real)
             && r.resetInMs == ReportedReset(nowMs, windowMs) && windowMs / 1000.0 == c.window
    ensures FollowUpDelay(r, c, jitterMs)
         == Some(RetryAt(admitted, SettingsOf(c, worker).WindowMs(), c.limit, nowMs, jitterMs) as real / 1000.0)
  {}

  /** A burial reports the counts, the tokens and the reset that it found. */
  lemma BurialReports(store: Store, s: Settings, nowMs: nat, head: Option<Task>)
    requires s.Valid() && IsHead(store.buffer, head) && Consume(store, s, nowMs, head).1.status.Expired?
    ensures var r, t := Consume(store, s, nowMs, head).1, Telemetry(Called(store, s, nowMs), s, nowMs);
            r.previous == t.previous && r.current == t.current && r.resetInMs == t.resetInMs
            && r.remainingTokens == t.remainingTokens && r.active == t.active
  {}

  /** The reported counts are those of the ledger. */
  lemma TelemetryReads(store: Store, s: Settings, nowMs: nat, admitted: seq<real>)
    requires s.Valid() && Ledger(store.counters, admitted, s.WindowMs())
    ensures var t := Telemetry(Called(store, s, nowMs), s, nowMs);
            && t.previous == Previous(admitted, s.WindowMs(), nowMs as real)
            && t.current == Current(admitted, s.WindowMs(), nowMs as real)
            && t.resetInMs == ReportedReset(nowMs, s.WindowMs())
    ensures s.WindowMs() / 1000.0 == s.window
  {
    var now := nowMs as real;
    LedgerReads(store.counters, admitted, s.WindowMs(), WindowIndex(now, s.WindowMs()), now);
    LedgerReads(store.counters, admitted, s.WindowMs(), WindowIndex(now, s.WindowMs()) - 1, now);
  }

  /** On the fallback path that is the rest of the window as reported, plus the jitter. */
  lemma FallbackDenialSleeps(store: Store, c: Config, worker: WorkerId, nowMs: nat, head: Option<Task>, jitterMs: int)
    requires Proper(c) && IsHead(store.buffer, head) && jitterMs >= 0
    requires var r := Consume(store, SettingsOf(c, worker), nowMs, head).1;
             && r.status.Denied? && r.remainingTasks > 0 && r.active < c.maxConcurrency
             && (r.previous == 0 || r.current >= c.limit)
    ensures var s := SettingsOf(c, worker);
            var end := WindowStart(WindowIndex(nowMs as real, s.WindowMs()), s.WindowMs()) + s.WindowMs();
            var sleep := (end - nowMs as real).Floor + jitterMs;
            FollowUpDelay(Consume(store, s, nowMs, head).1, c, jitterMs)
            == Some((if sleep < 1 then 1 else sleep) as real / 1000.0)
  {
    var s := SettingsOf(c, worker);
    var r := Consume(store, s, nowMs, head).1;
    DenialHasReason(store, s, nowMs, head);
    assert r == Telemetry(Called(store, s, nowMs), s, nowMs);
    IndexBounds(nowMs as real, s.WindowMs());
    FallbackSleepIs(r.previous, r.current, r.resetInMs, c.limit, c.window, jitterMs);
  }

  /** The limiter's counters keep that ledger: an admission adds its own instant, anything else none. */
  lemma ConsumeKeepsLedger(store: Store, s: Settings, nowMs: nat, head: Option<Task>, admitted: seq<real>)
    requires s.Valid() && IsHead(store.buffer, head) && Ledger(store.counters, admitted, s.WindowMs())
    ensures var (after, r) := Consume(store, s, nowMs, head);
            Ledger(after.counters, if r.status.Admitted? then admitted + [nowMs as real] else admitted, s.WindowMs())
  {
    IncrementKeepsLedger(store.counters, admitted, s.WindowMs(), nowMs as real);
  }

  // ---------------------------------------------------------------------------
  // The backoff after failures
  // ---------------------------------------------------------------------------

  function Power2(n: nat): nat {
    if n == 0 then 1 else 2 * Power2(n - 1)
  }

  /** Seconds before the recovery drain after `failures` consecutive failures. */
  function Backoff(failures: nat, window: real): real
    requires failures > 0
  {
    Min(window, 0.1 * Power2(failures - 1) as real)
  }

  /** The backoff doubles until the window caps it. */
  lemma BackoffDoubles(failures: nat, window: real)
    requires failures > 0 && window > 0.0
    ensures Backoff(1, window) == if window < 0.1 then window else 0.1
    ensures Backoff(failures + 1, window) == Min(window, 2.0 * Backoff(failures, window))
    ensures 0.0 < Backoff(failures, window) <= Backoff(failures + 1, window) <= window
  {
    PowerPositive(failures - 1);
    assert Power2(failures) == 2 * Power2(failures - 1);
  }

  lemma {:induction false} PowerPositive(n: nat)
    ensures Power2(n) >= n + 1
  {
    if n > 0 { PowerPositive(n - 1); }
  }

  /** However long the window, it is reached, and from then on every backoff is one window. */
  lemma BackoffReachesWindow(failures: nat, window: real)
    requires window > 0.0 && failures > 0 && failures as real >= 10.0 * window
    ensures Backoff(failures, window) == window
  {
    PowerPositive(failures - 1);
  }
}
