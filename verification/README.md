# redis-rate-limiter: a verified model of the coordination layer

This project models how the limiters of redis-rate-limiter coordinate through threads, coroutines and
Redis, and proves what that coordination keeps. `dafny verify dfyconfig.toml` checks all of it.

Conventions. Every script call is one atomic step on a store; every region that the source protects
with a lock is one atomic step of a transition system; all other steps interleave freely. Where the
source updates an object in place, a class with the same fields does so, one method per region, and
each method is proved to take the step that the transition system allows; theorems about whole runs
are lemmas about the transition system. Times are real numbers (or whole milliseconds of the Redis
clock); clock readings, random draws and the outcomes of I/O are parameters.

| File | Content |
|---|---|
| `SlidingWindow.dfy` | the estimate, the admission rule, the counters with their expiry, runs of admissions |
| `TokenRecovery.dfy` | the recovery delay, the jitter, the rounded sleep, and how often a retry can be denied |
| `Scripts.dfy`, `Redis.dfy` | the scripts `consume`, `schedule`, `release`, `renew` as steps on the store; the server |
| `TaskFlow.dfy`, `TaskMarkers.dfy` | claim, insertion, consumption, renewal, release, crash and lost replies with any number of callers; what the in-flight markers promise |
| `HeartbeatSteps.dfy`, `HeartbeatTiming.dfy`, `Heartbeat.dfy` | the heartbeat scheduler: steps, timing, objects |
| `HeartbeatLease.dfy`, `LeaseTiming.dfy` | the scheduler against the leases in the store: a missing lease, and why none lapses |
| `AsyncHeartbeat.dfy` | the asyncio heartbeat scheduler and its refinement |
| `DrainLoop.dfy`, `AsyncDrainLoop.dfy` | the drain loops: one wake field for a multiset of requests |
| `FollowUp.dfy`, `Limiter.dfy` | what a drain decides; the limiter object with `drain`, `schedule_task`, configuration |
| `Configuration.dfy`, `ManagedConfig.dfy`, `VersionRace.dfy` | overrides and the pause; the two-step version protocol; two threads on one instance |
| `Lifecycle.dfy`, `LocalSlots.dfy` | enter and exit of a task; local slot counters of the backends |
| `Superfluity.dfy`, `Timeline.dfy` | the two report algorithms of the scripts |
| `Options.dfy`, `Numbers.dfy`, `Collections.dfy` | options; larger and smaller of two numbers; cardinality facts and sorting |

## Where the code and the prose around it differ

The model follows the code.

- Step 2 of "How It Works" in the repository's README (line 302) speaks of a distributed lock around
  a drain. There is none; the consume script is atomic by itself, and fairness comes from yielding.
- The header of `consume.lua` asks the caller to retry after an expired task (lines 45-46).
  `_drain_inner` does not when tokens are left: `FollowUp.StrandedIff` says exactly when, and
  `FollowUp.ExpiredHeadStrands` gives a state in which it happens.
- `TaskLifecycle.is_healthy` documents that it reports `True` after `__exit__`
  (`limiters.py:290-298`). `__exit__` keeps the entry, so the last recorded health stays
  (`Lifecycle.TaskLifecycle.Exit`).
- `_build_test_intervals` documents one record per start event. A start of the same test that follows
  before the test has ended or another has started gets none (`Timeline.OneRecordPerStartIff`,
  `Timeline.RepeatedStartIsSwallowed`).
- `get` reads the configuration before the version, the opposite order from `refresh_config`
  (`ManagedConfig.GetIsSoundIff`, `ManagedConfig.GetCanBeStale`, `ManagedConfig.StaleGetIsNotHealed`).
- `extend_lease` raises `KeyError` for a missing lease, which the heartbeat worker does not catch: the
  thread ends (`HeartbeatLease.CallEndsWorkerIff`, `HeartbeatLease.WorkerSurvivesIff`). A task that
  exits while its renewal is under way is enough (`HeartbeatLease.ExitDuringRenewalEndsWorker`), and
  then nobody's lease is renewed until the next registration.
- The lifetime of an in-flight marker is documented to cover the queue residence and the time for
  dispatch and clean-up. The script counts age in whole seconds from the arrival, so it can admit
  a task up to a second later than that lifetime allows for (`TaskMarkers.MarkerOutlivesIff`,
  `TaskMarkers.AdmittedTaskOutlivesMarker`).
- The retry on the recovery path rounds a delay computed from a truncated `reset_in_ms`.  The consume
  script passes `2 * window + 10000` to Redis as an expiry (`consume.lua:90-91` and `165`), which must
  be a whole number of milliseconds, so of the fractional windows it accepts those that end in half a
  millisecond, and raises on every call with any other.  For those a retry can be denied twice, by an
  exact tie (`TokenRecovery.DeniedTwiceIffTie`, `TokenRecovery.TieDeniesTwice`); for a window of whole
  milliseconds it is denied at most once.
- A per-task maximum age of 0 shortens the marker's lifetime but reaches the script as "no override"
  (`TaskMarkers.TtlCovers`).
- Once shut down, the threaded heartbeat worker pops nothing; the asyncio one can pop one more ticket
  (`AsyncHeartbeat.AtMostOnePopAfterShutdown`, `AsyncHeartbeat.PopsAfterShutdown`).

## Model

| member | source | states |
|---|---|---|
| `SlidingWindow.CountersAreExact` | src/redis_rate_limiter/lua/consume.lua:96-109 | at every call the script reads, for the current and the previous window, exactly the admissions of those windows: the expiry set on the keys is never visible |
| `SlidingWindow.EstimateBounds` | tests/algorithms/sliding_window_counter.py:8-30 | the estimate lies between the current count and the sum of both counts |
| `SlidingWindow.FixedWindowBound` | src/redis_rate_limiter/lua/consume.lua:107-115 | in every run, no fixed window admits more than the limit |
| `SlidingWindow.NewestAdmission` | src/redis_rate_limiter/lua/consume.lua:107-165 | the newest admission of the current window was made below the limit, and is still allowed with the weight of any later instant of that window |
| `SlidingWindow.RollingBound` | tests/algorithms/sliding_window_counter.py:33-55 | over every run and instant, the admissions of the last window length number less than limit + P·e/W + 1, and at most twice the limit |
| `SlidingWindow.TwiceTheLimitIsReached` | tests/algorithms/sliding_window_counter.py:33-55 | for every limit and window, some run reaches twice the limit, so the bound cannot be lowered |
| `SlidingWindow.EstimateNeverIncreases` | tests/algorithms/sliding_window_counter.py:8-30 | without further admissions the estimate never increases, also across window rotations |
| `SlidingWindow.CounterLifetime` | src/redis_rate_limiter/lua/consume.lua:158-166 | a counter lives for two windows and ten seconds after the admission that created it |
| `TokenRecovery.RecoveryDelayIsExact` | src/redis_rate_limiter/core/limiters.py:729-776 | with a previous count and the current one below the limit, every instant before the delay is denied and every later one allowed; at a positive delay the estimate equals the limit; the delay never exceeds the time to reset |
| `TokenRecovery.JitterBounds` | src/redis_rate_limiter/core/limiters.py:778-848 | jitter stays within [min_pct, max_pct] of the window up to half a millisecond |
| `TokenRecovery.JitterMonotone` | src/redis_rate_limiter/core/limiters.py:778-848 | for the same draw, jitter grows with queue depth and with active slots |
| `TokenRecovery.SpreadUsed` | src/redis_rate_limiter/core/limiters.py:816-842 | 30 percent of the spread is used at rest, a fixed part more at each level of the queue and with each busy slot, and all of it for a hundred tasks and no free slot |
| `TokenRecovery.JitterIs` | src/redis_rate_limiter/core/limiters.py:802-842 | the jitter is the lower bound plus the drawn part of the used spread, to the nearest millisecond, and nothing when disabled |
| `TokenRecovery.RecoveryRetries` | src/redis_rate_limiter/core/limiters.py:1501-1538 | on the recovery path a retry after the rounded sleep is denied at most once more for a window of whole milliseconds and at most twice for any, also across a window boundary |
| `TokenRecovery.DeniedTwiceIff` | src/redis_rate_limiter/core/limiters.py:1501-1538 | with nobody else admitted, some legal schedule has its first two retries denied iff the crossing lies at least one millisecond behind the end of the first sleep |
| `TokenRecovery.DeniedTwiceIffTie` | src/redis_rate_limiter/core/limiters.py:1501-1538 | for the windows the consume script accepts, those of whole half milliseconds, this is so iff the crossing lies exactly one millisecond behind |
| `TokenRecovery.SleepIsRounded` | src/redis_rate_limiter/core/limiters.py:1525-1525 | on the recovery path the sleep is the rounded distance to the crossing, less what the truncated reset cuts off, and at least a millisecond, whatever the jitter |
| `TokenRecovery.RoundsToNearestEven` | src/redis_rate_limiter/core/limiters.py:1525-1525 | the rounding is to the nearest, and to the even one of two equally near |
| `TokenRecovery.FallbackSleepIs` | src/redis_rate_limiter/core/limiters.py:761-763 | on the fallback path the sleep is the reported reset plus the jitter, and at least a millisecond |
| `TokenRecovery.FallbackEndsWithWindow` | src/redis_rate_limiter/core/limiters.py:1501-1538 | so it ends with the window plus the jitter, less the truncation, or one millisecond from now; exactly so for a window of whole milliseconds |
| `TokenRecovery.TieDeniesTwice` | src/redis_rate_limiter/core/limiters.py:1525-1525 | a run with a window of 1000.5 ms and a limit of 3 after which a denial and its two retries are denied |
| `TokenRecovery.EveryDenialRecovers` | src/redis_rate_limiter/core/limiters.py:1501-1538 | with a positive limit every rate denial, on the recovery or the fallback path with any jitter, is followed by an allowed attempt within three (any window: five) retries |
| `Scripts.SlotsBounded` | src/redis_rate_limiter/lua/consume.lua:81-115 | a call never leaves more than the maximum number of slots leased |
| `Scripts.ResultReportsState` | src/redis_rate_limiter/lua/consume.lua:110-187 | unless it yields, the reported task count is that of the state the call leaves; the reported slot count is iff it does not admit a task whose id still holds a lease |
| `Scripts.DenialHasReason` | src/redis_rate_limiter/lua/consume.lua:115-187 | a denial with tasks left means that all slots are leased, or that the estimate has reached the limit and no token is reported |
| `Scripts.ResultNamesHead` | src/redis_rate_limiter/lua/consume.lua:115-187 | an admitted result carries the head, which is off the buffer; no other result carries a task |
| `Scripts.OutcomeIff` | src/redis_rate_limiter/lua/consume.lua:85-165 | with a turn, a slot and room, an overage head is buried, a marker given up by its caller is skipped, anything else is admitted; and nothing otherwise |
| `Scripts.WhoCalled` | src/redis_rate_limiter/lua/consume.lua:83-183 | every call records its caller, an admission its consumer, and exactly a buried task that is no marker is added to the dead letters |
| `Scripts.WhatIsLeft` | src/redis_rate_limiter/lua/consume.lua:115-187 | what a call leaves of the buffer, the markers and the counters |
| `Scripts.LeasesLeft` | src/redis_rate_limiter/lua/consume.lua:79-170 | what it leaves of the leases: the live ones, and for an admitted task one that no call reclaims until its duration has passed |
| `Scripts.TokensReported` | src/redis_rate_limiter/lua/consume.lua:107-187 | at least k tokens are reported iff k admissions fit under the limit, less the one made |
| `Scripts.CountsReported` | src/redis_rate_limiter/lua/consume.lua:101-187 | the reported counts are those of the counters the call leaves |
| `Scripts.YieldReportsSlots` | src/redis_rate_limiter/lua/consume.lua:92-94 | a call that yields reports the leased slots and nothing else |
| `Scripts.WorkersTakeTurns` | src/redis_rate_limiter/lua/consume.lua:84-94 | when another worker has called, in vain, since a worker was admitted, that worker yields its next call and only that one |
| `Scripts.ClaimIff` | src/redis_rate_limiter/core/limiters.py:1121-1124 | a claim is refused exactly while a marker is live, and otherwise sets it for its lifetime |
| `RedisServer.Redis.Consume` | src/redis_rate_limiter/lua/consume.lua:62-187 | takes the consume step with a head of least score |
| `RedisServer.Redis.First` | src/redis_rate_limiter/lua/consume.lua:116-119 | finds a member of least score, or none in an empty buffer |
| `HeartbeatLease.RenewExtendsOneLease` | src/redis_rate_limiter/lua/renew.lua:20-34 | a renewal finds a lease iff it is held, moves only its expiry, creates none, and keeps it from being reclaimed exactly until that expiry |
| `TaskFlow.StepKeepsOrderIff` | src/redis_rate_limiter/core/limiters.py:1120-1165 | with any number of schedulers, drains and workers, failing replies and clean-ups included, a step keeps each task in one place, once, and claims, insertions and admissions accounted for, iff it is no claim of a task that is held |
| `TaskFlow.RunKeepsOrderIff` | src/redis_rate_limiter/core/limiters.py:1120-1165 | through a run both hold at every moment iff no task is claimed while it is held |
| `TaskFlow.StoreFollowsScripts` | src/redis_rate_limiter/core/limiters.py:1120-1165 | each action of the flow does to the store what its script does |
| `TaskMarkers.HeldIsClaimableIff` | src/redis_rate_limiter/core/limiters.py:1120-1135 | a held task can be claimed again exactly from the expiry of its marker on, or at once if a lost reply took the marker away |
| `TaskMarkers.OrderIsLostIff` | src/redis_rate_limiter/core/limiters.py:1120-1165 | order is lost in a run iff a held task that outstayed its marker, or lost it with a reply, is claimed in it |
| `TaskMarkers.ExclusiveAndConserved` | src/redis_rate_limiter/core/limiters.py:1120-1165 | while no task outstays its marker and no reply is lost: claims = failed + claiming + inserted, inserted = buffered + admitted + dropped, admitted = running + released + crashed, each task in one place with its marker, at every moment |
| `TaskMarkers.PunctualRunIsTimely` | src/redis_rate_limiter/core/limiters.py:710-723 | a run lets no task outstay its marker if, at every event, what is claimed or buffered has a live marker, and what runs was admitted within its maximum age of the claim (or early enough at any rate) with an override other than 0 and has run for at most a lease and a window |
| `TaskMarkers.PunctualRunsKeepOrder` | src/redis_rate_limiter/core/limiters.py:710-723 | hence such runs from the start keep each task in one place with its marker, and lose none |
| `TaskMarkers.OrdinaryLifeIsPunctual` | src/redis_rate_limiter/core/limiters.py:710-723 | for all instants and settings, a task that is claimed, inserted, consumed within its maximum age of the claim and released within a lease and a window makes such a run |
| `TaskMarkers.WithinAgeIsInTime` | src/redis_rate_limiter/core/limiters.py:710-723 | a lease and a window after an admission within the maximum age of the claim, the marker is still live |
| `TaskMarkers.AdmittedInTimeIff` | src/redis_rate_limiter/core/limiters.py:710-723 | every release within a lease and a window of an admission comes before the marker expires iff the admission plus that time does |
| `TaskMarkers.ArrivedInTimeIsInTime` | src/redis_rate_limiter/lua/consume.lua:125-128 | if the task arrived as `MarkerOutlivesIff` asks, every admission by the script is in time |
| `TaskMarkers.MarkerOutlivesIff` | src/redis_rate_limiter/core/limiters.py:710-723 | a marker outlives every admission the script allows followed by a release within a lease and a window, iff the last admissible millisecond plus that time ends before the expiry (or nothing is admissible) |
| `TaskMarkers.AdmittedTaskOutlivesMarker` | src/redis_rate_limiter/lua/consume.lua:125-128 | with an hour, 30 s and 60 s, a task admitted 3600.9 s after its arrival can be scheduled again 89.1 s later, while it may still run |
| `TaskMarkers.TtlCovers` | src/redis_rate_limiter/core/limiters.py:710-723 | the marker's lifetime is at least the maximum age the script applies plus a lease and a window iff the override is not 0 (or the limiter's own maximum age is 1) |
| `TaskMarkers.OverstayDuplicates` | src/redis_rate_limiter/core/limiters.py:1120-1135 | a run in which a task that outstays its marker is buffered twice |
| `TaskMarkers.LiveMarkerHasOnePlace` | src/redis_rate_limiter/core/limiters.py:1120-1135 | a live marker means exactly one of: being scheduled, buffered, running, left by a holder that is gone |
| `TaskMarkers.FailureFreesOneTask` | src/redis_rate_limiter/core/limiters.py:1157-1161 | a failed insertion whose clean-up succeeds leaves neither marker nor holder of that task and touches no other |
| `TaskMarkers.ReleaseFreesOneHolder` | src/redis_rate_limiter/lua/release.lua:40-43 | so does a release |
| `TaskMarkers.FailedCleanUpBlocks` | src/redis_rate_limiter/core/limiters.py:1060-1080 | a failed clean-up keeps order but blocks the task exactly until its marker expires |
| `TaskMarkers.LostReplyUnmarks` | src/redis_rate_limiter/core/limiters.py:1157-1161 | a lost reply leaves the task buffered, and lets a second claim in before the expiry iff the clean-up succeeds |
| `TaskFlow.SlotsNeverExceeded` | src/redis_rate_limiter/lua/consume.lua:81-115 | in every run at most the maximum number of slots is leased |
| `TaskFlow.AdmissionsWithinRollingBound` | src/redis_rate_limiter/lua/consume.lua:107-165 | the rolling bound holds for the admissions of every interleaving of drains |
| `HeartbeatSteps.Coverage` | src/redis_rate_limiter/core/limiters.py:127-264 | in every reachable state a registered task with a non-empty id has a ticket of its current generation or is being renewed, iff it was not lost to a renewal of its own that raised without a second current ticket |
| `HeartbeatSteps.RaiseUncoversIff` | src/redis_rate_limiter/core/limiters.py:193-229 | a renewal that raises leaves its task covered iff a second current ticket is in the heap |
| `HeartbeatSteps.RaiseLosesCover` | src/redis_rate_limiter/core/limiters.py:193-229 | a reachable run for every task that ends with it registered, without cover, and the worker gone |
| `HeartbeatSteps.NextRegisterResumes` | src/redis_rate_limiter/core/limiters.py:179-191 | after a renewal raised, the next registration starts a worker again and every other task's current ticket is still there |
| `HeartbeatSteps.UncoveredUntilRegistered` | src/redis_rate_limiter/core/limiters.py:193-229 | a task without cover is never renewed again until it is registered again |
| `HeartbeatLease.CallEndsWorkerIff` | src/redis_rate_limiter/core/limiters.py:231-240 | a renew call ends the worker iff the script cannot be loaded or answers that the lease is not held when it runs |
| `HeartbeatLease.CallRecordsOutcome` | src/redis_rate_limiter/core/limiters.py:231-264 | a call that does not end the worker leaves its task healthy iff the script answered, and the store as the script left it |
| `HeartbeatLease.WorkerSurvivesIff` | src/redis_rate_limiter/core/limiters.py:193-264 | short of a shutdown a worker survives a run iff every renewal that gets an answer finds its lease |
| `HeartbeatLease.ExitDuringRenewalEndsWorker` | src/redis_rate_limiter/core/limiters.py:318-343 | a task that exits between the pop and the renew script ends the worker, although it held its lease; other tickets stay |
| `HeartbeatLease.NobodyRenewsWithoutWorker` | src/redis_rate_limiter/core/limiters.py:179-229 | without a worker no ticket is popped until somebody registers |
| `HeartbeatLease.ReclaimedWithoutWorkerIff` | src/redis_rate_limiter/lua/consume.lua:79-82 | with the worker gone and nobody registering, the lease of a running task is reclaimed iff the second of its last score has passed |
| `HeartbeatLease.RegistrationRescuesLease` | src/redis_rate_limiter/core/limiters.py:179-229 | a registration while the lease is still held starts a worker that pops the due ticket and extends the lease |
| `HeartbeatLease.LiveLeaseReclaimed` | src/redis_rate_limiter/core/limiters.py:193-264 | a run after which the lease of a running, registered task with its ticket in the heap is reclaimed |
| `HeartbeatLease.CoreRuns` | src/redis_rate_limiter/core/limiters.py:193-264 | runs against the store are runs of the scheduler, so coverage and timing results apply |
| `HeartbeatLease.RenewOne` | src/redis_rate_limiter/core/limiters.py:231-264 | takes the step of the renew call on scheduler and store, and raises exactly then |
| `HeartbeatSteps.DeregisteredStaysGone` | src/redis_rate_limiter/core/limiters.py:152-229 | from deregistration on no renewal of the task starts and a renewal under way does not put it back, through any run without its registration |
| `HeartbeatSteps.TicketsDueWithinInterval` | src/redis_rate_limiter/core/limiters.py:127-229 | every ticket in the heap is due within one interval of the clock |
| `HeartbeatSteps.BacklogCleared` | src/redis_rate_limiter/core/limiters.py:193-229 | tickets due by an instant that has passed only become fewer, one with each pop, so after as many pops none is left |
| `HeartbeatSteps.IdleTurnIff` | src/redis_rate_limiter/core/limiters.py:195-213 | a turn passes without a pop exactly when nothing is due or shutdown is signalled, and ends the worker only then |
| `HeartbeatSteps.WorkerComesBack` | src/redis_rate_limiter/core/limiters.py:219-229 | a renewal that does not raise is followed by a requeue and the next turn, with one more ticket iff the task is registered |
| `HeartbeatSteps.HealthIsLatestOutcome` | src/redis_rate_limiter/core/limiters.py:231-264 | in every reachable state an entry is healthy iff no renewal has had an outcome since its registration, or the latest one had success |
| `HeartbeatSteps.ActionIsKept` | src/redis_rate_limiter/core/limiters.py:127-229 | an entry keeps the failure action it was registered with, and a renewal takes it along |
| `HeartbeatSteps.NotRenewedTooSoon` | src/redis_rate_limiter/core/limiters.py:150-229 | no renewal of a task starts sooner than one interval after its tickets were pushed |
| `HeartbeatSteps.PushedOneIntervalAhead` | src/redis_rate_limiter/core/limiters.py:150-229 | every ticket is pushed one interval ahead of the clock |
| `HeartbeatTiming.RenewalGap` | src/redis_rate_limiter/core/limiters.py:193-264 | at every moment each registered task was registered or had its lease extended at most lease/2 + ε + 2δ ago |
| `LeaseTiming.NoLiveLeaseLapses` | src/redis_rate_limiter/lua/consume.lua:79-82 | with ε + 2δ and the dispatch time below lease/2, as long as no renewal of a task that has left ends the worker, through admissions, renewals, releases and reclaims every registered task holds its lease, and holds it still after a reclaim now |
| `LeaseTiming.NoLeaseLapsesFromStart` | src/redis_rate_limiter/lua/consume.lua:79-82 | the same for every run from the empty scheduler, whatever leases are in the store |
| `LeaseTiming.RenewalFindsLease` | src/redis_rate_limiter/core/limiters.py:1346-1350 | hence a renewal of a task that has not left finds its lease |
| `LeaseTiming.ScoreIsWritten` | src/redis_rate_limiter/lua/consume.lua:168-169 | the scores are those the scripts write |
| `LeaseTiming.LeasesFollowScripts` | src/redis_rate_limiter/lua/renew.lua:20-34 | renewals, releases, reclaims and admissions do to the leases what the scripts do |
| `Heartbeat.HeartbeatScheduler.constructor` | src/redis_rate_limiter/core/limiters.py:118-125 | starts empty, with half the lease as its interval |
| `Heartbeat.HeartbeatScheduler.Register` | src/redis_rate_limiter/core/limiters.py:127-150 | takes the registration step and returns a fresh healthy entry, which is the one in the table |
| `Heartbeat.HeartbeatScheduler.Deregister` | src/redis_rate_limiter/core/limiters.py:152-159 | takes the deregistration step and leaves the heap alone |
| `Heartbeat.HeartbeatScheduler.GetEntry` | src/redis_rate_limiter/core/limiters.py:161-164 | returns the live entry, or null iff there is none |
| `Heartbeat.HeartbeatScheduler.SignalShutdown` | src/redis_rate_limiter/core/limiters.py:166-176 | sets the shutdown flag and nothing else |
| `Heartbeat.HeartbeatScheduler.Front` | src/redis_rate_limiter/core/limiters.py:209-209 | finds an earliest ticket |
| `Heartbeat.HeartbeatScheduler.Turn` | src/redis_rate_limiter/core/limiters.py:195-223 | pops the earliest ticket iff it is due and no shutdown was signalled, and starts a renewal iff it is current |
| `Heartbeat.HeartbeatScheduler.RecordHealth` | src/redis_rate_limiter/core/limiters.py:231-264 | sets the health of the entry that is live now to the outcome, and that of no other |
| `Heartbeat.HeartbeatScheduler.Requeue` | src/redis_rate_limiter/core/limiters.py:221-229 | bumps the generation and pushes the next ticket iff the task is still registered |
| `AsyncHeartbeat.RunRefines` | src/redis_rate_limiter/core/async_limiters.py:128-181 | every run of the asyncio scheduler, its silent steps left out, is a run of the abstract scheduler with the same final table, heap and worker |
| `AsyncHeartbeat.NothingIsMissed` | src/redis_rate_limiter/core/async_limiters.py:128-153 | a waiting worker whose event is not set waits for the earliest ticket, and was not shut down |
| `AsyncHeartbeat.LookWaitsExactly` | src/redis_rate_limiter/core/async_limiters.py:131-153 | a wait that nothing interrupts ends exactly one interval later with an empty heap and exactly when the first ticket is due otherwise |
| `AsyncHeartbeat.LooksAgain` | src/redis_rate_limiter/core/async_limiters.py:148-166 | after a wait, and after a second hold that starts no renewal, the worker looks again |
| `AsyncHeartbeat.RestartLooksFirst` | src/redis_rate_limiter/core/async_limiters.py:119-126 | a registration that finds the worker gone starts one that looks first |
| `AsyncHeartbeat.RegisterEndsTheWait` | src/redis_rate_limiter/core/async_limiters.py:65-88 | a registration made after the event was cleared ends the wait at any clock reading |
| `AsyncHeartbeat.AtMostOnePopAfterShutdown` | src/redis_rate_limiter/core/async_limiters.py:155-168 | after shutdown at most one ticket is popped, and only if the worker was between its two holds of the lock |
| `AsyncHeartbeat.PopsAfterShutdown` | src/redis_rate_limiter/core/async_limiters.py:155-168 | a run in which it does pop one |
| `AsyncHeartbeat.AsyncHeartbeatScheduler.Register` | src/redis_rate_limiter/core/async_limiters.py:65-88 | takes the registration step and sets the event |
| `AsyncHeartbeat.AsyncHeartbeatScheduler.Look` | src/redis_rate_limiter/core/async_limiters.py:131-146 | the first hold: leave, clear the event and wait for the right time, or go on to pop |
| `AsyncHeartbeat.AsyncHeartbeatScheduler.PopTurn` | src/redis_rate_limiter/core/async_limiters.py:155-169 | the second hold: look again and pop the earliest ticket iff it is due |
| `DrainLoop.WakeFieldIsMinimum` | src/redis_rate_limiter/core/limiters.py:390-453 | in every reachable state the wake field is empty iff nothing was requested since the last drain started and otherwise the least requested target, and no waiting thread overlooks a request |
| `DrainLoop.NoEarlyDrain` | src/redis_rate_limiter/core/limiters.py:427-445 | a drain starts only when the earliest pending target has passed, or with nothing pending after the watchdog's wait or a shutdown |
| `DrainLoop.RequestSurvives` | src/redis_rate_limiter/core/limiters.py:390-453 | a request stays pending until a drain starts after it, also when it is made during a drain |
| `DrainLoop.DueRequestUnblocks` | src/redis_rate_limiter/core/limiters.py:429-445 | with a due request the worker is never stuck in a wait |
| `DrainLoop.EveryWakeIsServed` | src/redis_rate_limiter/core/limiters.py:390-453 | a request whose target has passed is followed by the start of a drain within two worker steps, whatever else is requested |
| `DrainLoop.DrainsKeepComing` | src/redis_rate_limiter/core/limiters.py:427-453 | a running loop starts another drain within four worker steps even if nobody asks |
| `DrainLoop.WatchdogCovers` | src/redis_rate_limiter/core/limiters.py:432-445 | with nothing requested, the watchdog's wait ends in a drain after its interval |
| `DrainLoop.WatchdogWaitsExactly` | src/redis_rate_limiter/core/limiters.py:432-436 | without a request or a shutdown the watchdog's wait can end exactly from one interval after the turn on |
| `DrainLoop.WakeWaitsExactly` | src/redis_rate_limiter/core/limiters.py:440-444 | with a request for later, the wait can end exactly from its target on |
| `DrainLoop.IdleLoopWaits` | src/redis_rate_limiter/core/limiters.py:427-446 | through every run, a drain that starts with nothing pending and no shutdown starts at least the watchdog's interval after the last turn |
| `DrainLoop.AtMostOneDrainAfterShutdown` | src/redis_rate_limiter/core/limiters.py:403-445 | after shutdown at most one more drain starts, and only from a watchdog wait with nothing requested |
| `DrainLoop.DeadThreadIsReplaced` | src/redis_rate_limiter/core/limiters.py:416-425 | after a drain that ended the thread the next request starts a new one that finds it |
| `DrainLoop.DrainLoop.Wake` | src/redis_rate_limiter/core/limiters.py:390-401 | adds exactly one target to the pending requests and keeps the invariant |
| `DrainLoop.DrainLoop.Turn` | src/redis_rate_limiter/core/limiters.py:429-445 | leaves, waits, or answers all requests by a drain |
| `DrainLoop.DrainLoop.WatchdogWaitEnds` | src/redis_rate_limiter/core/limiters.py:436-445 | goes back to the top if something was requested, and drains otherwise |
| `AsyncDrainLoop.RunRefines` | src/redis_rate_limiter/core/async_limiters.py:344-419 | every run of the asyncio loop is a run of the threaded one with the same wake field, pending requests and drains |
| `AsyncDrainLoop.AskSurvives` | src/redis_rate_limiter/core/async_limiters.py:344-360 | a request is on its way or pending until a later drain starts |
| `AsyncDrainLoop.AsksAreConserved` | src/redis_rate_limiter/core/async_limiters.py:344-360 | every request is on its way until it is delivered, once |
| `AsyncDrainLoop.AtMostOneAsyncDrainAfterShutdown` | src/redis_rate_limiter/core/async_limiters.py:353-406 | after shutdown at most one more drain starts |
| `AsyncDrainLoop.AsyncDrainLoop.WakeAsync` | src/redis_rate_limiter/core/async_limiters.py:353-360 | delivers one request under the lock, without starting a task after shutdown |
| `FollowUp.StrandedIff` | src/redis_rate_limiter/core/limiters.py:1434-1538 | a drain leaves tasks buffered without asking for a follow-up iff it was denied with all slots leased, or buried an expired task with at least one token left |
| `FollowUp.StrandedBeforeIff` | src/redis_rate_limiter/core/limiters.py:1434-1538 | the same from the state before the call: no yield, and all slots leased after the reclaim, or the head too old with a free slot, another task buffered and the estimate at most the limit less one |
| `FollowUp.ExpiredHeadStrands` | src/redis_rate_limiter/core/limiters.py:1481-1501 | under every configuration that admits anything there is a state in which a task that could be admitted at once is left buffered, with tokens and all slots free, and no follow-up |
| `FollowUp.DenialSleeps` | src/redis_rate_limiter/core/limiters.py:1501-1538 | a denial with slots free sleeps exactly as the recovery path prescribes for the admissions made so far, so the retry bounds apply |
| `FollowUp.FallbackDenialSleeps` | src/redis_rate_limiter/core/limiters.py:1501-1538 | on the fallback path that is the rest of the window in whole milliseconds plus the jitter, at least one |
| `FollowUp.BurialSleeps` | src/redis_rate_limiter/core/limiters.py:1501-1538 | a drain that buries an expired task with less than a token left sleeps as after a denial |
| `FollowUp.ConsumeKeepsLedger` | src/redis_rate_limiter/lua/consume.lua:158-166 | the counters keep counting exactly the admissions |
| `FollowUp.BackoffDoubles` | src/redis_rate_limiter/core/limiters.py:1394-1398 | the backoff starts at a tenth of a second and each failure doubles it, until the window caps it |
| `FollowUp.BackoffReachesWindow` | src/redis_rate_limiter/core/limiters.py:1394-1398 | for every window the cap is reached |
| `Limiters.NoStrandedWork` | src/redis_rate_limiter/core/limiters.py:1419-1538 | a drain that was neither paused nor failed and requests nothing while tasks are buffered found all slots leased or buried an expired task with a token left |
| `Limiters.AdmittedIsDispatched` | src/redis_rate_limiter/core/limiters.py:1459-1469 | the task taken off the buffer is a member of least score, and is dispatched unless it is a marker or its dispatch raises |
| `Limiters.FollowUpIsPrompt` | src/redis_rate_limiter/core/limiters.py:1427-1499 | tasks left after an admission or a dropped marker are drained at once; a yield, and no local capacity, ask for a drain in one token's time, which times the limit is the window |
| `Limiters.TokenTime` | src/redis_rate_limiter/core/limiters.py:882-885 | one token's time times the limit is the window |
| `Limiters.AnotherDrainFollows` | src/redis_rate_limiter/core/limiters.py:427-453 | after any drain the loop starts another, by request or by the watchdog |
| `Limiters.Limiter.Drain` | src/redis_rate_limiter/core/limiters.py:1361-1417 | the whole outcome: at most one consume step, exactly one if the script is called and runs, even when its reply is lost, and none while paused; the task taken off is a least-score member and is dispatched iff it is no marker and its dispatch does not raise; at most one request, its target in time; backoff on failure; and nobody stranded |
| `Limiters.Limiter.DrainInner` | src/redis_rate_limiter/core/limiters.py:1419-1538 | takes one consume step if the call runs and none otherwise, dispatches, and requests the follow-up the result calls for |
| `Limiters.Limiter.Recover` | src/redis_rate_limiter/core/limiters.py:1393-1408 | counts the failure and requests a drain after the backoff |
| `Limiters.Limiter.ScheduleTask` | src/redis_rate_limiter/core/limiters.py:1120-1165 | True means exactly one insertion and one wake-up; a live marker rejects and changes nothing; a failed insertion leaves no marker if the clean-up succeeds |
| `Limiters.Limiter.ApplyConfigOverrides` | src/redis_rate_limiter/core/base.py:77-98 | takes the override step on all fields and the pause |
| `Limiters.Limiter.BeginUpdate` | src/redis_rate_limiter/core/managed.py:345-366 | applies the overrides and takes the first step of a persist |
| `Limiters.Limiter.EndPersist` | src/redis_rate_limiter/core/managed.py:367-371 | takes the second step of a persist |
| `Limiters.Limiter.ReadVersion` | src/redis_rate_limiter/core/managed.py:379-385 | takes the first step of a refresh and goes on iff the registry is newer |
| `Limiters.Limiter.ReadConfig` | src/redis_rate_limiter/core/managed.py:387-402 | takes the second step of a refresh, with whatever configuration is stored by then |
| `Limiters.Limiter.Hydrate` | src/redis_rate_limiter/core/managed.py:300-315 | takes the first step of `get` |
| `Limiters.Limiter.AdoptVersion` | src/redis_rate_limiter/core/managed.py:317-319 | takes the second step of `get` |
| `Configuration.PersistedMakesAgree` | src/redis_rate_limiter/core/limiters.py:902-920 | applying a persisted configuration makes all five fields agree, and applying it again later changes neither fields nor pause |
| `Configuration.OverridesSetTheirFields` | src/redis_rate_limiter/core/base.py:77-98 | an override sets its field and an absent one leaves it; without a new window the pause stays |
| `Configuration.WindowChangePauses` | src/redis_rate_limiter/core/base.py:77-92 | after a window change no drain consumes for the longer of the two windows, until another window change |
| `Configuration.SecondChangeShortensIff` | src/redis_rate_limiter/core/base.py:82-88 | a second change ends the pause of the first early iff it changes the window again and its own pause is over first |
| `Configuration.ConsumesAfterChangesIff` | src/redis_rate_limiter/core/base.py:82-88 | after any sequence of changes a drain consumes iff the pause of the last window change is over |
| `Configuration.ConsumesWithoutChangeIff` | src/redis_rate_limiter/core/base.py:82-88 | without a window change it consumes iff the pause it had is over |
| `ManagedConfig.RunsAreSound` | src/redis_rate_limiter/core/managed.py:361-410 | through any interleaving with persists in turn and atomic `get`, every configuration held is one that was written and at least as new as its version |
| `ManagedConfig.UpToDateMeansStored` | src/redis_rate_limiter/core/managed.py:361-410 | an idle instance at the registry's version holds exactly the stored configuration, unless a persist is half done |
| `ManagedConfig.VersionsMonotone` | src/redis_rate_limiter/core/managed.py:373-403 | versions never decrease and never pass the registry's, in every run with one thread per instance |
| `VersionRace.RefreshLowersIff` | src/redis_rate_limiter/core/managed.py:373-403 | with a second thread updating the same instance, a refresh lowers the version held iff an update of that instance committed since the refresh read the version |
| `VersionRace.NeverAhead` | src/redis_rate_limiter/core/managed.py:366-403 | even then neither the version held nor the one being read passes the registry's |
| `VersionRace.NextRefreshHeals` | src/redis_rate_limiter/core/managed.py:384-385 | the next refresh goes on and brings the versions together again |
| `VersionRace.RegistryCounts` | src/redis_rate_limiter/core/managed.py:366-371 | the registry counts every commit once, and an update leaves its instance at the registry's version |
| `VersionRace.RefreshGoesOnIff` | src/redis_rate_limiter/core/managed.py:379-403 | a refresh goes on exactly when the registry is ahead, and brings the instance to the version it read |
| `ManagedConfig.AllAgree` | src/redis_rate_limiter/core/managed.py:373-403 | once writes stop, any set of instances that have each begun and finished one refresh, interleaved in any way, agree on the stored configuration |
| `ManagedConfig.CreatedIsStored` | src/redis_rate_limiter/core/managed.py:217-260 | an instance created and persisted at once is in sync with the configuration it was given |
| `ManagedConfig.RefreshOfNothing` | src/redis_rate_limiter/core/managed.py:387-389 | a refresh that finds no configuration ends without a change |
| `ManagedConfig.StepIsLocal` | src/redis_rate_limiter/core/managed.py:361-410 | a step depends on and changes only the registry and its own instance |
| `ManagedConfig.GetIsSoundIff` | src/redis_rate_limiter/core/managed.py:300-319 | what `get` ends with is at least as new as its version iff no persist both began and finished between its two reads |
| `ManagedConfig.GetCanBeStale` | src/redis_rate_limiter/core/managed.py:300-319 | a run that leaves an old configuration at the registry's version |
| `ManagedConfig.StaleGetIsNotHealed` | src/redis_rate_limiter/core/managed.py:384-385 | such an instance stays so through any number of refreshes |
| `ManagedConfig.PersistAgreesIff` | src/redis_rate_limiter/core/managed.py:361-371 | a persist leaves its instance with the stored configuration iff the last write between its own two, if any, stored the same |
| `ManagedConfig.OverlappingPersistsDisagree` | src/redis_rate_limiter/core/managed.py:361-371 | a run of two overlapping persists that leaves a writer at the newest version with a configuration that is not stored |
| `Lifecycle.TaskLifecycle.Enter` | src/redis_rate_limiter/core/limiters.py:305-316 | registers the task and holds the live entry |
| `Lifecycle.TaskLifecycle.Exit` | src/redis_rate_limiter/core/limiters.py:318-364 | deregisters once, attempts one release and requests one drain due at once, whether the body or the release raises; the recorded health stays |
| `Lifecycle.HealthReachesTask` | src/redis_rate_limiter/core/limiters.py:290-298 | what is recorded for the entry is the health the task sees |
| `Lifecycle.ReleaseFreesOneTask` | src/redis_rate_limiter/lua/release.lua:40-43 | after a release the slot and marker of the id are gone, all others stay, and a second release changes nothing |
| `Lifecycle.ExitIsFinal` | src/redis_rate_limiter/core/limiters.py:318-328 | after an exit no renewal of the task starts and none puts it back into the heap |
| `Lifecycle.ExitIsFollowedByDrain` | src/redis_rate_limiter/core/limiters.py:357-364 | the wake-up of an exit is followed by a drain within two worker steps |
| `LocalSlots.CounterIsExact` | src/redis_rate_limiter/backends/threading/limiter.py:98-125 | the counter equals unfinished plus about-to-be-submitted plus leaked tasks, and with n drainers stays within 0 and max_workers + n - 1, hence max_workers for one |
| `LocalSlots.ExactIff` | src/redis_rate_limiter/backends/processpool/limiter.py:116-146 | with no dispatch under way the counter equals the unfinished tasks iff no submission raised and no future was cancelled; lost slots never come back |
| `LocalSlots.SlotsTaken` | src/redis_rate_limiter/backends/threading/limiter.py:98-125 | a check grants a slot exactly below the maximum, a count takes one and a finished task gives one back |
| `LocalSlots.PoolSlots.HasLocalCapacity` | src/redis_rate_limiter/backends/processpool/limiter.py:101-110 | answers whether the counter is below the maximum |
| `LocalSlots.PoolSlots.CountTask` | src/redis_rate_limiter/backends/threading/limiter.py:116-117 | counts the task before it is submitted |
| `LocalSlots.PoolSlots.SubmitTask` | src/redis_rate_limiter/backends/processpool/limiter.py:122-125 | submits it; if that raises the count stays |
| `LocalSlots.PoolSlots.TaskDone` | src/redis_rate_limiter/backends/threading/limiter.py:119-125 | uncounts a finished task, whatever its outcome |
| `LocalSlots.TaskSlots.Dispatch` | src/redis_rate_limiter/backends/asyncio/limiter.py:113-141 | counts and records the task, within the maximum |
| `LocalSlots.TaskSlots.Done` | src/redis_rate_limiter/backends/asyncio/limiter.py:136-138 | uncounts and forgets the task |
| `LocalSlots.TaskSlots.Shutdown` | src/redis_rate_limiter/backends/asyncio/limiter.py:155-169 | leaves no active task and a count of 0, whichever tasks were cancelled before their first step |
| `Superfluity.BuildKillMaps` | scripts/analyze_superfluity.py:238-252 | the maps hold, per class, exactly the tests that kill something and exactly what each kills |
| `Superfluity.ClassIsSecondPart` | scripts/analyze_superfluity.py:217-226 | the class of a test stands between the first two separators; without two the test is at the level of its module |
| `Superfluity.SplitJoins` | scripts/analyze_superfluity.py:223-223 | the parts of a node id, joined, are the node id |
| `Superfluity.FindSubsumer` | scripts/analyze_superfluity.py:266-280 | finds the first test whose kill set strictly contains the given one, iff there is any |
| `Superfluity.AnalyzeClass` | scripts/analyze_superfluity.py:258-280 | reports, once and in order, exactly the tests with a strict superset, and lists exactly those without kills |
| `Superfluity.ReportsExactly` | scripts/analyze_superfluity.py:258-280 | a test is reported iff another test's kill set strictly contains its own |
| `Superfluity.FindingsAreTrue` | scripts/analyze_superfluity.py:272-279 | each finding names the first test that subsumes it, with the right counts |
| `Superfluity.KeptSubsumer` | scripts/analyze_superfluity.py:269-280 | each superfluous test has a strict superset that is not superfluous, even if its reported subsumer is |
| `Superfluity.NothingIsLost` | scripts/analyze_superfluity.py:269-280 | deleting all superfluous tests of a class keeps the union of its kills |
| `Superfluity.TotalCountsKills` | scripts/analyze_superfluity.py:282-285 | the total of kills counts every kill of every test once |
| `Superfluity.TotalCountsSuperfluous` | scripts/analyze_superfluity.py:286-288 | the total of findings counts every superfluous test of every class once |
| `Superfluity.AnalyzeSuperfluity` | scripts/analyze_superfluity.py:229-298 | results for every class, with the total of the findings and never a test without kills |
| `Superfluity.DeletionIsSafe` | scripts/analyze_superfluity.py:229-298 | after deleting every reported test of every class, each kill is still made by a kept test of the same class |
| `Timeline.Search` | scripts/generate_mutmut_report.py:1045-1057 | finds the end or the start of another test, and the last heartbeat before it |
| `Timeline.WalkEvents` | scripts/generate_mutmut_report.py:1030-1090 | terminates with the records of the walk |
| `Timeline.OneRecordPerStartIff` | scripts/generate_mutmut_report.py:1037-1090 | a start event gets a record, and only one, iff it does not repeat an earlier start of the same test with no end and no other start between |
| `Timeline.RepeatedStartIsSwallowed` | scripts/generate_mutmut_report.py:1017-1023 | a run with two starts and one record |
| `Timeline.RecordNamesStart` | scripts/generate_mutmut_report.py:1074-1090 | a record carries its start and lasts from there to its end |
| `Timeline.RecordNamesEnd` | scripts/generate_mutmut_report.py:1058-1073 | a record is completed iff the test has an end event before another start, and then ends with it; otherwise it ends with the last kill, or the last heartbeat, or at its start |
| `Timeline.RecordNamesHeartbeat` | scripts/generate_mutmut_report.py:1048-1057 | the last heartbeat of a record is the latest of its test before the search stops |
| `Timeline.EndsBeforeStartIff` | scripts/generate_mutmut_report.py:1058-1073 | an interval ends before it starts iff no end was found and the process was last killed before the start |
| `Timeline.BuildTestIntervals` | scripts/generate_mutmut_report.py:1017-1092 | the records of all processes, sorted by start |
| `Timeline.PidsListed` | scripts/generate_mutmut_report.py:1025-1029 | every process with an event is listed, once |
| `Timeline.RecordsComplete` | scripts/generate_mutmut_report.py:1025-1092 | the result holds, for every process, the record of each start in its log that repeats no earlier one, and nothing else |
| `Timeline.IntervalsOrdered` | scripts/generate_mutmut_report.py:1030-1092 | no interval ends before it starts if no process has a start after its last kill |
| `Timeline.DetectCrossPidOverlaps` | scripts/generate_mutmut_report.py:1095-1118 | the sweep with early exit returns exactly what comparing all pairs returns, each pair once |
| `Timeline.ClashIsIntersection` | scripts/generate_mutmut_report.py:1101-1104 | for intervals that are not empty, a pair is reported iff the processes differ and some instant lies in both |
| `Timeline.OverlapIsLongestShared` | scripts/generate_mutmut_report.py:1105-1116 | the reported overlap is the longest time two instants of both intervals can be apart |
| `Timeline.OverlapNegativeIff` | scripts/generate_mutmut_report.py:1105-1116 | a reported overlap is negative iff the later interval ends before it starts |
| `Timeline.BuiltOverlapsNonNegative` | scripts/generate_mutmut_report.py:1095-1118 | overlaps of built intervals are non-negative under the same condition on kills |

## Left out

- Redis client calls, script loading with NOSCRIPT recovery, Pub/Sub transport, JSON and MD5: I/O and library behaviour; task ids are taken as given and distinct tasks as having distinct ids.
- Floating-point rounding, except for the explicit rounding to three decimals: arithmetic is over the reals, so the overflow of the backoff after about a thousand failures does not appear.
- TokenRecovery.RecoveryRetries: counts in whole milliseconds of the Redis clock and takes no other admission to happen meanwhile. One denial is exceeded exactly under the condition of `TokenRecovery.DeniedTwiceIff`.
- HeartbeatTiming.RenewalGap: assumes that due tickets are popped within one latency and that every renewal succeeds within another; without such bounds the code promises nothing.
- TaskMarkers.ExclusiveAndConserved: holds while no task outstays its marker and no reply is lost; `TaskMarkers.OrderIsLostIff` is the exact condition, and nothing in the code renews a marker. The limiter's settings do not change during a run.
- LeaseTiming.NoLiveLeaseLapses: takes the Redis clock to be the worker's, and leaves out runs in which a task exits during its renewal and so ends the worker; what becomes of the other leases then is `HeartbeatLease.ReclaimedWithoutWorkerIff`.
- ManagedConfig.UpToDateMeansStored: takes persists not to overlap and `get` to be atomic; both are shown to be needed, with exact conditions. A malformed stored configuration is not modelled.
- ManagedConfig.VersionsMonotone: each instance does one thing at a time. With the drain thread refreshing an instance that a caller updates, its version can go back (`VersionRace.RefreshLowersIff`), and the refresh can overwrite fields that the update has changed and not yet stored; the latter is not modelled.
- Limiters.Limiter.Drain: the refresh at its start is given by its outcome; the two reads of a refresh are the methods `ReadVersion` and `ReadConfig`. It has a drain loop (`drain_enabled` true), and waking that loop does not fail.
- Limiters.Limiter.ScheduleTask: runs by itself; interleaving with other callers is the subject of `TaskFlow`. A priority is a real number, so the check for a finite one is gone.
- RedisServer.Redis.First: any member of least score; Redis breaks ties by the member's text. The heap of the heartbeat scheduler is a multiset for the same reason, so ties between equal due times are open.
- Scripts.Consume: runs for every positive window, although Redis refuses the script's expiries, and so every call, for a window that is no whole number of half milliseconds; where it matters the lemmas ask for `TokenRecovery.Accepted`. The lifetimes of the two fairness keys and of the acquire signal list, and the signal itself, are not modelled.
- Configuration values are not validated on update, as in the source; the drain is modelled for a positive window and a non-negative limit.
- LocalSlots.PoolSlots.SubmitTask: submissions that raise and futures cancelled before they run are counted as leaked slots; the executors themselves are not modelled.
- The asyncio limiter's `drain` and `schedule_task` repeat the threaded ones; only its heartbeat scheduler, drain loop and slots, which differ, are modelled.
- The worker regions of the asyncio drain loop are those of the threaded one; a cancelled task that ends in the middle of a wait is not modelled.
- The `acquire` call beyond its marker in the buffer, the ASGI middleware with `acquire.lua`, the health monitor, and `health.lua`.
- The Celery, RQ, Dramatiq and Huey backends, workers, decorators, metrics and key functions: thin dispatch or code of one branch.
- Reports, benchmarks, demos, and the collection of the data that the two report algorithms start from.
