/** The sliding window counter: the weighted estimate, the admission rule, and the two
    fixed-window counters that the scripts keep in Redis, followed by what the rule
    guarantees over every run of timed admission attempts.

    Times are real numbers of milliseconds; counts are natural numbers.  A fixed window is
    named by its index: window `k` is the half-open interval `[k * window, (k + 1) * window)`.
  */
module SlidingWindow {

  // ---------------------------------------------------------------------------
  // The estimate and the admission rule
  // ---------------------------------------------------------------------------

  function Estimate(previous: nat, current: nat, window: real, elapsed: real): real
    requires window > 0.0
  {
    current as real + previous as real * ((window - elapsed) / window)
  }

  predicate IsAllowed(previous: nat, current: nat, window: real, elapsed: real, limit: nat)
    requires window > 0.0
  {
    Estimate(previous, current, window, elapsed) < limit as real
  }

  /** The index of the fixed window that contains `now`. */
  function WindowIndex(now: real, window: real): int
    requires window > 0.0
  {
    (now / window).Floor
  }

  function WindowStart(index: int, window: real): real {
    index as real * window
  }

  // ---------------------------------------------------------------------------
  // The counters in Redis
  // ---------------------------------------------------------------------------

  /** A per-window counter key together with the instant at which Redis expires it. */
  datatype Counter = Counter(count: nat, expiresAt: real)

  type Counters = map<int, Counter>

  /** `GET` of a window's counter: a key that is missing or expired reads as zero. */
  function Read(counters: Counters, index: int, now: real): nat {
    if index in counters && now <= counters[index].expiresAt then counters[index].count else 0
  }

  /** `INCR`, and `PEXPIRE` when the counter was read as zero. */
  function Increment(counters: Counters, index: int, now: real, window: real): Counters {
    if Read(counters, index, now) == 0 then
      counters[index := Counter(1, now + 2.0 * window + 10000.0)]
    else
      counters[index := counters[index].(count := counters[index].count + 1)]
  }

  predicate Admits(counters: Counters, now: real, window: real, limit: nat)
    requires window > 0.0
  {
    var index := WindowIndex(now, window);
    IsAllowed(Read(counters, index - 1, now), Read(counters, index, now), window,
              now - WindowStart(index, window), limit)
  }

  // ---------------------------------------------------------------------------
  // Runs
  // ---------------------------------------------------------------------------

  /** What a run of attempts leaves behind: the counters, and the instants of the admissions. */
  datatype Outcome = Outcome(counters: Counters, admitted: seq<real>)

  /** Attempt the admission script once at every instant of `attempts`, in order. */
  function Run(attempts: seq<real>, window: real, limit: nat): Outcome
    requires window > 0.0
  {
    if attempts == [] then Outcome(map[], [])
    else
      var before := Run(attempts[..|attempts| - 1], window, limit);
      var now := attempts[|attempts| - 1];
      if Admits(before.counters, now, window, limit) then
        Outcome(Increment(before.counters, WindowIndex(now, window), now, window), before.admitted + [now])
      else
        before
  }

  predicate Chronological(times: seq<real>) {
    forall i, j :: 0 <= i < j < |times| ==> times[i] <= times[j]
  }

  /** The number of instants that fall into fixed window `index`. */
  function InWindow(times: seq<real>, index: int, window: real): nat
    requires window > 0.0
  {
    if times == [] then 0
    else
      InWindow(times[..|times| - 1], index, window)
      + if WindowIndex(times[|times| - 1], window) == index then 1 else 0
  }

  /** The number of instants in the half-open interval `(after, upto]`. */
  function InInterval(times: seq<real>, after: real, upto: real): nat {
    if times == [] then 0
    else
      InInterval(times[..|times| - 1], after, upto)
      + if after < times[|times| - 1] <= upto then 1 else 0
  }

  // ---------------------------------------------------------------------------
  // Arithmetic of windows
  // ---------------------------------------------------------------------------

  lemma ScaleLe(x: real, y: real, factor: real)
    requires factor >= 0.0 && x <= y
    ensures x * factor <= y * factor
  {}

  lemma ScaleLt(x: real, y: real, factor: real)
    requires factor > 0.0 && x < y
    ensures x * factor < y * factor
  {}

  lemma Distribute(x: real, y: real, factor: real)
    ensures (x + y) * factor == x * factor + y * factor
  {}

  lemma Quotient(x: real, divisor: real)
    requires divisor != 0.0
    ensures (x / divisor) * divisor == x
  {}

  lemma CancelFactor(x: real, y: real, factor: real)
    requires factor != 0.0 && x * factor == y * factor
    ensures x == y
  {
    assert x == (x * factor) / factor;
    assert y == (y * factor) / factor;
  }

  lemma StartShift(index: int, shift: int, window: real)
    ensures WindowStart(index + shift, window) == WindowStart(index, window) + shift as real * window
  {
    assert (index + shift) as real == index as real + shift as real;
    Distribute(index as real, shift as real, window);
  }

  lemma StartGap(early: int, late: int, window: real)
    requires window > 0.0 && early < late
    ensures WindowStart(early, window) + window <= WindowStart(late, window)
  {
    StartShift(early, late - early, window);
    ScaleLe(1.0, (late - early) as real, window);
  }

  lemma IndexBounds(now: real, window: real)
    requires window > 0.0
    ensures WindowStart(WindowIndex(now, window), window) <= now
    ensures now < WindowStart(WindowIndex(now, window), window) + window
  {
    var q := now / window;
    var k := WindowIndex(now, window);
    Quotient(now, window);
    FloorBounds(now, q, k as real, window);
  }

  lemma FloorBounds(now: real, q: real, k: real, window: real)
    requires window > 0.0 && q * window == now && k <= q < k + 1.0
    ensures k * window <= now < k * window + window
  {
    var above, below := q - k, k + 1.0 - q;
    assert above * window >= 0.0 && below * window > 0.0;
    assert above * window == now - k * window;
    assert below * window == k * window + window - now;
  }

  lemma IndexMonotone(a: real, b: real, window: real)
    requires window > 0.0 && a <= b
    ensures WindowIndex(a, window) <= WindowIndex(b, window)
  {
    IndexBounds(a, window);
    IndexBounds(b, window);
    if WindowIndex(b, window) < WindowIndex(a, window) {
      StartGap(WindowIndex(b, window), WindowIndex(a, window), window);
    }
  }

  /** Exactly the instants of `[k * window, (k + 1) * window)` have index `k`. */
  lemma IndexCharacterised(now: real, index: int, window: real)
    requires window > 0.0
    ensures WindowIndex(now, window) == index
       <==> WindowStart(index, window) <= now < WindowStart(index, window) + window
  {
    IndexBounds(now, window);
    var k := WindowIndex(now, window);
    if k < index {
      StartGap(k, index, window);
    } else if index < k {
      StartGap(index, k, window);
    }
  }

  lemma WeightBounds(window: real, elapsed: real)
    requires window > 0.0 && 0.0 <= elapsed <= window
    ensures 0.0 <= (window - elapsed) / window <= 1.0
  {
    var w := (window - elapsed) / window;
    assert w * window == window - elapsed;
    if w < 0.0 {
      ScaleLt(w, 0.0, window);
    } else if w > 1.0 {
      ScaleLt(1.0, w, window);
    }
  }

  lemma WeightMonotone(window: real, early: real, late: real)
    requires window > 0.0 && early <= late
    ensures (window - late) / window <= (window - early) / window
  {
    var a, b := (window - late) / window, (window - early) / window;
    assert a * window == window - late && b * window == window - early;
    if b < a {
      ScaleLt(b, a, window);
    }
  }

  /** The estimate lies between the current count and the sum of both counts. */
  lemma EstimateBounds(previous: nat, current: nat, window: real, elapsed: real)
    requires window > 0.0 && 0.0 <= elapsed <= window
    ensures current as real <= Estimate(previous, current, window, elapsed) <= (previous + current) as real
  {
    WeightBounds(window, elapsed);
    var w := (window - elapsed) / window;
    ScaleLe(0.0, w, previous as real);
    ScaleLe(w, 1.0, previous as real);
  }

  lemma EstimateDecays(previous: nat, current: nat, window: real, early: real, late: real)
    requires window > 0.0 && early <= late
    ensures Estimate(previous, current, window, late) <= Estimate(previous, current, window, early)
  {
    WeightMonotone(window, early, late);
    ScaleLe((window - late) / window, (window - early) / window, previous as real);
  }

  // ---------------------------------------------------------------------------
  // The counters are exact: expiry is never observed
  // ---------------------------------------------------------------------------

  /** Every counter equals the number of admissions of its window and outlives the next window. */
  ghost predicate Ledger(counters: Counters, admitted: seq<real>, window: real)
    requires window > 0.0
  {
    && (forall k :: k in counters ==>
          && counters[k].count == InWindow(admitted, k, window) > 0
          && counters[k].expiresAt >= WindowStart(k + 2, window))
    && (forall k :: k !in counters ==> InWindow(admitted, k, window) == 0)
  }

  lemma LedgerReads(counters: Counters, admitted: seq<real>, window: real, index: int, now: real)
    requires window > 0.0 && Ledger(counters, admitted, window)
    requires index >= WindowIndex(now, window) - 1
    ensures Read(counters, index, now) == InWindow(admitted, index, window)
  {
    IndexBounds(now, window);
    StartGap(WindowIndex(now, window), index + 2, window);
  }

  lemma IncrementKeepsLedger(counters: Counters, admitted: seq<real>, window: real, now: real)
    requires window > 0.0 && Ledger(counters, admitted, window)
    ensures Ledger(Increment(counters, WindowIndex(now, window), now, window), admitted + [now], window)
  {
    var k := WindowIndex(now, window);
    LedgerReads(counters, admitted, window, k, now);
    IndexBounds(now, window);
    StartShift(k, 2, window);
    assert (admitted + [now])[..|admitted|] == admitted;
  }

  /** A counter lives for two windows and ten seconds after the admission that created it. */
  lemma CounterLifetime(counters: Counters, now: real, window: real, later: real)
    requires window > 0.0 && Read(counters, WindowIndex(now, window), now) == 0
    ensures var counted := Increment(counters, WindowIndex(now, window), now, window);
            Read(counted, WindowIndex(now, window), later) == if later <= now + 2.0 * window + 10000.0 then 1 else 0
  {}

  lemma {:induction false} RunLedger(attempts: seq<real>, window: real, limit: nat)
    requires window > 0.0
    ensures Ledger(Run(attempts, window, limit).counters, Run(attempts, window, limit).admitted, window)
  {
    if attempts == [] {
    } else {
      RunLedger(attempts[..|attempts| - 1], window, limit);
      var before := Run(attempts[..|attempts| - 1], window, limit);
      IncrementKeepsLedger(before.counters, before.admitted, window, attempts[|attempts| - 1]);
    }
  }

  /** At every instant the script reads, for the current and the previous window, exactly the
      number of admissions that ever happened in them: the key expiry set by the script is
      never visible to the estimate. */
  lemma CountersAreExact(attempts: seq<real>, window: real, limit: nat, now: real)
    requires window > 0.0
    ensures var out := Run(attempts, window, limit);
            var index := WindowIndex(now, window);
            && Read(out.counters, index, now) == InWindow(out.admitted, index, window)
            && Read(out.counters, index - 1, now) == InWindow(out.admitted, index - 1, window)
  {
    RunLedger(attempts, window, limit);
    var out := Run(attempts, window, limit);
    var index := WindowIndex(now, window);
    LedgerReads(out.counters, out.admitted, window, index, now);
    LedgerReads(out.counters, out.admitted, window, index - 1, now);
  }

  // ---------------------------------------------------------------------------
  // No fixed window exceeds the limit
  // ---------------------------------------------------------------------------

  lemma {:induction false} FixedWindowBound(attempts: seq<real>, window: real, limit: nat, index: int)
    requires window > 0.0
    ensures InWindow(Run(attempts, window, limit).admitted, index, window) <= limit
  {
    if attempts == [] {
    } else {
      var front, now := attempts[..|attempts| - 1], attempts[|attempts| - 1];
      FixedWindowBound(front, window, limit, index);
      var before := Run(front, window, limit);
      var k := WindowIndex(now, window);
      CountersAreExact(front, window, limit, now);
      IndexBounds(now, window);
      EstimateBounds(Read(before.counters, k - 1, now), Read(before.counters, k, now), window,
                     now - WindowStart(k, window));
      assert (before.admitted + [now])[..|before.admitted|] == before.admitted;
    }
  }

  // ---------------------------------------------------------------------------
  // Every rolling interval
  // ---------------------------------------------------------------------------

  lemma {:induction false} AdmittedAreAttempts(attempts: seq<real>, window: real, limit: nat, upto: real)
    requires window > 0.0
    requires forall i :: 0 <= i < |attempts| ==> attempts[i] <= upto
    ensures forall i :: 0 <= i < |Run(attempts, window, limit).admitted| ==>
              Run(attempts, window, limit).admitted[i] <= upto
  {
    if attempts != [] {
      AdmittedAreAttempts(attempts[..|attempts| - 1], window, limit, upto);
    }
  }

  lemma {:induction false} NothingLater(times: seq<real>, upto: real, index: int, window: real)
    requires window > 0.0
    requires forall i :: 0 <= i < |times| ==> times[i] <= upto
    requires WindowIndex(upto, window) < index
    ensures InWindow(times, index, window) == 0
  {
    if times != [] {
      IndexMonotone(times[|times| - 1], upto, window);
      NothingLater(times[..|times| - 1], upto, index, window);
    }
  }

  lemma {:induction false} IntervalSplits(times: seq<real>, now: real, window: real)
    requires window > 0.0
    ensures var k := WindowIndex(now, window);
            InInterval(times, now - window, now) <= InWindow(times, k, window) + InWindow(times, k - 1, window)
  {
    if times != [] {
      var last := times[|times| - 1];
      var k := WindowIndex(now, window);
      IntervalSplits(times[..|times| - 1], now, window);
      if now - window < last <= now {
        IndexMonotone(last, now, window);
        IndexBounds(now, window);
        StartShift(k, -1, window);
        IndexCharacterised(last, k, window);
        IndexCharacterised(last, k - 1, window);
      }
    }
  }

  /** The newest admission of window `k` was admitted below the limit, and the weight of the
      previous window has only shrunk since. */
  lemma {:induction false} NewestAdmission(attempts: seq<real>, window: real, limit: nat, now: real)
    requires window > 0.0 && Chronological(attempts)
    requires forall i :: 0 <= i < |attempts| ==> attempts[i] <= now
    ensures var admitted := Run(attempts, window, limit).admitted;
            var k := WindowIndex(now, window);
            InWindow(admitted, k, window) > 0 ==>
              IsAllowed(InWindow(admitted, k - 1, window), InWindow(admitted, k, window) - 1,
                        window, now - WindowStart(k, window), limit)
  {
    if attempts == [] {
    } else {
      var front, last := attempts[..|attempts| - 1], attempts[|attempts| - 1];
      var before := Run(front, window, limit);
      var k := WindowIndex(now, window);
      IndexMonotone(last, now, window);
      NewestAdmission(front, window, limit, now);
      if Admits(before.counters, last, window, limit) {
        assert (before.admitted + [last])[..|before.admitted|] == before.admitted;
        if WindowIndex(last, window) == k {
          CountersAreExact(front, window, limit, last);
          EstimateDecays(InWindow(before.admitted, k - 1, window), InWindow(before.admitted, k, window),
                         window, last - WindowStart(k, window), now - WindowStart(k, window));
        } else {
          AdmittedAreAttempts(front, window, limit, last);
          NothingLater(before.admitted, last, k, window);
        }
      }
    }
  }

  /** The count stays below `limit + previous * elapsed / window + 1`, and within twice the limit. */
  ghost predicate WithinBound(count: nat, previous: nat, window: real, elapsed: real, limit: nat)
    requires window > 0.0
  {
    && count as real < limit as real + previous as real * (elapsed / window) + 1.0
    && count <= 2 * limit
  }

  /** The admissions of `(now - window, now]` stay within the bound set by the previous window's
      count and the elapsed part of the current window. */
  ghost predicate RollingBoundAt(admitted: seq<real>, window: real, limit: nat, now: real)
    requires window > 0.0
  {
    var k := WindowIndex(now, window);
    WithinBound(InInterval(admitted, now - window, now), InWindow(admitted, k - 1, window), window,
                now - WindowStart(k, window), limit)
  }

  /** `limit - (1 - e / window) * P` is what the newest admission leaves for the current window. */
  lemma RollingArithmetic(count: nat, P: nat, C: nat, window: real, elapsed: real, limit: nat)
    requires window > 0.0 && 0.0 <= elapsed < window && P <= limit && count <= P + C
    requires C > 0 ==> IsAllowed(P, C - 1, window, elapsed, limit)
    ensures WithinBound(count, P, window, elapsed, limit)
  {
    var w := (window - elapsed) / window;
    var share := elapsed / window;
    Quotient(elapsed, window);
    Quotient(window - elapsed, window);
    Distribute(share, w, window);
    CancelFactor(share + w, 1.0, window);
    WeightBounds(window, elapsed);
    if w <= 0.0 { ScaleLe(w, 0.0, window); }
    var p := P as real;
    assert p * w == p - p * share by { Distribute(w, share, p); }
    ScaleLe(0.0, share, p);
    if C > 0 {
      assert (C - 1) as real + p * w < limit as real;
    }
    if P > 0 {
      ScaleLt(share, 1.0, p);
      assert (P + C) as real < (2 * limit + 1) as real;
    }
  }

  /** The rolling bound for a run whose attempts all happened by `now`. */
  lemma RollingBoundToNow(attempts: seq<real>, window: real, limit: nat, now: real)
    requires window > 0.0 && Chronological(attempts)
    requires forall i :: 0 <= i < |attempts| ==> attempts[i] <= now
    ensures RollingBoundAt(Run(attempts, window, limit).admitted, window, limit, now)
  {
    var admitted := Run(attempts, window, limit).admitted;
    var k := WindowIndex(now, window);
    var P, C := InWindow(admitted, k - 1, window), InWindow(admitted, k, window);
    var elapsed := now - WindowStart(k, window);
    assert 0.0 <= elapsed < window by { IndexBounds(now, window); }
    assert InInterval(admitted, now - window, now) <= P + C by { IntervalSplits(admitted, now, window); }
    assert P <= limit by { FixedWindowBound(attempts, window, limit, k - 1); }
    assert C > 0 ==> IsAllowed(P, C - 1, window, elapsed, limit) by { NewestAdmission(attempts, window, limit, now); }
    RollingArithmetic(InInterval(admitted, now - window, now), P, C, window, elapsed, limit);
  }

  /** Every interval of one window's length, at every instant of every run. */
  lemma {:induction false} RollingBound(attempts: seq<real>, window: real, limit: nat, now: real)
    requires window > 0.0 && Chronological(attempts)
    ensures RollingBoundAt(Run(attempts, window, limit).admitted, window, limit, now)
  {
    if attempts == [] || attempts[|attempts| - 1] <= now {
      RollingBoundToNow(attempts, window, limit, now);
    } else {
      var front, last := attempts[..|attempts| - 1], attempts[|attempts| - 1];
      RollingBound(front, window, limit, now);
      var before := Run(front, window, limit);
      IndexMonotone(now, last, window);
      assert (before.admitted + [last])[..|before.admitted|] == before.admitted;
    }
  }

  // ---------------------------------------------------------------------------
  // The factor two is reached
  // ---------------------------------------------------------------------------

  function Burst(at: real, times: nat): seq<real> {
    seq(times, i => at)
  }

  /** One more attempt at an instant where the estimate is below the limit is admitted. */
  lemma AttemptAdmitted(front: seq<real>, window: real, limit: nat, at: real)
    requires window > 0.0
    requires var admitted := Run(front, window, limit).admitted;
             var k := WindowIndex(at, window);
             IsAllowed(InWindow(admitted, k - 1, window), InWindow(admitted, k, window), window,
                       at - WindowStart(k, window), limit)
    ensures Run(front + [at], window, limit).admitted == Run(front, window, limit).admitted + [at]
  {
    assert (front + [at])[..|front|] == front;
    CountersAreExact(front, window, limit, at);
  }

  lemma InWindowAppend(times: seq<real>, at: real, index: int, window: real)
    requires window > 0.0
    ensures InWindow(times + [at], index, window)
         == InWindow(times, index, window) + if WindowIndex(at, window) == index then 1 else 0
  {
    assert (times + [at])[..|times|] == times;
  }

  lemma AllowedWithFewer(previous: nat, fewer: nat, current: nat, window: real, elapsed: real, limit: nat)
    requires window > 0.0 && fewer <= current && IsAllowed(previous, current, window, elapsed, limit)
    ensures IsAllowed(previous, fewer, window, elapsed, limit)
  {}

  /** A burst of `times` attempts at `at`, all admitted: what `before` admitted, plus the burst. */
  ghost predicate BurstDone(before: seq<real>, window: real, limit: nat, at: real, times: nat)
    requires window > 0.0
  {
    var k := WindowIndex(at, window);
    var admitted := Run(before, window, limit).admitted;
    var after := Run(before + Burst(at, times), window, limit).admitted;
    && after == admitted + Burst(at, times)
    && InWindow(after, k, window) == times
    && InWindow(after, k - 1, window) == InWindow(admitted, k - 1, window)
  }

  lemma BurstAttempt(before: seq<real>, window: real, limit: nat, at: real, times: nat, top: nat)
    requires window > 0.0 && times <= top
    requires IsAllowed(InWindow(Run(before, window, limit).admitted, WindowIndex(at, window) - 1, window), top,
                       window, at - WindowStart(WindowIndex(at, window), window), limit)
    requires BurstDone(before, window, limit, at, times)
    ensures Run(before + Burst(at, times) + [at], window, limit).admitted
         == Run(before + Burst(at, times), window, limit).admitted + [at]
  {
    var k := WindowIndex(at, window);
    AllowedWithFewer(InWindow(Run(before, window, limit).admitted, k - 1, window), times, top, window,
                     at - WindowStart(k, window), limit);
    AttemptAdmitted(before + Burst(at, times), window, limit, at);
  }

  lemma BurstStep(before: seq<real>, window: real, limit: nat, at: real, times: nat)
    requires window > 0.0 && BurstDone(before, window, limit, at, times)
    requires Run(before + Burst(at, times) + [at], window, limit).admitted
          == Run(before + Burst(at, times), window, limit).admitted + [at]
    ensures BurstDone(before, window, limit, at, times + 1)
  {
    var k := WindowIndex(at, window);
    var admitted := Run(before, window, limit).admitted;
    BurstGrows(before, at, times + 1);
    BurstGrows(admitted, at, times + 1);
    InWindowAppend(admitted + Burst(at, times), at, k, window);
    InWindowAppend(admitted + Burst(at, times), at, k - 1, window);
  }

  /** `times` attempts at one instant of a fresh window are all admitted if one with `top` admissions
      before it, `times - 1 <= top`, would be. */
  lemma {:induction false} BurstAdmitted(before: seq<real>, window: real, limit: nat, at: real, times: nat, top: nat)
    requires window > 0.0 && times <= top + 1
    requires InWindow(Run(before, window, limit).admitted, WindowIndex(at, window), window) == 0
    requires IsAllowed(InWindow(Run(before, window, limit).admitted, WindowIndex(at, window) - 1, window), top,
                       window, at - WindowStart(WindowIndex(at, window), window), limit)
    ensures BurstDone(before, window, limit, at, times)
  {
    if times == 0 {
      assert before + Burst(at, 0) == before;
      assert Run(before, window, limit).admitted + Burst(at, 0) == Run(before, window, limit).admitted;
    } else {
      BurstAdmitted(before, window, limit, at, times - 1, top);
      BurstAttempt(before, window, limit, at, times - 1, top);
      BurstStep(before, window, limit, at, times - 1);
    }
  }

  lemma BurstGrows(before: seq<real>, at: real, times: nat)
    requires times > 0
    ensures before + Burst(at, times) == before + Burst(at, times - 1) + [at]
  {}

  lemma {:induction false} AllInInterval(times: seq<real>, after: real, upto: real)
    requires forall i :: 0 <= i < |times| ==> after < times[i] <= upto
    ensures InInterval(times, after, upto) == |times|
  {
    if times != [] {
      AllInInterval(times[..|times| - 1], after, upto);
    }
  }

  /** Two instants in adjacent windows, less than a window apart, the later one so close to the end
      of its window that a full previous window weighs less than one admission. */
  lemma BurstInstants(window: real, limit: nat) returns (first: real, second: real)
    requires window > 0.0 && limit > 0
    ensures WindowIndex(first, window) == 0 && WindowIndex(second, window) == 1
    ensures second - window < first < second
    ensures IsAllowed(limit, limit - 1, window, second - WindowStart(1, window), limit)
  {
    var L := limit as real;
    var s := window / (2.0 * L);
    Quotient(window, 2.0 * L);
    if s <= 0.0 { ScaleLe(s, 0.0, 2.0 * L); }
    if s > window / 2.0 { ScaleLe(2.0, 2.0 * L, s); }
    first, second := window - s, 2.0 * window - 1.5 * s;
    IndexCharacterised(first, 0, window);
    IndexCharacterised(second, 1, window);
    var w := (window - (second - window)) / window;
    Quotient(1.5 * s, window);
    calc {
      (L * w) * window;
      L * (w * window);
      L * (1.5 * s);
      0.75 * (s * (2.0 * L));
      0.75 * window;
    }
    CancelFactor(L * w, 0.75, window);
    assert WindowStart(1, window) == window;
  }

  lemma FullWindowAllowed(limit: nat, window: real, at: real)
    requires window > 0.0 && limit > 0
    ensures IsAllowed(0, limit - 1, window, at - WindowStart(WindowIndex(at, window), window), limit)
  {
    assert 0.0 * ((window - (at - WindowStart(WindowIndex(at, window), window))) / window) == 0.0;
  }

  /** From an idle limiter a full burst in window 0 is admitted. */
  lemma FirstBurst(window: real, limit: nat, first: real)
    requires window > 0.0 && limit > 0 && WindowIndex(first, window) == 0
    ensures Run(Burst(first, limit), window, limit).admitted == Burst(first, limit)
    ensures InWindow(Burst(first, limit), 0, window) == limit
  {
    FullWindowAllowed(limit, window, first);
    assert Run([], window, limit).admitted == [];
    BurstAdmitted([], window, limit, first, limit, limit - 1);
    assert [] + Burst(first, limit) == Burst(first, limit);
  }

  /** For every limit and window some run admits exactly twice the limit within one window's length. */
  lemma TwiceTheLimitIsReached(window: real, limit: nat) returns (attempts: seq<real>, now: real)
    requires window > 0.0
    ensures Chronological(attempts)
    ensures InInterval(Run(attempts, window, limit).admitted, now - window, now) == 2 * limit
  {
    if limit == 0 {
      return [], 0.0;
    }
    var first;
    first, now := BurstInstants(window, limit);
    var one, two := Burst(first, limit), Burst(now, limit);
    attempts := one + two;
    assert Run(attempts, window, limit).admitted == attempts by {
      FirstBurst(window, limit, first);
      NothingLater(one, first, 1, window);
      BurstAdmitted(one, window, limit, now, limit, limit - 1);
    }
    AllInInterval(attempts, now - window, now);
  }

  // ---------------------------------------------------------------------------
  // Decay without admissions
  // ---------------------------------------------------------------------------

  /** The estimate at `now`, given the instants of all admissions. */
  function EstimateAt(admitted: seq<real>, window: real, now: real): real
    requires window > 0.0
  {
    var k := WindowIndex(now, window);
    Estimate(InWindow(admitted, k - 1, window), InWindow(admitted, k, window), window, now - WindowStart(k, window))
  }

  /** Without admissions after `early` the estimate never increases, also across window
      boundaries, where the current count becomes the previous one. */
  lemma EstimateNeverIncreases(admitted: seq<real>, window: real, early: real, late: real)
    requires window > 0.0 && early <= late
    requires forall i :: 0 <= i < |admitted| ==> admitted[i] <= early
    ensures EstimateAt(admitted, window, late) <= EstimateAt(admitted, window, early)
  {
    var j, k := WindowIndex(early, window), WindowIndex(late, window);
    IndexMonotone(early, late, window);
    IndexBounds(early, window);
    IndexBounds(late, window);
    EstimateBounds(InWindow(admitted, j - 1, window), InWindow(admitted, j, window), window,
                   early - WindowStart(j, window));
    if j == k {
      EstimateDecays(InWindow(admitted, k - 1, window), InWindow(admitted, k, window), window,
                     early - WindowStart(k, window), late - WindowStart(k, window));
    } else {
      NothingLater(admitted, early, k, window);
      EstimateBounds(InWindow(admitted, k - 1, window), 0, window, late - WindowStart(k, window));
      if j < k - 1 {
        NothingLater(admitted, early, k - 1, window);
      }
    }
  }
}
