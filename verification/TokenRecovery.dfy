/** When a denied drain tries again: the token recovery delay that inverts the sliding window
    estimate, the jitter added on the fallback path, the rounding of the sleep, and how many
    retries can be denied when nobody else is admitted in the meantime.
  */
module TokenRecovery {
  import opened Numbers
  import opened SlidingWindow

  // ---------------------------------------------------------------------------
  // The delay, the jitter and the sleep
  // ---------------------------------------------------------------------------

  /** Seconds until a token frees; `resetInMs` milliseconds remain of the current window. */
  function RecoveryDelay(previous: int, current: int, resetInMs: real, limit: int, window: real): real {
    if previous <= 0 || current >= limit then resetInMs / 1000.0
    else
      var windowMs := window * 1000.0;
      var timePassedMs := windowMs - resetInMs;
      var neededMs := windowMs * (1.0 - (limit - current) as real / previous as real);
      var waitMs := neededMs - timePassedMs;
      if waitMs <= 0.0 then 0.0 else waitMs / 1000.0
  }

  /** Round to the nearest integer, ties to even. */
  function RoundHalfEven(x: real): int {
    var below := x.Floor;
    var rest := x - below as real;
    if rest < 0.5 || (rest == 0.5 && below % 2 == 0) then below else below + 1
  }

  function LoadPressure(remainingTasks: int): real {
    if remainingTasks <= 0 then 0.0
    else if remainingTasks < 10 then 0.2
    else if remainingTasks < 50 then 0.5
    else if remainingTasks < 100 then 0.7
    else 1.0
  }

  /** From 0.3 at rest to 1.0 for a long queue and no free slot. */
  function JitterScale(remainingTasks: int, activeConcurrency: int, maxConcurrency: int): real {
    var slots := if maxConcurrency < 1 then 1 else maxConcurrency;
    var concurrencyPressure := activeConcurrency as real / slots as real;
    0.3 + (LoadPressure(remainingTasks) * 0.7 + concurrencyPressure * 0.3) * 0.7
  }

  function Share(whole: real, fraction: real): real { whole * fraction }

  function Spread(minJitter: real, maxJitter: real, scale: real, draw: real): real {
    minJitter + Share(Share(maxJitter - minJitter, scale), draw)
  }

  function SpreadMs(minJitter: real, maxJitter: real, scale: real, draw: real): int {
    RoundHalfEven(Spread(minJitter, maxJitter, scale, draw) * 1000.0)
  }

  datatype JitterSettings = JitterSettings(enabled: bool, window: real, minPct: real, maxPct: real,
                                           maxConcurrency: int) {
    function MinJitter(): real { window * minPct }
    function MaxJitter(): real { window * maxPct }
  }

  /** The jitter in milliseconds, for the random draw `draw`; the source rounds to three
      decimals of a second. */
  function SmartJitterMs(s: JitterSettings, remainingTasks: int, activeConcurrency: int, draw: real): int {
    if !s.enabled then 0
    else
      SpreadMs(s.MinJitter(), s.MaxJitter(),
               JitterScale(remainingTasks, activeConcurrency, s.maxConcurrency), draw)
  }

  /** The sleep before the next drain after a denial for lack of tokens, in whole milliseconds. */
  function RetryMs(previous: int, current: int, resetInMs: int, limit: int, window: real, jitterMs: int): int {
    var fallback := previous <= 0 || current >= limit;
    var jitter := if fallback then jitterMs as real / 1000.0 else 0.0;
    RoundHalfEven(Max(0.001, RecoveryDelay(previous, current, resetInMs as real, limit, window) + jitter) * 1000.0)
  }

  // ---------------------------------------------------------------------------
  // Jitter
  // ---------------------------------------------------------------------------

  lemma RoundError(x: real)
    ensures x - 0.5 <= RoundHalfEven(x) as real <= x + 0.5
  {}

  lemma RoundMonotone(x: real, y: real)
    requires x <= y
    ensures RoundHalfEven(x) <= RoundHalfEven(y)
  {}

  ghost predicate JitterInRange(s: JitterSettings, active: int, draw: real) {
    s.enabled && s.window > 0.0 && 0.0 <= s.minPct <= s.maxPct && 0 <= active <= s.maxConcurrency
    && s.maxConcurrency >= 1 && 0.0 <= draw < 1.0
  }

  lemma ConcurrencyPressure(active: int, slots: int)
    requires 0 <= active <= slots && slots >= 1
    ensures 0.0 <= active as real / slots as real <= 1.0
  {
    var p := active as real / slots as real;
    Quotient(active as real, slots as real);
    if p < 0.0 { ScaleLt(p, 0.0, slots as real); }
    if p > 1.0 { ScaleLt(1.0, p, slots as real); }
  }

  lemma PressureMonotone(active: int, busier: int, slots: int)
    requires active <= busier && slots >= 1
    ensures active as real / slots as real <= busier as real / slots as real
  {
    var p, q := active as real / slots as real, busier as real / slots as real;
    Quotient(active as real, slots as real);
    Quotient(busier as real, slots as real);
    if q < p { ScaleLt(q, p, slots as real); }
  }

  lemma ScaleBounds(tasks: int, active: int, slots: int)
    requires 0 <= active <= slots && slots >= 1
    ensures 0.3 <= JitterScale(tasks, active, slots) <= 1.0
  {
    ConcurrencyPressure(active, slots);
  }

  lemma ScaleMonotone(tasks: int, longer: int, active: int, busier: int, slots: int)
    requires tasks <= longer && active <= busier && slots >= 1
    ensures JitterScale(tasks, active, slots) <= JitterScale(longer, busier, slots)
  {
    PressureMonotone(active, busier, slots);
  }

  lemma ShareBounds(whole: real, fraction: real)
    requires 0.0 <= whole && 0.0 <= fraction <= 1.0
    ensures 0.0 <= Share(whole, fraction) <= whole
  {
    ScaleLe(0.0, fraction, whole);
    ScaleLe(fraction, 1.0, whole);
  }

  lemma ShareMonotone(whole: real, larger: real, fraction: real, higher: real)
    requires 0.0 <= whole <= larger && 0.0 <= fraction <= higher
    ensures Share(whole, fraction) <= Share(larger, higher)
  {
    ScaleLe(fraction, higher, whole);
    ScaleLe(whole, larger, higher);
  }

  lemma SpreadBounds(lo: real, hi: real, scale: real, draw: real)
    requires lo <= hi && 0.0 <= scale <= 1.0 && 0.0 <= draw <= 1.0
    ensures lo <= Spread(lo, hi, scale, draw) <= hi
  {
    ShareBounds(hi - lo, scale);
    ShareBounds(Share(hi - lo, scale), draw);
  }

  /** The share of the spread between the two percentages that is used: 30 percent at rest, all of it
      for a queue of a hundred and no free slot; each level of the queue adds its part. */
  lemma SpreadUsed(tasks: int, active: int, slots: int)
    requires slots >= 1
    ensures forall few :: few < 1 ==> JitterScale(tasks, active, few) == JitterScale(tasks, active, 1)
    ensures JitterScale(tasks, 0, slots)
         == 0.3 + 0.49 * (if tasks < 1 then 0.0 else if tasks <= 9 then 0.2 else if tasks <= 49 then 0.5
                          else if tasks <= 99 then 0.7 else 1.0)
    ensures JitterScale(tasks, slots, slots) == JitterScale(tasks, 0, slots) + 0.21
    ensures tasks >= 100 ==> JitterScale(tasks, slots, slots) == 1.0
  {
    assert slots as real / slots as real == 1.0 && 0 as real / slots as real == 0.0;
  }

  /** The jitter is the lower percentage of the window and the drawn part of the used spread, to the
      nearest millisecond; without jitter it is nothing. */
  lemma JitterIs(s: JitterSettings, tasks: int, active: int, draw: real)
    ensures !s.enabled ==> SmartJitterMs(s, tasks, active, draw) == 0
    ensures s.enabled ==>
              var spread := s.window * s.maxPct - s.window * s.minPct;
              var exact := s.window * s.minPct + spread * JitterScale(tasks, active, s.maxConcurrency) * draw;
              -0.5 <= exact * 1000.0 - SmartJitterMs(s, tasks, active, draw) as real <= 0.5
  {
    var scale := JitterScale(tasks, active, s.maxConcurrency);
    var spread := s.window * s.maxPct - s.window * s.minPct;
    assert Share(Share(spread, scale), draw) == spread * scale * draw;
    assert Spread(s.MinJitter(), s.MaxJitter(), scale, draw) == s.window * s.minPct + spread * scale * draw;
    RoundError(Spread(s.MinJitter(), s.MaxJitter(), scale, draw) * 1000.0);
  }

  lemma RoundedMs(seconds: real, lo: real, hi: real)
    requires lo <= seconds <= hi
    ensures lo * 1000.0 - 0.5 <= RoundHalfEven(seconds * 1000.0) as real <= hi * 1000.0 + 0.5
  {
    RoundError(seconds * 1000.0);
  }

  lemma SpreadMsBounds(lo: real, hi: real, scale: real, draw: real)
    requires lo <= hi && 0.0 <= scale <= 1.0 && 0.0 <= draw <= 1.0
    ensures lo * 1000.0 - 0.5 <= SpreadMs(lo, hi, scale, draw) as real <= hi * 1000.0 + 0.5
  {
    SpreadBounds(lo, hi, scale, draw);
    RoundedMs(Spread(lo, hi, scale, draw), lo, hi);
  }

  lemma SpreadMsMonotone(lo: real, hi: real, scale: real, larger: real, draw: real)
    requires lo <= hi && 0.0 <= scale <= larger && 0.0 <= draw <= 1.0
    ensures SpreadMs(lo, hi, scale, draw) <= SpreadMs(lo, hi, larger, draw)
  {
    ShareMonotone(hi - lo, hi - lo, scale, larger);
    assert 0.0 <= Share(hi - lo, scale) by { ScaleLe(0.0, scale, hi - lo); }
    ShareMonotone(Share(hi - lo, scale), Share(hi - lo, larger), draw, draw);
    RoundMonotone(Spread(lo, hi, scale, draw) * 1000.0, Spread(lo, hi, larger, draw) * 1000.0);
  }

  lemma WindowShares(s: JitterSettings, active: int, draw: real)
    requires JitterInRange(s, active, draw)
    ensures 0.0 <= s.MinJitter() <= s.MaxJitter()
  {
    ScaleLe(s.minPct, s.maxPct, s.window);
    ScaleLe(0.0, s.minPct, s.window);
  }

  /** The jitter stays between the two configured shares of the window, up to the rounding. */
  lemma JitterBounds(s: JitterSettings, tasks: int, active: int, draw: real)
    requires JitterInRange(s, active, draw)
    ensures s.MinJitter() * 1000.0 - 0.5 <= SmartJitterMs(s, tasks, active, draw) as real
    ensures SmartJitterMs(s, tasks, active, draw) as real <= s.MaxJitter() * 1000.0 + 0.5
    ensures SmartJitterMs(s, tasks, active, draw) >= 0
  {
    WindowShares(s, active, draw);
    ScaleBounds(tasks, active, s.maxConcurrency);
    SpreadMsBounds(s.MinJitter(), s.MaxJitter(), JitterScale(tasks, active, s.maxConcurrency), draw);
  }

  /** For the same draw, a longer queue and more active tasks never shorten the jitter. */
  lemma JitterMonotone(s: JitterSettings, tasks: int, longer: int, active: int, busier: int, draw: real)
    requires JitterInRange(s, active, draw) && JitterInRange(s, busier, draw)
    requires tasks <= longer && active <= busier
    ensures SmartJitterMs(s, tasks, active, draw) <= SmartJitterMs(s, longer, busier, draw)
  {
    WindowShares(s, active, draw);
    ScaleBounds(tasks, active, s.maxConcurrency);
    ScaleMonotone(tasks, longer, active, busier, s.maxConcurrency);
    SpreadMsMonotone(s.MinJitter(), s.MaxJitter(), JitterScale(tasks, active, s.maxConcurrency),
                     JitterScale(longer, busier, s.maxConcurrency), draw);
  }

  // ---------------------------------------------------------------------------
  // The delay inverts the estimate
  // ---------------------------------------------------------------------------

  /** The elapsed time at which the estimate meets the limit. */
  function Crossing(previous: nat, current: nat, window: real, limit: nat): real
    requires previous > 0
  {
    window * (1.0 - (limit - current) as real / previous as real)
  }

  lemma OrderScaled(x: real, y: real, factor: real)
    requires factor > 0.0
    ensures x < y <==> x * factor < y * factor
    ensures x == y <==> x * factor == y * factor
  {
    if x < y { ScaleLt(x, y, factor); }
    if y < x { ScaleLt(y, x, factor); }
  }

  /** Before the crossing the estimate exceeds the limit, at it they are equal, after it the
      attempt is allowed. */
  lemma CrossingDecides(previous: nat, current: nat, window: real, elapsed: real, limit: nat)
    requires window > 0.0 && previous > 0
    ensures IsAllowed(previous, current, window, elapsed, limit)
        <==> elapsed > Crossing(previous, current, window, limit)
    ensures Estimate(previous, current, window, elapsed) == limit as real
        <==> elapsed == Crossing(previous, current, window, limit)
  {
    var weight := (window - elapsed) / window;
    var share := (limit - current) as real / previous as real;
    Quotient(window - elapsed, window);
    Quotient((limit - current) as real, previous as real);
    OrderScaled(weight, share, previous as real);
    OrderScaled(weight, share, window);
    CrossingShare(window, share);
  }

  lemma CrossingShare(window: real, share: real)
    ensures window * (1.0 - share) == window - share * window
  {}

  lemma CrossingInWindow(previous: nat, current: nat, window: real, limit: nat)
    requires window > 0.0 && previous > 0 && current < limit
    ensures Crossing(previous, current, window, limit) < window
  {
    var share := (limit - current) as real / previous as real;
    Quotient((limit - current) as real, previous as real);
    if share <= 0.0 { ScaleLe(share, 0.0, previous as real); }
    assert share * window > 0.0;
    CrossingShare(window, share);
  }

  // ---------------------------------------------------------------------------
  // The delay is exact
  // ---------------------------------------------------------------------------

  predicate Allowed(admitted: seq<real>, window: real, limit: nat, now: real)
    requires window > 0.0
  {
    EstimateAt(admitted, window, now) < limit as real
  }

  function Previous(admitted: seq<real>, window: real, now: real): nat requires window > 0.0 {
    InWindow(admitted, WindowIndex(now, window) - 1, window)
  }

  function Current(admitted: seq<real>, window: real, now: real): nat requires window > 0.0 {
    InWindow(admitted, WindowIndex(now, window), window)
  }

  function Elapsed(now: real, window: real): real requires window > 0.0 {
    now - WindowStart(WindowIndex(now, window), window)
  }

  ghost predicate AllBy(admitted: seq<real>, now: real) {
    forall i :: 0 <= i < |admitted| ==> admitted[i] <= now
  }

  /** Without further admissions, a later instant of the same window keeps both counts, the next
      window sees the current count as its previous one, and later windows see nothing. */
  lemma QuietCounts(admitted: seq<real>, window: real, now: real, later: real)
    requires window > 0.0 && AllBy(admitted, now) && now <= later
    ensures var j, k := WindowIndex(now, window), WindowIndex(later, window);
            && j <= k
            && (k > j ==> Current(admitted, window, later) == 0)
            && (k == j + 1 ==> Previous(admitted, window, later) == Current(admitted, window, now))
            && (k > j + 1 ==> Previous(admitted, window, later) == 0)
  {
    IndexMonotone(now, later, window);
    var j, k := WindowIndex(now, window), WindowIndex(later, window);
    if j < k { NothingLater(admitted, now, k, window); }
    if j < k - 1 { NothingLater(admitted, now, k - 1, window); }
  }

  /** Once the window has moved on, a limiter that had a free place in its current window admits. */
  lemma LaterWindowsAdmit(admitted: seq<real>, window: real, limit: nat, now: real, later: real)
    requires window > 0.0 && AllBy(admitted, now) && now <= later
    requires Current(admitted, window, now) < limit
    requires WindowIndex(now, window) < WindowIndex(later, window)
    ensures Allowed(admitted, window, limit, later)
  {
    QuietCounts(admitted, window, now, later);
    IndexBounds(later, window);
    EstimateBounds(Previous(admitted, window, later), 0, window, Elapsed(later, window));
  }

  /** With admissions in the previous window and room in the current one, and nobody admitted
      meanwhile: every earlier instant is denied, at a positive delay the estimate equals the
      limit, every later instant is allowed, and the delay never passes the window's end. */
  lemma RecoveryDelayIsExact(admitted: seq<real>, window: real, limit: nat, now: real, delay: real)
    requires window > 0.0 && AllBy(admitted, now)
    requires Previous(admitted, window, now) > 0 && Current(admitted, window, now) < limit
    requires delay == RecoveryDelay(Previous(admitted, window, now), Current(admitted, window, now),
                                    window - Elapsed(now, window), limit, window / 1000.0) * 1000.0
    ensures 0.0 <= delay <= window - Elapsed(now, window)
    ensures forall t :: now <= t < now + delay ==> !Allowed(admitted, window, limit, t)
    ensures delay > 0.0 ==> EstimateAt(admitted, window, now + delay) == limit as real
    ensures forall t :: t > now + delay ==> Allowed(admitted, window, limit, t)
  {
    var P, C := Previous(admitted, window, now), Current(admitted, window, now);
    var elapsed := Elapsed(now, window);
    var cross := Crossing(P, C, window, limit);
    IndexBounds(now, window);
    CrossingInWindow(P, C, window, limit);
    assert delay == if cross - elapsed <= 0.0 then 0.0 else cross - elapsed;
    forall t | now <= t <= now + delay && (t < now + delay || delay > 0.0)
      ensures t < now + delay ==> !Allowed(admitted, window, limit, t)
      ensures t == now + delay ==> EstimateAt(admitted, window, t) == limit as real
    {
      IndexCharacterised(t, WindowIndex(now, window), window);
      CrossingDecides(P, C, window, Elapsed(t, window), limit);
    }
    forall t | t > now + delay ensures Allowed(admitted, window, limit, t) {
      IndexMonotone(now, t, window);
      if WindowIndex(now, window) == WindowIndex(t, window) {
        CrossingDecides(P, C, window, Elapsed(t, window), limit);
      } else {
        LaterWindowsAdmit(admitted, window, limit, now, t);
      }
    }
  }

  // ---------------------------------------------------------------------------
  // Retries
  // ---------------------------------------------------------------------------

  /** `reset_in_ms` as a script reports it at the clock reading `now`: Redis truncates the number. */
  function ReportedReset(now: int, window: real): int requires window > 0.0 {
    Max(0.0, WindowStart(WindowIndex(now as real, window), window) + window - now as real).Floor
  }

  function RetryAt(admitted: seq<real>, window: real, limit: nat, now: int, jitterMs: int): int requires window > 0.0 {
    RetryMs(Previous(admitted, window, now as real), Current(admitted, window, now as real),
            ReportedReset(now, window), limit, window / 1000.0, jitterMs)
  }

  /** Clock readings of consecutive drains: each retry comes no earlier than the sleep asks for. */
  ghost predicate Retries(admitted: seq<real>, window: real, limit: nat, clock: seq<int>, jitterMs: seq<int>)
    requires window > 0.0
  {
    && |jitterMs| == |clock|
    && (forall i :: 0 <= i < |clock| ==> jitterMs[i] >= 0 && AllBy(admitted, clock[i] as real))
    && (forall i :: 0 < i < |clock| ==>
          clock[i] >= clock[i - 1] + RetryAt(admitted, window, limit, clock[i - 1], jitterMs[i - 1]))
  }

  /** Milliseconds by which the reported reset falls short of the real one. */
  function Shortfall(now: int, window: real): real requires window > 0.0 {
    window - Elapsed(now as real, window) - ReportedReset(now, window) as real
  }

  ghost predicate WholeMilliseconds(window: real) { window.Floor as real == window }

  lemma ShortfallBounds(now: int, window: real)
    requires window > 0.0
    ensures 0.0 <= Shortfall(now, window) < 1.0
    ensures WholeMilliseconds(window) ==> Shortfall(now, window) == 0.0
  {
    IndexBounds(now as real, window);
    if WholeMilliseconds(window) {
      var left := (WindowIndex(now as real, window) + 1) * window.Floor - now;
      assert WindowStart(WindowIndex(now as real, window), window) + window - now as real == left as real by {
        WholeProduct(WindowIndex(now as real, window), window);
      }
    }
  }

  lemma WholeProduct(k: int, window: real)
    requires WholeMilliseconds(window)
    ensures k as real * window + window == ((k + 1) * window.Floor) as real
  {
    assert (k + 1) * window.Floor == k * window.Floor + window.Floor;
    IntProduct(k, window.Floor);
  }

  lemma IntProduct(a: int, b: int)
    ensures a as real * b as real == (a * b) as real
    decreases if b < 0 then -b else b
  {
    if b > 0 {
      IntProduct(a, b - 1);
      assert a * b == a * (b - 1) + a;
      assert a as real * b as real == a as real * (b - 1) as real + a as real by {
        assert b as real == (b - 1) as real + 1.0;
      }
    } else if b < 0 {
      IntProduct(a, b + 1);
      assert a * b == a * (b + 1) - a;
      assert a as real * b as real == a as real * (b + 1) as real - a as real by {
        assert b as real == (b + 1) as real - 1.0;
      }
    }
  }

  lemma RetryAtLeastOne(previous: int, current: int, resetInMs: int, limit: int, window: real, jitterMs: int)
    ensures RetryMs(previous, current, resetInMs, limit, window, jitterMs) >= 1
  {
    RoundMonotone(1.0, Max(0.001, RecoveryDelay(previous, current, resetInMs as real, limit, window)
                                  + if previous <= 0 || current >= limit then jitterMs as real / 1000.0 else 0.0)
                       * 1000.0);
  }

  /** On the recovery path the sleep falls short of the crossing by at most half a millisecond
      and the truncation of the reported reset. */
  lemma RecoverySleep(admitted: seq<real>, window: real, limit: nat, now: int, jitterMs: int)
    requires window > 0.0
    requires Previous(admitted, window, now as real) > 0 && Current(admitted, window, now as real) < limit
    ensures Elapsed(now as real, window) + RetryAt(admitted, window, limit, now, jitterMs) as real
         >= Crossing(Previous(admitted, window, now as real), Current(admitted, window, now as real), window, limit)
            - 0.5 - Shortfall(now, window)
  {
    var P, C := Previous(admitted, window, now as real), Current(admitted, window, now as real);
    var delay := RecoveryDelay(P, C, ReportedReset(now, window) as real, limit, window / 1000.0);
    RoundError(Max(0.001, delay + 0.0) * 1000.0);
    assert delay * 1000.0 >= Crossing(P, C, window, limit) - (window - ReportedReset(now, window) as real);
  }

  /** A denied retry leaves the recovery path where it was, one sleep later. */
  lemma DeniedStaysPut(admitted: seq<real>, window: real, limit: nat, now: int, later: int)
    requires window > 0.0 && AllBy(admitted, now as real) && now <= later
    requires Previous(admitted, window, now as real) > 0 && Current(admitted, window, now as real) < limit
    requires !Allowed(admitted, window, limit, later as real)
    ensures WindowIndex(later as real, window) == WindowIndex(now as real, window)
    ensures Elapsed(later as real, window)
        <= Crossing(Previous(admitted, window, now as real), Current(admitted, window, now as real), window, limit)
    ensures Elapsed(later as real, window) == Elapsed(now as real, window) + (later - now) as real
  {
    QuietCounts(admitted, window, now as real, later as real);
    if WindowIndex(now as real, window) < WindowIndex(later as real, window) {
      LaterWindowsAdmit(admitted, window, limit, now as real, later as real);
    }
    CrossingDecides(Previous(admitted, window, now as real), Current(admitted, window, now as real), window,
                    Elapsed(later as real, window), limit);
  }

  /** On the token recovery path at most one more retry is denied when the window is a whole
      number of milliseconds, and at most two for any window. */
  lemma RecoveryRetries(admitted: seq<real>, window: real, limit: nat, clock: seq<int>, jitterMs: seq<int>)
    requires window > 0.0 && Retries(admitted, window, limit, clock, jitterMs)
    requires |clock| >= if WholeMilliseconds(window) then 3 else 4
    requires Previous(admitted, window, clock[0] as real) > 0 && Current(admitted, window, clock[0] as real) < limit
    ensures Allowed(admitted, window, limit, clock[1] as real) || Allowed(admitted, window, limit, clock[2] as real)
            || (!WholeMilliseconds(window) && Allowed(admitted, window, limit, clock[3] as real))
  {
    RetryTicks(admitted, window, limit, clock, jitterMs, 1);
    RetryTicks(admitted, window, limit, clock, jitterMs, 2);
    RecoverySleep(admitted, window, limit, clock[0], jitterMs[0]);
    ShortfallBounds(clock[0], window);
    if !Allowed(admitted, window, limit, clock[1] as real) && !Allowed(admitted, window, limit, clock[2] as real) {
      DeniedStaysPut(admitted, window, limit, clock[0], clock[1]);
      DeniedStaysPut(admitted, window, limit, clock[0], clock[2]);
      if !WholeMilliseconds(window) && !Allowed(admitted, window, limit, clock[3] as real) {
        RetryTicks(admitted, window, limit, clock, jitterMs, 3);
        DeniedStaysPut(admitted, window, limit, clock[0], clock[3]);
      }
    }
  }

  /** Some legal schedule of retries that starts at `now` has its first two retries denied. */
  ghost predicate CanBeDeniedTwice(admitted: seq<real>, window: real, limit: nat, now: int)
    requires window > 0.0
  {
    exists clock, jitterMs :: DeniedTwice(admitted, window, limit, now, clock, jitterMs)
  }

  ghost predicate DeniedTwice(admitted: seq<real>, window: real, limit: nat, now: int, clock: seq<int>,
                              jitterMs: seq<int>)
    requires window > 0.0
  {
    && |clock| == 3 && clock[0] == now && Retries(admitted, window, limit, clock, jitterMs)
    && !Allowed(admitted, window, limit, clock[1] as real) && !Allowed(admitted, window, limit, clock[2] as real)
  }

  /** How far, in milliseconds, the crossing lies behind the end of the first sleep. */
  function Overshoot(admitted: seq<real>, window: real, limit: nat, now: int): real
    requires window > 0.0 && Previous(admitted, window, now as real) > 0
  {
    Crossing(Previous(admitted, window, now as real), Current(admitted, window, now as real), window, limit)
    - Elapsed(now as real, window) - RetryAt(admitted, window, limit, now, 0) as real
  }

  /** On the recovery path the sleep is the rounded distance to the crossing, less the truncation of
      the reported reset, and at least one millisecond; the jitter does not enter. */
  lemma SleepIsRounded(admitted: seq<real>, window: real, limit: nat, now: int, jitterMs: int)
    requires window > 0.0
    requires Previous(admitted, window, now as real) > 0 && Current(admitted, window, now as real) < limit
    ensures var toGo := Crossing(Previous(admitted, window, now as real), Current(admitted, window, now as real),
                                 window, limit)
                        - Elapsed(now as real, window) - Shortfall(now, window);
            RetryAt(admitted, window, limit, now, jitterMs) == RoundHalfEven(Max(1.0, toGo))
  {
    var P, C := Previous(admitted, window, now as real), Current(admitted, window, now as real);
    var reset := ReportedReset(now, window) as real;
    var toGo := Crossing(P, C, window, limit) - (window - reset);
    SleepArithmetic(P, C, reset, limit, window);
    assert (RecoveryDelay(P, C, reset, limit, window / 1000.0) + 0.0) * 1000.0 == Max(0.0, toGo);
  }

  lemma SleepArithmetic(P: nat, C: nat, reset: real, limit: nat, window: real)
    requires window > 0.0 && P > 0 && C < limit
    ensures RecoveryDelay(P, C, reset, limit, window / 1000.0) * 1000.0
         == Max(0.0, Crossing(P, C, window, limit) - (window - reset))
  {
    assert window / 1000.0 * 1000.0 == window;
  }

  /** One sleep later the crossing is at most half a millisecond plus the truncation away, so the
      next sleep is a single millisecond. */
  lemma SecondSleepIsOne(admitted: seq<real>, window: real, limit: nat, now: int)
    requires window > 0.0 && AllBy(admitted, now as real)
    requires Previous(admitted, window, now as real) > 0 && Current(admitted, window, now as real) < limit
    requires !Allowed(admitted, window, limit, (now + RetryAt(admitted, window, limit, now, 0)) as real)
    ensures RetryAt(admitted, window, limit, now + RetryAt(admitted, window, limit, now, 0), 0) == 1
  {
    var sleep := RetryAt(admitted, window, limit, now, 0);
    var later := now + sleep;
    RetryAtLeastOne(Previous(admitted, window, now as real), Current(admitted, window, now as real),
                    ReportedReset(now, window), limit, window / 1000.0, 0);
    DeniedStaysPut(admitted, window, limit, now, later);
    StayedPut(admitted, window, now, later);
    var toGo := Crossing(Previous(admitted, window, now as real), Current(admitted, window, now as real), window, limit)
                - Elapsed(now as real, window) - Shortfall(now, window);
    SleepIsRounded(admitted, window, limit, now, 0);
    SleepIsRounded(admitted, window, limit, later, 0);
    RoundError(Max(1.0, toGo));
  }

  /** Within a window the counts stay, and so does the fraction that the reported reset cuts off. */
  lemma StayedPut(admitted: seq<real>, window: real, now: int, later: int)
    requires window > 0.0 && AllBy(admitted, now as real) && now <= later
    requires WindowIndex(later as real, window) == WindowIndex(now as real, window)
    ensures Previous(admitted, window, later as real) == Previous(admitted, window, now as real)
    ensures Current(admitted, window, later as real) == Current(admitted, window, now as real)
    ensures Elapsed(later as real, window) == Elapsed(now as real, window) + (later - now) as real
    ensures Shortfall(later, window) == Shortfall(now, window)
  {
    var start := WindowStart(WindowIndex(now as real, window), window);
    assert now as real < start + window by { IndexBounds(now as real, window); }
    assert later as real < start + window by { IndexBounds(later as real, window); }
    assert Elapsed(now as real, window) == now as real - start;
    assert Elapsed(later as real, window) == later as real - start;
    assert ReportedReset(now, window) == (start + window - now as real).Floor;
    assert ReportedReset(later, window) == (start + window - later as real).Floor;
    WholeShift(start + window - now as real, later - now);
  }

  lemma WholeShift(x: real, n: int)
    ensures (x - n as real).Floor == x.Floor - n
  {}

  /** With nobody else admitted, two retries on the recovery path can be denied iff the crossing lies
      at least a millisecond behind the end of the first sleep. */
  lemma DeniedTwiceIff(admitted: seq<real>, window: real, limit: nat, now: int)
    requires window > 0.0 && AllBy(admitted, now as real)
    requires Previous(admitted, window, now as real) > 0 && Current(admitted, window, now as real) < limit
    ensures CanBeDeniedTwice(admitted, window, limit, now) <==> Overshoot(admitted, window, limit, now) >= 1.0
  {
    if CanBeDeniedTwice(admitted, window, limit, now) {
      var clock, jitterMs :| DeniedTwice(admitted, window, limit, now, clock, jitterMs);
      DeniedTwiceOvershoots(admitted, window, limit, clock, jitterMs);
    }
    if Overshoot(admitted, window, limit, now) >= 1.0 {
      OvershootDeniesTwice(admitted, window, limit, now);
    }
  }

  lemma OvershootDeniesTwice(admitted: seq<real>, window: real, limit: nat, now: int)
    requires window > 0.0 && AllBy(admitted, now as real)
    requires Previous(admitted, window, now as real) > 0 && Current(admitted, window, now as real) < limit
    requires Overshoot(admitted, window, limit, now) >= 1.0
    ensures var sleep := RetryAt(admitted, window, limit, now, 0);
            DeniedTwice(admitted, window, limit, now, [now, now + sleep, now + sleep + 1], [0, 0, 0])
  {
    var sleep := RetryAt(admitted, window, limit, now, 0);
    assert sleep >= 1 by {
      RetryAtLeastOne(Previous(admitted, window, now as real), Current(admitted, window, now as real),
                      ReportedReset(now, window), limit, window / 1000.0, 0);
    }
    DeniedBeforeCrossing(admitted, window, limit, now, now + sleep);
    DeniedBeforeCrossing(admitted, window, limit, now, now + sleep + 1);
    SecondSleepIsOne(admitted, window, limit, now);
    MinimalSchedule(admitted, window, limit, now, now + sleep);
  }

  lemma MinimalSchedule(admitted: seq<real>, window: real, limit: nat, now: int, next: int)
    requires window > 0.0 && AllBy(admitted, now as real) && now <= next
    requires next == now + RetryAt(admitted, window, limit, now, 0) && RetryAt(admitted, window, limit, next, 0) == 1
    ensures Retries(admitted, window, limit, [now, next, next + 1], [0, 0, 0])
  {}

  lemma DeniedTwiceOvershoots(admitted: seq<real>, window: real, limit: nat, clock: seq<int>, jitterMs: seq<int>)
    requires window > 0.0 && |clock| == 3 && DeniedTwice(admitted, window, limit, clock[0], clock, jitterMs)
    requires Previous(admitted, window, clock[0] as real) > 0 && Current(admitted, window, clock[0] as real) < limit
    ensures Overshoot(admitted, window, limit, clock[0]) >= 1.0
  {
    SleepIsRounded(admitted, window, limit, clock[0], jitterMs[0]);
    SleepIsRounded(admitted, window, limit, clock[0], 0);
    RetryTicks(admitted, window, limit, clock, jitterMs, 1);
    RetryTicks(admitted, window, limit, clock, jitterMs, 2);
    DeniedStaysPut(admitted, window, limit, clock[0], clock[2]);
  }

  /** Up to the crossing, with the counts unchanged, every attempt is denied. */
  lemma DeniedBeforeCrossing(admitted: seq<real>, window: real, limit: nat, now: int, later: int)
    requires window > 0.0 && AllBy(admitted, now as real) && now <= later
    requires Previous(admitted, window, now as real) > 0 && Current(admitted, window, now as real) < limit
    requires Elapsed(now as real, window) + (later - now) as real
          <= Crossing(Previous(admitted, window, now as real), Current(admitted, window, now as real), window, limit)
    ensures !Allowed(admitted, window, limit, later as real)
  {
    var P, C := Previous(admitted, window, now as real), Current(admitted, window, now as real);
    CrossingInWindow(P, C, window, limit);
    IndexBounds(now as real, window);
    IndexCharacterised(later as real, WindowIndex(now as real, window), window);
    StayedPut(admitted, window, now, later);
    CrossingDecides(P, C, window, Elapsed(later as real, window), limit);
  }

  /** Redis takes `2 * window + 10000` as an expiry in milliseconds, and refuses one that is not
      whole: the consume script runs for these windows only. */
  ghost predicate Accepted(window: real) { WholeMilliseconds(2.0 * window) }

  /** There the truncation cuts off nothing or half a millisecond. */
  lemma HalfShortfall(now: int, window: real)
    requires window > 0.0 && Accepted(window)
    ensures Shortfall(now, window) == 0.0 || Shortfall(now, window) == 0.5
  {
    var k := WindowIndex(now as real, window);
    var left := WindowStart(k, window) + window - now as real;
    assert left > 0.0 by { IndexBounds(now as real, window); }
    assert ReportedReset(now, window) == left.Floor && Shortfall(now, window) == left - left.Floor as real;
    TwiceLeft(now, k, window);
    HalfRest(left, (k + 1) * (2.0 * window).Floor - 2 * now);
  }

  lemma TwiceLeft(now: int, k: int, window: real)
    requires Accepted(window)
    ensures 2.0 * (WindowStart(k, window) + window - now as real) == ((k + 1) * (2.0 * window).Floor - 2 * now) as real
  {
    TwiceStart(k, window);
    WholeProduct(k, 2.0 * window);
    WholeDifference((k + 1) * (2.0 * window).Floor, 2 * now);
  }

  lemma TwiceStart(k: int, window: real)
    ensures 2.0 * WindowStart(k, window) == k as real * (2.0 * window)
  {}

  lemma WholeDifference(a: int, b: int)
    ensures (a - b) as real == a as real - b as real
  {}

  lemma HalfRest(left: real, twice: int)
    requires 2.0 * left == twice as real
    ensures left - left.Floor as real == 0.0 || left - left.Floor as real == 0.5
  {
    var whole := left.Floor;
    assert 2 * whole <= twice < 2 * whole + 2;
  }

  /** So for a window that the script accepts, two retries on the recovery path can be denied only by
      an exact tie: the crossing lies one millisecond behind the end of the first sleep, the rounding
      having taken half of it and the truncation the other half. */
  lemma DeniedTwiceIffTie(admitted: seq<real>, window: real, limit: nat, now: int)
    requires window > 0.0 && Accepted(window) && AllBy(admitted, now as real)
    requires Previous(admitted, window, now as real) > 0 && Current(admitted, window, now as real) < limit
    ensures CanBeDeniedTwice(admitted, window, limit, now) <==> Overshoot(admitted, window, limit, now) == 1.0
  {
    DeniedTwiceIff(admitted, window, limit, now);
    HalfShortfall(now, window);
    SleepIsRounded(admitted, window, limit, now, 0);
    var toGo := Crossing(Previous(admitted, window, now as real), Current(admitted, window, now as real), window, limit)
                - Elapsed(now as real, window) - Shortfall(now, window);
    RoundError(Max(1.0, toGo));
  }

  /** An attempt below the limit extends a run of admissions. */
  lemma AdmitNext(front: seq<real>, window: real, limit: nat, at: real, k: int, P: nat, C: nat)
    requires window > 0.0 && Run(front, window, limit).admitted == front && WindowIndex(at, window) == k
    requires InWindow(front, k - 1, window) == P && InWindow(front, k, window) == C
    requires IsAllowed(P, C, window, at - WindowStart(k, window), limit)
    ensures Run(front + [at], window, limit).admitted == front + [at]
    ensures forall j :: InWindow(front + [at], j, window) == InWindow(front, j, window) + if j == k then 1 else 0
  {
    AttemptAdmitted(front, window, limit, at);
    forall j ensures InWindow(front + [at], j, window) == InWindow(front, j, window) + if j == k then 1 else 0 {
      InWindowAppend(front, at, j, window);
    }
  }

  /** It happens: with a window of 1000.5 milliseconds and a limit of 3, three tasks are admitted at
      1500, one at 2002 and one at 2335.  The attempt at 2337 is denied, and so are the retries at
      2667, after a sleep of 330, and at 2668, where the estimate exactly meets the limit. */
  lemma TieDeniesTwice() returns (admitted: seq<real>)
    ensures admitted == [1500.0, 1500.0, 1500.0, 2002.0, 2335.0] && Accepted(1000.5)
    ensures Run(admitted, 1000.5, 3).admitted == admitted && AllBy(admitted, 2337.0)
    ensures Previous(admitted, 1000.5, 2337.0) == 3 && Current(admitted, 1000.5, 2337.0) == 2
    ensures !Allowed(admitted, 1000.5, 3, 2337.0) && RetryAt(admitted, 1000.5, 3, 2337, 0) == 330
    ensures CanBeDeniedTwice(admitted, 1000.5, 3, 2337)
  {
    var window := 1000.5;
    admitted := TieAdmissions();
    IndexCharacterised(2337.0, 2, window);
    assert Crossing(3, 2, window, 3) == 667.0;
    CrossingDecides(3, 2, window, 2337.0 - 2001.0, 3);
    assert ReportedReset(2337, window) == 664;
    SleepIsRounded(admitted, window, 3, 2337, 0);
    DeniedTwiceIffTie(admitted, window, 3, 2337);
  }

  lemma TieAdmissions() returns (admitted: seq<real>)
    ensures admitted == [1500.0, 1500.0, 1500.0, 2002.0, 2335.0]
    ensures Run(admitted, 1000.5, 3).admitted == admitted
    ensures InWindow(admitted, 1, 1000.5) == 3 && InWindow(admitted, 2, 1000.5) == 2
  {
    var window := 1000.5;
    IndexCharacterised(1500.0, 1, window);
    IndexCharacterised(2002.0, 2, window);
    IndexCharacterised(2335.0, 2, window);
    admitted := [];
    AdmitNext(admitted, window, 3, 1500.0, 1, 0, 0);
    admitted := admitted + [1500.0];
    AdmitNext(admitted, window, 3, 1500.0, 1, 0, 1);
    admitted := admitted + [1500.0];
    AdmitNext(admitted, window, 3, 1500.0, 1, 0, 2);
    admitted := admitted + [1500.0];
    AdmitNext(admitted, window, 3, 2002.0, 2, 3, 0);
    admitted := admitted + [2002.0];
    AdmitNext(admitted, window, 3, 2335.0, 2, 3, 1);
    admitted := admitted + [2335.0];
  }

  lemma RetryTicks(admitted: seq<real>, window: real, limit: nat, clock: seq<int>, jitterMs: seq<int>, i: nat)
    requires window > 0.0 && Retries(admitted, window, limit, clock, jitterMs) && 0 < i < |clock|
    ensures clock[i] >= clock[i - 1] + 1
  {
    RetryAtLeastOne(Previous(admitted, window, clock[i - 1] as real), Current(admitted, window, clock[i - 1] as real),
                    ReportedReset(clock[i - 1], window), limit, window / 1000.0, jitterMs[i - 1]);
  }

  /** On the fallback path the sleep is the reported reset plus the jitter, and at least a millisecond. */
  lemma FallbackSleepIs(previous: int, current: int, resetInMs: int, limit: int, window: real, jitterMs: int)
    requires previous <= 0 || current >= limit
    ensures var sleep := RetryMs(previous, current, resetInMs, limit, window, jitterMs);
            sleep == if resetInMs + jitterMs < 1 then 1 else resetInMs + jitterMs
  {
    var whole := (resetInMs + jitterMs) as real;
    assert Max(0.001, RecoveryDelay(previous, current, resetInMs as real, limit, window) + jitterMs as real / 1000.0)
        * 1000.0 == Max(1.0, whole);
  }

  /** So it ends at the end of the window plus the jitter, less what the truncation cuts off the reset,
      or one millisecond from now if that is later. */
  lemma FallbackEndsWithWindow(admitted: seq<real>, window: real, limit: nat, now: int, jitterMs: int)
    requires window > 0.0 && jitterMs >= 0
    requires Previous(admitted, window, now as real) == 0 || Current(admitted, window, now as real) >= limit
    ensures var end := WindowStart(WindowIndex(now as real, window), window) + window + jitterMs as real;
            var sleep := RetryAt(admitted, window, limit, now, jitterMs);
            && sleep >= 1
            && (sleep > 1 ==> end - 1.0 < (now + sleep) as real <= end)
            && (sleep == 1 ==> (now + sleep) as real > end - 1.0)
            && (WholeMilliseconds(window) ==> (now + sleep) as real == end)
  {
    FallbackSleepIs(Previous(admitted, window, now as real), Current(admitted, window, now as real),
                    ReportedReset(now, window), limit, window / 1000.0, jitterMs);
    ShortfallBounds(now, window);
    assert now as real < WindowStart(WindowIndex(now as real, window), window) + window by {
      IndexBounds(now as real, window);
    }
  }

  /** Nearest, and even when two are equally near. */
  lemma RoundsToNearestEven(x: real, n: int)
    ensures n == RoundHalfEven(x) <==>
              && -0.5 <= x - n as real <= 0.5
              && (x - n as real == 0.5 || x - n as real == -0.5 ==> n % 2 == 0)
  {
    var below := x.Floor;
    assert -0.5 <= x - n as real <= 0.5 ==> n == below || n == below + 1;
  }

  /** A denied attempt on the fallback path sees a current window that is full on its own. */
  lemma FallbackMeansFull(admitted: seq<real>, window: real, limit: nat, now: real)
    requires window > 0.0 && !Allowed(admitted, window, limit, now)
    requires Previous(admitted, window, now) == 0 || Current(admitted, window, now) >= limit
    ensures Current(admitted, window, now) >= limit
  {
    if Previous(admitted, window, now) == 0 {
      assert 0.0 * ((window - Elapsed(now, window)) / window) == 0.0;
    }
  }

  /** The fallback sleep ends in a later window, or, for a window that is not a whole number of
      milliseconds, less than a millisecond before it. */
  lemma FallbackSleep(admitted: seq<real>, window: real, limit: nat, now: int, later: int, jitterMs: int)
    requires window > 0.0 && jitterMs >= 0
    requires Current(admitted, window, now as real) >= limit
    requires later >= now + RetryAt(admitted, window, limit, now, jitterMs)
    ensures later as real > WindowStart(WindowIndex(now as real, window), window) + window - 1.0
    ensures WholeMilliseconds(window) ==> WindowIndex(later as real, window) > WindowIndex(now as real, window)
  {
    ShortfallBounds(now, window);
    var reset := ReportedReset(now, window);
    var P, C := Previous(admitted, window, now as real), Current(admitted, window, now as real);
    RoundMonotone(reset as real, Max(0.001, reset as real / 1000.0 + jitterMs as real / 1000.0) * 1000.0);
    assert RetryAt(admitted, window, limit, now, jitterMs) >= reset;
    if WholeMilliseconds(window) {
      IndexBounds(later as real, window);
      var k := WindowIndex(now as real, window);
      IndexMonotone(now as real, later as real, window) by { assert reset >= 0; }
      IndexCharacterised(later as real, k, window);
    }
  }

  /** The first instant of a later window either admits or starts a token recovery. */
  lemma AfterBoundary(admitted: seq<real>, window: real, limit: nat, now: int, later: int)
    requires window > 0.0 && limit > 0 && AllBy(admitted, now as real) && now <= later
    requires WindowIndex(later as real, window) > WindowIndex(now as real, window)
    ensures Allowed(admitted, window, limit, later as real)
            || (Previous(admitted, window, later as real) > 0 && Current(admitted, window, later as real) < limit)
  {
    QuietCounts(admitted, window, now as real, later as real);
    if Previous(admitted, window, later as real) == 0 {
      assert 0.0 * ((window - Elapsed(later as real, window)) / window) == 0.0;
    }
  }

  lemma RetriesFrom(admitted: seq<real>, window: real, limit: nat, clock: seq<int>, jitterMs: seq<int>, i: nat)
    requires window > 0.0 && Retries(admitted, window, limit, clock, jitterMs) && i <= |clock|
    ensures Retries(admitted, window, limit, clock[i..], jitterMs[i..])
  {}

  /** With a positive limit and nobody else admitted, every rate denial is followed by an allowed
      attempt within three retries when the window is a whole number of milliseconds, and within
      five for any window, whichever path computed the sleeps and however long the jitter was. */
  lemma EveryDenialRecovers(admitted: seq<real>, window: real, limit: nat, clock: seq<int>, jitterMs: seq<int>)
    requires window > 0.0 && limit > 0 && Retries(admitted, window, limit, clock, jitterMs)
    requires |clock| >= if WholeMilliseconds(window) then 4 else 6
    ensures exists i :: 0 <= i < (if WholeMilliseconds(window) then 4 else 6) &&
              Allowed(admitted, window, limit, clock[i] as real)
  {
    if Allowed(admitted, window, limit, clock[0] as real) {
    } else if Previous(admitted, window, clock[0] as real) > 0 && Current(admitted, window, clock[0] as real) < limit {
      RecoveryRetries(admitted, window, limit, clock, jitterMs);
    } else {
      FallbackMeansFull(admitted, window, limit, clock[0] as real);
      FallbackSleep(admitted, window, limit, clock[0], clock[1], jitterMs[0]);
      RetryTicks(admitted, window, limit, clock, jitterMs, 1);
      RetryTicks(admitted, window, limit, clock, jitterMs, 2);
      var i := if WholeMilliseconds(window) then 1 else 2;
      assert WindowIndex(clock[i] as real, window) > WindowIndex(clock[0] as real, window) by {
        IndexMonotone(clock[0] as real, clock[i] as real, window);
        IndexCharacterised(clock[i] as real, WindowIndex(clock[0] as real, window), window);
      }
      AfterBoundary(admitted, window, limit, clock[0], clock[i]);
      if !Allowed(admitted, window, limit, clock[i] as real) {
        RetriesFrom(admitted, window, limit, clock, jitterMs, i);
        RecoveryRetries(admitted, window, limit, clock[i..], jitterMs[i..]);
      }
    }
  }
}
