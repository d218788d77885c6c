/** The shared configuration of a limiter: how overrides are applied, what is persisted, and the
    pause that a change of window imposes on draining.
  */
module Configuration {
  import opened Options
  import opened Numbers

  datatype Config = Config(limit: int, window: real, maxConcurrency: int, maxAge: int, leaseDuration: int)

  datatype Overrides = Overrides(
    limit: Option<int>,
    window: Option<real>,
    maxConcurrency: Option<int>,
    maxAge: Option<int>,
    leaseDuration: Option<int>)

  /** A limiter's configuration and the wall-clock time until which it must not drain. */
  datatype Instance = Instance(config: Config, pausedUntil: real)

  function GetOr<T>(o: Option<T>, default: T): T {
    match o
    case Some(v) => v
    case None => default
  }

  predicate ChangesWindow(c: Config, o: Overrides) {
    o.window.Some? && o.window.value != c.window
  }

  function ApplyOverrides(i: Instance, o: Overrides, now: real): Instance {
    Instance(
      Config(GetOr(o.limit, i.config.limit), GetOr(o.window, i.config.window),
             GetOr(o.maxConcurrency, i.config.maxConcurrency), GetOr(o.maxAge, i.config.maxAge),
             GetOr(o.leaseDuration, i.config.leaseDuration)),
      if ChangesWindow(i.config, o) then now + Max(i.config.window, o.window.value) else i.pausedUntil)
  }

  /** An override sets its field; an absent one leaves it, and without a new window the pause stays. */
  lemma OverridesSetTheirFields(i: Instance, o: Overrides, now: real)
    ensures var c, after := i.config, ApplyOverrides(i, o, now);
            && after.config.limit == (match o.limit case Some(v) => v case None => c.limit)
            && after.config.window == (match o.window case Some(v) => v case None => c.window)
            && after.config.maxConcurrency == (match o.maxConcurrency case Some(v) => v case None => c.maxConcurrency)
            && after.config.maxAge == (match o.maxAge case Some(v) => v case None => c.maxAge)
            && after.config.leaseDuration == (match o.leaseDuration case Some(v) => v case None => c.leaseDuration)
            && (after.config.window == c.window ==> after.pausedUntil == i.pausedUntil)
  {}

  /** Every field is persisted. */
  function Persisted(c: Config): Overrides {
    Overrides(Some(c.limit), Some(c.window), Some(c.maxConcurrency), Some(c.maxAge), Some(c.leaseDuration))
  }

  /** Applying one instance's persisted configuration to any other makes them agree, and applying
      it again, at whatever later time, changes neither the fields nor the pause. */
  lemma PersistedMakesAgree(from: Instance, to: Instance, now: real, later: real)
    ensures ApplyOverrides(to, Persisted(from.config), now).config == from.config
    ensures ApplyOverrides(ApplyOverrides(to, Persisted(from.config), now), Persisted(from.config), later)
         == ApplyOverrides(to, Persisted(from.config), now)
  {}

  // ---------------------------------------------------------------------------
  // The pause after a window change
  // ---------------------------------------------------------------------------

  datatype PauseEvent =
    | Reconfigure(overrides: Overrides, now: real)
    | DrainAttempt(now: real)

  function PauseStep(i: Instance, e: PauseEvent): Instance {
    match e
    case Reconfigure(o, now) => ApplyOverrides(i, o, now)
    case DrainAttempt(_) => i
  }

  /** An attempt goes on to consume once the pause has expired. */
  predicate Consumes(i: Instance, e: PauseEvent) {
    e.DrainAttempt? && e.now >= i.pausedUntil
  }

  /** No reconfiguration among the events changes the window. */
  ghost predicate KeepsWindow(i: Instance, events: seq<PauseEvent>)
    decreases |events|
  {
    events == [] || ((events[0].Reconfigure? ==> !ChangesWindow(i.config, events[0].overrides))
                     && KeepsWindow(PauseStep(i, events[0]), events[1..]))
  }

  ghost predicate ConsumesOnlyFrom(i: Instance, events: seq<PauseEvent>, earliest: real)
    decreases |events|
  {
    events == [] || ((Consumes(i, events[0]) ==> events[0].now >= earliest)
                     && ConsumesOnlyFrom(PauseStep(i, events[0]), events[1..], earliest))
  }

  lemma {:induction false} PauseLasts(i: Instance, events: seq<PauseEvent>)
    requires KeepsWindow(i, events)
    ensures ConsumesOnlyFrom(i, events, i.pausedUntil)
    decreases |events|
  {
    if events != [] {
      PauseLasts(PauseStep(i, events[0]), events[1..]);
    }
  }

  /** After a window change the instance starts no consume for the longer of the two windows,
      until another window change. */
  lemma WindowChangePauses(i: Instance, o: Overrides, now: real, events: seq<PauseEvent>)
    requires ChangesWindow(i.config, o) && KeepsWindow(ApplyOverrides(i, o, now), events)
    ensures ConsumesOnlyFrom(ApplyOverrides(i, o, now), events, now + Max(i.config.window, o.window.value))
  {
    PauseLasts(ApplyOverrides(i, o, now), events);
  }

  /** A second change ends the pause of a window change early iff it changes the window again and
      its own pause is over first. */
  lemma SecondChangeShortensIff(i: Instance, o: Overrides, now: real, again: Overrides, later: real)
    requires ChangesWindow(i.config, o)
    ensures var first := ApplyOverrides(i, o, now);
            var second := ApplyOverrides(first, again, later);
            second.pausedUntil < first.pausedUntil
            <==> ChangesWindow(first.config, again)
                 && later + Max(o.window.value, again.window.value) < now + Max(i.config.window, o.window.value)
  {}

  function AfterAll(i: Instance, events: seq<PauseEvent>): Instance {
    if events == [] then i else PauseStep(AfterAll(i, events[..|events| - 1]), events[|events| - 1])
  }

  /** The event at `k` changes the window that the instance has by then. */
  predicate ChangesAt(i: Instance, events: seq<PauseEvent>, k: nat) {
    k < |events| && events[k].Reconfigure? && ChangesWindow(AfterAll(i, events[..k]).config, events[k].overrides)
  }

  predicate ChangesNothingFrom(i: Instance, events: seq<PauseEvent>, k: nat) {
    forall j: nat :: k <= j < |events| ==> !ChangesAt(i, events, j)
  }

  lemma {:induction false} PauseStays(i: Instance, events: seq<PauseEvent>, k: nat)
    requires k <= |events| && ChangesNothingFrom(i, events, k)
    ensures AfterAll(i, events).pausedUntil == AfterAll(i, events[..k]).pausedUntil
    decreases |events|
  {
    if k < |events| {
      var front := events[..|events| - 1];
      assert front[..k] == events[..k];
      forall j: nat | k <= j < |front| ensures !ChangesAt(i, front, j) {
        assert front[..j] == events[..j] && !ChangesAt(i, events, j);
      }
      PauseStays(i, front, k);
      assert !ChangesAt(i, events, |events| - 1);
    } else {
      assert events[..k] == events;
    }
  }

  /** After any sequence of changes a drain consumes iff the pause of the last window change is over:
      the longer of the windows before and after that change, from its instant on. */
  lemma ConsumesAfterChangesIff(i: Instance, events: seq<PauseEvent>, k: nat, at: real)
    requires ChangesAt(i, events, k) && ChangesNothingFrom(i, events, k + 1)
    ensures Consumes(AfterAll(i, events), DrainAttempt(at))
       <==> at >= events[k].now + Max(AfterAll(i, events[..k]).config.window, events[k].overrides.window.value)
  {
    PauseStays(i, events, k + 1);
    assert events[..k + 1][..k] == events[..k];
  }

  /** Without any window change it consumes iff the pause it had is over. */
  lemma ConsumesWithoutChangeIff(i: Instance, events: seq<PauseEvent>, at: real)
    requires ChangesNothingFrom(i, events, 0)
    ensures Consumes(AfterAll(i, events), DrainAttempt(at)) <==> at >= i.pausedUntil
  {
    PauseStays(i, events, 0);
  }
}
