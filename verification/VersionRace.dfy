/** One limiter instance used by two threads: the drain thread refreshes its configuration while a
    caller updates it.  Only the versions are followed here.
  */
module VersionRace {
  import opened Options

  /** The version counter in the registry, the version the instance holds, and the version a refresh
      has read and not yet adopted. */
  datatype Versions = Versions(registry: nat, held: nat, reading: Option<nat>)

  datatype Event =
      // HINCRBY at the end of an update of this instance, or of another one.
    | Commit
    | OtherCommit
      // The first and the last step of a refresh.
    | ReadVersion
    | AdoptVersion

  predicate Enabled(v: Versions, e: Event) {
    match e
    case ReadVersion => v.reading.None?
    case AdoptVersion => v.reading.Some?
    case _ => true
  }

  function Apply(v: Versions, e: Event): Versions
    requires Enabled(v, e)
  {
    match e
    case Commit => v.(registry := v.registry + 1, held := v.registry + 1)
    case OtherCommit => v.(registry := v.registry + 1)
    case ReadVersion => if v.registry <= v.held then v else v.(reading := Some(v.registry))
    case AdoptVersion => v.(held := v.reading.value, reading := None)
  }

  ghost predicate Behavior(v: Versions, events: seq<Event>)
    decreases |events|
  {
    events == [] || (Enabled(v, events[0]) && Behavior(Apply(v, events[0]), events[1..]))
  }

  ghost function After(v: Versions, events: seq<Event>): Versions
    requires Behavior(v, events)
    decreases |events|
  {
    if events == [] then v else After(Apply(v, events[0]), events[1..])
  }

  ghost predicate Behind(v: Versions) {
    v.held <= v.registry && (v.reading.Some? ==> v.reading.value <= v.registry)
  }

  /** Neither the version held nor the one being read ever passes the registry's. */
  lemma {:induction false} NeverAhead(v: Versions, events: seq<Event>)
    requires Behind(v) && Behavior(v, events)
    ensures Behind(After(v, events))
    decreases |events|
  {
    if events != [] { NeverAhead(Apply(v, events[0]), events[1..]); }
  }

  /** While a refresh is under way, the version held passes the one it has read iff an update of the
      same instance commits. */
  lemma {:induction false} HeldPassesIff(v: Versions, events: seq<Event>)
    requires Behind(v) && v.reading.Some? && Behavior(v, events) && AdoptVersion !in events
    ensures var end := After(v, events);
            && end.reading == v.reading
            && (end.held > v.reading.value <==> v.held > v.reading.value || Commit in events)
    decreases |events|
  {
    if events != [] {
      HeldPassesIff(Apply(v, events[0]), events[1..]);
      HeldGrows(Apply(v, events[0]), events[1..]);
      assert events == [events[0]] + events[1..];
    }
  }

  lemma {:induction false} HeldGrows(v: Versions, events: seq<Event>)
    requires Behind(v) && Behavior(v, events) && AdoptVersion !in events
    ensures After(v, events).held >= v.held
    decreases |events|
  {
    if events != [] { HeldGrows(Apply(v, events[0]), events[1..]); }
  }

  /** A refresh that goes on lowers the version held when it ends iff an update of the same instance
      committed since it read the version.  Without a second thread that cannot happen. */
  lemma RefreshLowersIff(v: Versions, events: seq<Event>)
    requires Behind(v) && v.reading.None? && v.held < v.registry
    requires Behavior(Apply(v, ReadVersion), events) && AdoptVersion !in events
    ensures var end := After(Apply(v, ReadVersion), events);
            Enabled(end, AdoptVersion) && (Apply(end, AdoptVersion).held < end.held <==> Commit in events)
  {
    HeldPassesIff(Apply(v, ReadVersion), events);
  }

  /** The loss is passing: the version held is then behind the registry's, so the next refresh goes
      on, and by itself brings the two together again. */
  lemma NextRefreshHeals(v: Versions)
    requires Behind(v) && v.reading.Some? && v.reading.value < v.held
    ensures var lowered := Apply(v, AdoptVersion);
            && lowered.held < lowered.registry && Apply(lowered, ReadVersion).reading.Some?
            && Apply(Apply(lowered, ReadVersion), AdoptVersion).held == v.registry
  {}

  ghost function CommitsOf(events: seq<Event>): nat {
    if events == [] then 0
    else (if events[0].Commit? || events[0].OtherCommit? then 1 else 0) + CommitsOf(events[1..])
  }

  /** The registry counts every commit once, and an update of the instance leaves it at the registry's
      version; a commit may come at any time. */
  lemma {:induction false} RegistryCounts(v: Versions, events: seq<Event>)
    requires Behavior(v, events)
    ensures After(v, events).registry == v.registry + CommitsOf(events)
    ensures Enabled(v, Commit) && Enabled(v, OtherCommit)
    ensures Apply(v, Commit).held == Apply(v, Commit).registry && Apply(v, OtherCommit).held == v.held
    decreases |events|
  {
    if events != [] { RegistryCounts(Apply(v, events[0]), events[1..]); }
  }

  /** A refresh goes on exactly when the registry is ahead of the instance, and by itself brings the
      instance to the version it read. */
  lemma RefreshGoesOnIff(v: Versions)
    requires Enabled(v, ReadVersion)
    ensures Apply(v, ReadVersion).reading.Some? <==> v.registry > v.held
    ensures v.registry > v.held ==> Apply(Apply(v, ReadVersion), AdoptVersion) == v.(held := v.registry)
  {}
}
