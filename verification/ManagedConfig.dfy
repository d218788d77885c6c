/** The protocol by which limiter instances share a configuration through two Redis hashes: a persist
    writes the configuration and then increments the version; a refresh reads the version and then
    the configuration.  Each read and write is one step, and the steps of all instances interleave.

    Writes are numbered from 1.  An instance remembers, in `source`, which write its configuration
    came from; 0 stands for a configuration that was never written.
  */
module ManagedConfig {
  import opened Options
  import opened Configuration

  type InstanceId = string

  datatype Activity =
    | Idle
      // Between HSET and HINCRBY, of write number `write`.
    | Persisting(write: nat)
      // Between the two reads of a refresh, having read version `remote`.
    | Refreshing(remote: nat)
      // Between the two reads of `get`, having read write number `write`.
    | Getting(write: nat)

  datatype Limiter = Limiter(config: Config, version: nat, source: nat, activity: Activity)

  /** All configurations written so far, the last of which is stored, and the version counter. */
  datatype System = System(writes: seq<Config>, version: nat, instances: map<InstanceId, Limiter>)

  datatype Event =
    | Create(id: InstanceId, config: Config)
    | BeginPersist(id: InstanceId, config: Config)
    | EndPersist(id: InstanceId)
    | BeginRefresh(id: InstanceId)
    | EndRefresh(id: InstanceId)
    | BeginGet(id: InstanceId)
    | EndGet(id: InstanceId)

  predicate Doing(sys: System, id: InstanceId, activity: Activity) {
    id in sys.instances && sys.instances[id].activity == activity
  }

  predicate Enabled(sys: System, e: Event) {
    match e
    case Create(id, _) => id !in sys.instances
    case BeginPersist(id, _) => Doing(sys, id, Idle)
    case EndPersist(id) => id in sys.instances && sys.instances[id].activity.Persisting?
    case BeginRefresh(id) => Doing(sys, id, Idle)
    case EndRefresh(id) => id in sys.instances && sys.instances[id].activity.Refreshing?
    case BeginGet(id) => id !in sys.instances && sys.writes != []
    case EndGet(id) => id in sys.instances && sys.instances[id].activity.Getting?
  }

  function Stored(sys: System): Config
    requires sys.writes != []
  {
    sys.writes[|sys.writes| - 1]
  }

  function Set(sys: System, id: InstanceId, l: Limiter): System {
    sys.(instances := sys.instances[id := l])
  }

  function Apply(sys: System, e: Event): System
    requires Enabled(sys, e)
  {
    match e
    case Create(id, config) => Set(sys, id, Limiter(config, 0, 0, Idle))
    case BeginPersist(id, config) =>
      var write := |sys.writes| + 1;
      Set(sys.(writes := sys.writes + [config]), id,
          Limiter(config, sys.instances[id].version, write, Persisting(write)))
    case EndPersist(id) =>
      Set(sys.(version := sys.version + 1), id,
          sys.instances[id].(version := sys.version + 1, activity := Idle))
    case BeginRefresh(id) =>
      if sys.version <= sys.instances[id].version then sys
      else Set(sys, id, sys.instances[id].(activity := Refreshing(sys.version)))
    case EndRefresh(id) =>
      if sys.writes == [] then Set(sys, id, sys.instances[id].(activity := Idle))
      else Set(sys, id, Limiter(Stored(sys), sys.instances[id].activity.remote, |sys.writes|, Idle))
    case BeginGet(id) => Set(sys, id, Limiter(Stored(sys), 0, |sys.writes|, Getting(|sys.writes|)))
    case EndGet(id) => Set(sys, id, sys.instances[id].(version := sys.version, activity := Idle))
  }

  /** What one instance sees: the registry and itself. */
  function SeenBy(sys: System, id: InstanceId): System {
    sys.(instances := if id in sys.instances then map[id := sys.instances[id]] else map[])
  }

  /** A step of an instance depends on, and changes, nothing of the others. */
  lemma StepIsLocal(sys: System, e: Event)
    ensures Enabled(sys, e) <==> Enabled(SeenBy(sys, e.id), e)
    ensures Enabled(sys, e) ==>
              var seen := Apply(SeenBy(sys, e.id), e);
              Apply(sys, e) == seen.(instances := sys.instances + seen.instances)
  {}

  ghost predicate Behavior(sys: System, events: seq<Event>)
    decreases |events|
  {
    events == [] || (Enabled(sys, events[0]) && Behavior(Apply(sys, events[0]), events[1..]))
  }

  ghost function After(sys: System, events: seq<Event>): System
    requires Behavior(sys, events)
    decreases |events|
  {
    if events == [] then sys else After(Apply(sys, events[0]), events[1..])
  }

  // ---------------------------------------------------------------------------
  // Runs whose persists do not overlap
  // ---------------------------------------------------------------------------

  predicate Persists(sys: System, id: InstanceId) {
    id in sys.instances && sys.instances[id].activity.Persisting?
  }

  ghost predicate NobodyPersists(sys: System) {
    forall id :: !Persists(sys, id)
  }

  /** No persist begins while another is between its two writes. */
  ghost predicate PersistsInTurn(sys: System, events: seq<Event>)
    requires Behavior(sys, events)
    decreases |events|
  {
    events == [] || ((events[0].BeginPersist? ==> NobodyPersists(sys))
                     && PersistsInTurn(Apply(sys, events[0]), events[1..]))
  }

  /** `get` is atomic: nothing happens between its two reads. */
  ghost predicate GetsAtOnce(sys: System, events: seq<Event>)
    requires Behavior(sys, events)
    decreases |events|
  {
    events == [] || ((forall id :: id in sys.instances && sys.instances[id].activity.Getting? ==>
                        events[0] == EndGet(id))
                     && GetsAtOnce(Apply(sys, events[0]), events[1..]))
  }

  /** What holds of one instance: its version is not ahead of the registry, its configuration is the
      write it remembers, and that write is at least as new as its version. */
  ghost predicate Sound(sys: System, l: Limiter) {
    && l.version <= sys.version
    && l.source <= |sys.writes|
    && (l.source > 0 ==> l.config == sys.writes[l.source - 1])
    && l.version <= l.source
    && (match l.activity
        case Idle => true
        case Persisting(write) => write == l.source == |sys.writes| == sys.version + 1
        case Refreshing(remote) => l.version < remote <= sys.version
        case Getting(write) => write == l.source)
  }

  /** Versions and writes keep step: one write is ahead exactly while a persist is half done. */
  ghost predicate InStep(sys: System) {
    if NobodyPersists(sys) then |sys.writes| == sys.version
    else |sys.writes| == sys.version + 1 && forall i, j ::
           Persists(sys, i) && Persists(sys, j) ==> i == j
  }

  ghost predicate AllSound(sys: System) {
    InStep(sys) && forall id :: id in sys.instances ==> Sound(sys, sys.instances[id])
  }

  /** Writes and commits go in turn. */
  lemma InStepStep(sys: System, e: Event)
    requires InStep(sys) && Enabled(sys, e) && (e.BeginPersist? ==> NobodyPersists(sys))
    ensures InStep(Apply(sys, e))
  {
    var sys' := Apply(sys, e);
    if e.BeginPersist? {
      assert Persists(sys', e.id);
      forall id | Persists(sys', id) ensures id == e.id { assert !Persists(sys, id); }
    } else if e.EndPersist? {
      assert Persists(sys, e.id);
      forall id ensures !Persists(sys', id) { assert Persists(sys', id) ==> Persists(sys, id); }
    } else {
      assert forall id :: Persists(sys', id) <==> Persists(sys, id);
      if NobodyPersists(sys) { assert NobodyPersists(sys'); } else { assert !NobodyPersists(sys'); }
    }
  }

  lemma SoundStep(sys: System, e: Event)
    requires AllSound(sys) && Enabled(sys, e)
    requires e.BeginPersist? ==> NobodyPersists(sys)
    requires e.EndGet? ==> sys.instances[e.id].source >= sys.version
    ensures AllSound(Apply(sys, e))
  {
    var sys' := Apply(sys, e);
    InStepStep(sys, e);
    forall id | id in sys'.instances ensures Sound(sys', sys'.instances[id]) {
      if id in sys.instances {
        assert Sound(sys, sys.instances[id]);
        assert sys.instances[id].activity.Persisting? ==> Persists(sys, id);
      }
      assert e.EndPersist? ==> Persists(sys, e.id);
    }
  }

  /** Between the two reads of an atomic `get` nothing is written. */
  ghost predicate GetsSeeAll(sys: System) {
    forall id :: id in sys.instances && sys.instances[id].activity.Getting? ==> sys.instances[id].source == |sys.writes|
  }

  /** Any number of instances, refreshing at any time, with persists in turn and `get` atomic: every
      configuration an instance holds is one that was written, at least as new as its version. */
  lemma {:induction false} RunsAreSound(sys: System, events: seq<Event>)
    requires AllSound(sys) && GetsSeeAll(sys) && Behavior(sys, events)
    requires PersistsInTurn(sys, events) && GetsAtOnce(sys, events)
    ensures AllSound(After(sys, events))
    decreases |events|
  {
    if events != [] {
      SoundStep(sys, events[0]);
      RunsAreSound(Apply(sys, events[0]), events[1..]);
    }
  }

  /** Hence an idle instance at the registry's version holds exactly the stored configuration,
      unless a persist is between its two writes. */
  lemma UpToDateMeansStored(sys: System, events: seq<Event>, id: InstanceId)
    requires AllSound(sys) && GetsSeeAll(sys) && Behavior(sys, events)
    requires PersistsInTurn(sys, events) && GetsAtOnce(sys, events)
    ensures var end := After(sys, events);
            Doing(end, id, Idle) && end.instances[id].version == end.version > 0 && NobodyPersists(end) ==>
              end.writes != [] && end.instances[id].config == Stored(end)
  {
    RunsAreSound(sys, events);
  }

  /** Versions never decrease, and no instance's version passes the registry's; this needs neither
      assumption. */
  ghost predicate VersionsBehind(sys: System) {
    forall id :: id in sys.instances ==>
      && sys.instances[id].version <= sys.version
      && (sys.instances[id].activity.Refreshing? ==>
            sys.instances[id].version <= sys.instances[id].activity.remote <= sys.version)
  }

  lemma {:induction false} VersionsMonotone(sys: System, events: seq<Event>, id: InstanceId)
    requires VersionsBehind(sys) && Behavior(sys, events)
    ensures VersionsBehind(After(sys, events)) && sys.version <= After(sys, events).version
    ensures id in sys.instances ==>
              id in After(sys, events).instances
              && sys.instances[id].version <= After(sys, events).instances[id].version
    decreases |events|
  {
    if events != [] {
      var sys' := Apply(sys, events[0]);
      assert VersionsBehind(sys') && (id in sys.instances ==> sys.instances[id].version <= sys'.instances[id].version);
      VersionsMonotone(sys', events[1..], id);
    }
  }

  // ---------------------------------------------------------------------------
  // Convergence
  // ---------------------------------------------------------------------------

  ghost predicate OnlyRefreshes(events: seq<Event>) {
    forall i :: 0 <= i < |events| ==> events[i].BeginRefresh? || events[i].EndRefresh?
  }

  ghost predicate InSync(sys: System, id: InstanceId) {
    && id in sys.instances && sys.writes != []
    && sys.instances[id].config == Stored(sys) && sys.instances[id].version == sys.version
  }

  /** The instance is in sync, or is refreshing towards the present version. */
  ghost predicate Converging(sys: System, id: InstanceId) {
    id in sys.instances && (InSync(sys, id) || sys.instances[id].activity == Refreshing(sys.version))
  }

  lemma ConvergingStep(sys: System, e: Event, id: InstanceId)
    requires Converging(sys, id) && sys.writes != [] && Enabled(sys, e) && (e.BeginRefresh? || e.EndRefresh?)
    requires id in sys.instances && sys.instances[id].activity.Refreshing? ==>
               sys.instances[id].activity.remote == sys.version
    ensures Converging(Apply(sys, e), id)
    ensures Apply(sys, e).writes == sys.writes && Apply(sys, e).version == sys.version
    ensures var l := Apply(sys, e).instances[id]; l.activity.Refreshing? ==> l.activity.remote == sys.version
  {}

  /** Once writes have stopped, one refresh brings an instance to the stored configuration, however
      the refreshes of the others interleave with it. */
  lemma {:induction false} OneRefreshSuffices(sys: System, events: seq<Event>, id: InstanceId)
    requires Behavior(sys, events) && OnlyRefreshes(events)
    requires AllSound(sys) && NobodyPersists(sys) && sys.version > 0
    requires |events| > 0 && events[0] == BeginRefresh(id)
    ensures Doing(After(sys, events), id, Idle) ==> InSync(After(sys, events), id)
  {
    assert Sound(sys, sys.instances[id]);
    var sys' := Apply(sys, events[0]);
    ConvergingRun(sys', events[1..], id);
  }

  lemma {:induction false} ConvergingRun(sys: System, events: seq<Event>, id: InstanceId)
    requires Behavior(sys, events) && OnlyRefreshes(events) && sys.writes != []
    requires Converging(sys, id)
    requires sys.instances[id].activity.Refreshing? ==> sys.instances[id].activity.remote == sys.version
    ensures Converging(After(sys, events), id)
    ensures After(sys, events).writes == sys.writes && After(sys, events).version == sys.version
    decreases |events|
  {
    if events != [] {
      ConvergingStep(sys, events[0], id);
      ConvergingRun(Apply(sys, events[0]), events[1..], id);
    }
  }

  /** The refresh may begin at any point of the run. */
  lemma {:induction false} SomeRefreshSuffices(sys: System, events: seq<Event>, k: nat, id: InstanceId)
    requires Behavior(sys, events) && OnlyRefreshes(events)
    requires AllSound(sys) && NobodyPersists(sys) && sys.version > 0
    requires k < |events| && events[k] == BeginRefresh(id)
    ensures Doing(After(sys, events), id, Idle) ==> InSync(After(sys, events), id)
    ensures After(sys, events).writes == sys.writes && After(sys, events).version == sys.version
    decreases k
  {
    VersionStays(sys, events);
    if k == 0 {
      OneRefreshSuffices(sys, events, id);
    } else {
      var sys' := Apply(sys, events[0]);
      SoundStep(sys, events[0]);
      assert NobodyPersists(sys') by { forall other ensures !Persists(sys', other) { assert !Persists(sys, other); } }
      SomeRefreshSuffices(sys', events[1..], k - 1, id);
    }
  }

  lemma {:induction false} VersionStays(sys: System, events: seq<Event>)
    requires Behavior(sys, events) && OnlyRefreshes(events)
    ensures After(sys, events).writes == sys.writes && After(sys, events).version == sys.version
    decreases |events|
  {
    if events != [] { VersionStays(Apply(sys, events[0]), events[1..]); }
  }

  /** So once writes have stopped and every instance has begun and finished one refresh, in whatever
      order, all of them agree, on the stored configuration and its version. */
  lemma AllAgree(sys: System, events: seq<Event>, ids: set<InstanceId>)
    requires Behavior(sys, events) && OnlyRefreshes(events)
    requires AllSound(sys) && NobodyPersists(sys) && sys.version > 0
    requires forall id :: id in ids ==> BeginRefresh(id) in events && Doing(After(sys, events), id, Idle)
    ensures sys.writes != []
    ensures forall id :: id in ids ==>
              && id in After(sys, events).instances
              && After(sys, events).instances[id].config == Stored(sys)
              && After(sys, events).instances[id].version == sys.version
  {
    VersionStays(sys, events);
    forall id | id in ids
      ensures After(sys, events).instances[id].config == Stored(sys)
          && After(sys, events).instances[id].version == sys.version
    {
      var k :| 0 <= k < |events| && events[k] == BeginRefresh(id);
      SomeRefreshSuffices(sys, events, k, id);
    }
  }

  /** An instance that is created and persisted at once is in sync with the configuration it was given. */
  lemma CreatedIsStored(sys: System, id: InstanceId, config: Config)
    requires id !in sys.instances
    ensures var created := Apply(sys, Create(id, config));
            && created.writes == sys.writes && created.version == sys.version
            && Doing(created, id, Idle) && created.instances[id].config == config
            && (var done := Apply(Apply(created, BeginPersist(id, config)), EndPersist(id));
                Doing(done, id, Idle) && InSync(done, id) && Stored(done) == config && done.version == sys.version + 1)
  {}

  /** A refresh that finds no configuration ends without a change. */
  lemma RefreshOfNothing(sys: System, id: InstanceId)
    requires Enabled(sys, EndRefresh(id)) && sys.writes == []
    ensures var after := Apply(sys, EndRefresh(id));
            && Doing(after, id, Idle) && after.instances[id] == sys.instances[id].(activity := Idle)
            && after.writes == sys.writes && after.version == sys.version
  {}

  // ---------------------------------------------------------------------------
  // Where the assumptions are needed
  // ---------------------------------------------------------------------------

  /** Some persist begins and then ends among the events; `begun` have begun before them. */
  ghost predicate WholePersist(events: seq<Event>, begun: set<InstanceId>)
    decreases |events|
  {
    events != []
    && ((events[0].EndPersist? && events[0].id in begun)
        || WholePersist(events[1..], if events[0].BeginPersist? then begun + {events[0].id} else begun))
  }

  /** With persists in turn, the version passes the number of writes seen at some moment iff a
      whole persist happens after that moment. */
  lemma {:induction false} VersionPassesIff(sys: System, events: seq<Event>, begun: set<InstanceId>, seen: nat)
    requires InStep(sys) && Behavior(sys, events) && PersistsInTurn(sys, events)
    requires sys.version <= seen <= |sys.writes|
    requires forall id :: Persists(sys, id) ==> (id in begun <==> |sys.writes| > seen)
    ensures After(sys, events).version > seen <==> WholePersist(events, begun)
    decreases |events|
  {
    if events != [] {
      var e := events[0];
      var sys' := Apply(sys, e);
      InStepStep(sys, e);
      if e.EndPersist? {
        assert Persists(sys, e.id);
        forall id ensures !Persists(sys', id) { assert Persists(sys', id) ==> Persists(sys, id); }
      }
      if e.EndPersist? && e.id in begun {
        VersionsGrow(sys', events[1..]);
      } else {
        forall id | Persists(sys', id)
          ensures id in (if e.BeginPersist? then begun + {e.id} else begun) <==> |sys'.writes| > seen
        {
          assert Persists(sys, id) || (e.BeginPersist? && id == e.id);
          if e.BeginPersist? { assert !Persists(sys, id); }
        }
        VersionPassesIff(sys', events[1..], if e.BeginPersist? then begun + {e.id} else begun, seen);
      }
    }
  }

  lemma {:induction false} VersionsGrow(sys: System, events: seq<Event>)
    requires Behavior(sys, events)
    ensures After(sys, events).version >= sys.version
    decreases |events|
  {
    if events != [] { VersionsGrow(Apply(sys, events[0]), events[1..]); }
  }

  /** `get` reads the configuration before the version.  What it ends with is at least as new as its
      version iff no persist both began and finished between the two reads. */
  lemma GetIsSoundIff(sys: System, id: InstanceId, events: seq<Event>)
    requires AllSound(sys) && Enabled(sys, BeginGet(id))
    requires var begun := Apply(sys, BeginGet(id));
             Behavior(begun, events) && PersistsInTurn(begun, events) && NeverTouches(events, id)
    ensures var end := After(Apply(sys, BeginGet(id)), events);
            && Enabled(end, EndGet(id))
            && (Sound(Apply(end, EndGet(id)), Apply(end, EndGet(id)).instances[id]) <==> !WholePersist(events, {}))
  {
    var begun := Apply(sys, BeginGet(id));
    SoundStep(sys, BeginGet(id));
    UntouchedStays(begun, events, id);
    WritesGrow(begun, events);
    VersionPassesIff(begun, events, {}, |sys.writes|);
  }

  lemma {:induction false} WritesGrow(sys: System, events: seq<Event>)
    requires Behavior(sys, events)
    ensures sys.writes <= After(sys, events).writes
    decreases |events|
  {
    if events != [] { WritesGrow(Apply(sys, events[0]), events[1..]); }
  }

  ghost predicate NeverTouches(events: seq<Event>, id: InstanceId) {
    forall i :: 0 <= i < |events| ==> events[i].id != id
  }

  lemma {:induction false} UntouchedStays(sys: System, events: seq<Event>, id: InstanceId)
    requires id in sys.instances && Behavior(sys, events) && NeverTouches(events, id)
    ensures id in After(sys, events).instances && After(sys, events).instances[id] == sys.instances[id]
    decreases |events|
  {
    if events != [] {
      UntouchedStays(Apply(sys, events[0]), events[1..], id);
    }
  }

  /** An instance left with an old configuration at the registry's version stays so through any
      number of refreshes: they find no newer version. */
  lemma {:induction false} StaleGetIsNotHealed(sys: System, events: seq<Event>, id: InstanceId)
    requires Doing(sys, id, Idle) && sys.instances[id].version == sys.version
    requires Behavior(sys, events) && OnlyRefreshes(events)
    ensures id in After(sys, events).instances && After(sys, events).instances[id] == sys.instances[id]
    ensures After(sys, events).writes == sys.writes
    decreases |events|
  {
    if events != [] {
      StaleGetIsNotHealed(Apply(sys, events[0]), events[1..], id);
    }
  }

  lemma BehaviorOfFour(sys: System, e0: Event, e1: Event, e2: Event, e3: Event)
    requires Enabled(sys, e0)
    requires var s1 := Apply(sys, e0); Enabled(s1, e1)
    requires var s2 := Apply(Apply(sys, e0), e1); Enabled(s2, e2)
    requires var s3 := Apply(Apply(Apply(sys, e0), e1), e2); Enabled(s3, e3)
    ensures Behavior(sys, [e0, e1, e2, e3])
    ensures After(sys, [e0, e1, e2, e3]) == Apply(Apply(Apply(Apply(sys, e0), e1), e2), e3)
  {
    var s1 := Apply(sys, e0);
    var s2 := Apply(s1, e1);
    var s3 := Apply(s2, e2);
    var s4 := Apply(s3, e3);
    assert [e0, e1, e2, e3][1..] == [e1, e2, e3];
    assert [e1, e2, e3][1..] == [e2, e3];
    assert [e2, e3][1..] == [e3];
    assert [e3][1..] == [];
    assert Behavior(s4, []) && After(s4, []) == s4;
    assert Behavior(s3, [e3]) && After(s3, [e3]) == s4;
    assert Behavior(s2, [e2, e3]) && After(s2, [e2, e3]) == s4;
    assert Behavior(s1, [e1, e2, e3]) && After(s1, [e1, e2, e3]) == s4;
  }

  /** The instance is idle at the registry's version, nobody persists, and yet its configuration is
      not the stored one. */
  ghost predicate Disagrees(sys: System, id: InstanceId) {
    && Doing(sys, id, Idle) && sys.instances[id].version == sys.version
    && NobodyPersists(sys) && sys.writes != [] && sys.instances[id].config != Stored(sys)
  }

  /** A run in which a persist slips between the two reads of `get`. */
  lemma GetCanBeStale(first: Config, newer: Config) returns (start: System, events: seq<Event>)
    requires first != newer
    ensures AllSound(start) && Behavior(start, events) && Disagrees(After(start, events), "b")
  {
    start := System([first], 1, map["a" := Limiter(first, 1, 1, Idle)]);
    var e0, e1, e2, e3 := BeginGet("b"), BeginPersist("a", newer), EndPersist("a"), EndGet("b");
    events := [e0, e1, e2, e3];
    BehaviorOfFour(start, e0, e1, e2, e3);
  }

  /** Two overlapping persists can leave a writer at the newest version with a configuration that is
      not the stored one. */
  lemma OverlappingPersistsDisagree(base: Config, one: Config, two: Config) returns (start: System, events: seq<Event>)
    requires one != two
    ensures AllSound(start) && Behavior(start, events) && Disagrees(After(start, events), "a")
  {
    start := System([base], 1, map["a" := Limiter(base, 1, 1, Idle), "b" := Limiter(base, 1, 1, Idle)]);
    var e0, e1, e2, e3 := BeginPersist("a", one), BeginPersist("b", two), EndPersist("b"), EndPersist("a");
    events := [e0, e1, e2, e3];
    BehaviorOfFour(start, e0, e1, e2, e3);
  }

  /** The configurations that the events write. */
  function WritesOf(events: seq<Event>): seq<Config> {
    if events == [] then []
    else (if events[0].BeginPersist? then [events[0].config] else []) + WritesOf(events[1..])
  }

  lemma {:induction false} WritesAccumulate(sys: System, events: seq<Event>)
    requires Behavior(sys, events)
    ensures After(sys, events).writes == sys.writes + WritesOf(events)
    decreases |events|
  {
    if events != [] { WritesAccumulate(Apply(sys, events[0]), events[1..]); }
  }

  /** A persist leaves its instance with the stored configuration iff the last write that lands
      between its own two, if there is any, stores the same configuration. */
  lemma PersistAgreesIff(sys: System, id: InstanceId, config: Config, events: seq<Event>)
    requires Enabled(sys, BeginPersist(id, config))
    requires Behavior(Apply(sys, BeginPersist(id, config)), events) && NeverTouches(events, id)
    ensures var end := After(Apply(sys, BeginPersist(id, config)), events);
            && Enabled(end, EndPersist(id))
            && (var done := Apply(end, EndPersist(id));
                && done.writes != [] && done.instances[id].version == done.version
                && (done.instances[id].config == Stored(done)
                    <==> WritesOf(events) == [] || WritesOf(events)[|WritesOf(events)| - 1] == config))
  {
    var begun := Apply(sys, BeginPersist(id, config));
    WritesAccumulate(begun, events);
    UntouchedStays(begun, events, id);
  }
}
