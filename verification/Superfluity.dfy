/** The analysis of superfluous tests: a test is reported when its kill set is a strict subset of
    that of another test of its class.  Deleting every reported test at once loses no kill.
  */
module Superfluity {
  import opened Options
  import opened Collections

  type Mutant = string
  type Test = string

  /** A mutant with its killers; a `killed_by` value that is no list is read as None. */
  datatype Entry = Entry(mutant: Mutant, killedBy: Option<seq<Test>>)

  /** The tests of one class in the order in which they were first met, and what each kills. */
  datatype KillMap = KillMap(tests: seq<Test>, kills: map<Test, set<Mutant>>) {
    ghost predicate Valid() {
      && (forall t :: t in tests <==> t in kills)
      && (forall i, j :: 0 <= i < j < |tests| ==> tests[i] != tests[j])
    }
  }

  datatype Finding = Finding(test: Test, kills: nat, subsumedBy: Test, subsumedByKills: nat)

  datatype ClassResult = ClassResult(totalTests: nat, totalKills: nat, superfluous: seq<Finding>, zeroKill: seq<Test>)

  // ---------------------------------------------------------------------------
  // The class of a test
  // ---------------------------------------------------------------------------

  /** The parts of a string between occurrences of "::", taken from the left. */
  function Split(s: string, part: string): (parts: seq<string>)
    ensures |parts| >= 1
    decreases |s|
  {
    if s == "" then [part]
    else if |s| >= 2 && s[0] == ':' && s[1] == ':' then [part] + Split(s[2..], "")
    else Split(s[1..], part + [s[0]])
  }

  function ClassOf(nodeid: Test): string {
    var parts := Split(nodeid, "");
    if |parts| >= 3 then parts[1] else "<module-level>"
  }

  predicate NoColon(s: string) {
    forall i :: 0 <= i < |s| ==> s[i] != ':'
  }

  function Join(parts: seq<string>): string
    requires |parts| >= 1
  {
    if |parts| == 1 then parts[0] else parts[0] + "::" + Join(parts[1..])
  }

  /** The parts, joined, are the string. */
  lemma {:induction false} SplitJoins(s: string, part: string)
    ensures Join(Split(s, part)) == part + s
    decreases |s|
  {
    if s == "" {
      assert part + s == part;
    } else if |s| >= 2 && s[0] == ':' && s[1] == ':' {
      SplitJoins(s[2..], "");
      assert ([part] + Split(s[2..], ""))[1..] == Split(s[2..], "");
      assert part + "::" + s[2..] == part + s;
    } else {
      SplitJoins(s[1..], part + [s[0]]);
      assert part + [s[0]] + s[1..] == part + s;
    }
  }

  lemma {:induction false} SplitPlain(s: string, part: string)
    requires NoColon(s)
    ensures Split(s, part) == [part + s]
    decreases |s|
  {
    if s == "" {
      assert part + s == part;
    } else {
      SplitPlain(s[1..], part + [s[0]]);
      assert part + [s[0]] + s[1..] == part + s;
    }
  }

  lemma {:induction false} SplitFirst(first: string, rest: string, part: string)
    requires NoColon(first)
    ensures Split(first + "::" + rest, part) == [part + first] + Split(rest, "")
    decreases |first|
  {
    var s := first + "::" + rest;
    if first == "" {
      assert s[2..] == rest && part + first == part;
    } else {
      assert s[0] == first[0] && s[1..] == first[1..] + "::" + rest;
      SplitFirst(first[1..], rest, part + [first[0]]);
      assert part + [first[0]] + first[1..] == part + first;
    }
  }

  /** The class of a test is what stands between the first two separators; without two of them the
      test stands at the level of its module. */
  lemma ClassIsSecondPart(file: string, class_: string, rest: string)
    requires NoColon(file) && NoColon(class_)
    ensures ClassOf(file + "::" + class_ + "::" + rest) == class_
    ensures ClassOf(file + "::" + class_) == "<module-level>" && ClassOf(file) == "<module-level>"
  {
    assert file + "::" + class_ + "::" + rest == file + "::" + (class_ + "::" + rest);
    SplitFirst(file, class_ + "::" + rest, "");
    SplitFirst(class_, rest, "");
    SplitFirst(file, class_, "");
    SplitPlain(class_, "");
    SplitPlain(file, "");
    assert "" + file == file && "" + class_ == class_;
  }

  // ---------------------------------------------------------------------------
  // Kill maps
  // ---------------------------------------------------------------------------

  predicate Kills(e: Entry, t: Test) {
    e.killedBy.Some? && t in e.killedBy.value
  }

  function Killed(data: seq<Entry>, t: Test): set<Mutant> {
    set e | e in data && Kills(e, t) :: e.mutant
  }

  /** Each class maps each of its killing tests to exactly what that test kills. */
  ghost predicate Describes(maps: map<string, KillMap>, killed: Test -> set<Mutant>) {
    && (forall c :: c in maps ==> maps[c].Valid() && maps[c].tests != [])
    && (forall c, t :: c in maps && t in maps[c].kills ==> ClassOf(t) == c && maps[c].kills[t] == killed(t) != {})
    && (forall t :: killed(t) != {} ==> ClassOf(t) in maps && t in maps[ClassOf(t)].kills)
  }

  /** `class_kill_maps[test_class][test_nodeid].add(mutant)`, with empty defaults at both levels. */
  function Added(maps: map<string, KillMap>, t: Test, m: Mutant): map<string, KillMap> {
    var c := ClassOf(t);
    var km := if c in maps then maps[c] else KillMap([], map[]);
    maps[c := if t in km.kills then km.(kills := km.kills[t := km.kills[t] + {m}])
              else KillMap(km.tests + [t], km.kills[t := {m}])]
  }

  lemma AddedEntry(km: KillMap, t: Test, m: Mutant, c: string)
    requires km.Valid() && (forall u :: u in km.kills ==> ClassOf(u) == c) && c == ClassOf(t)
    ensures var after := Added(map[c := km], t, m)[c];
            && after.Valid() && after.tests != []
            && after.kills.Keys == km.kills.Keys + {t}
            && after.kills[t] == (if t in km.kills then km.kills[t] else {}) + {m}
            && (forall u :: u in km.kills && u != t ==> after.kills[u] == km.kills[u])
  {}

  lemma AddedDescribes(maps: map<string, KillMap>, before: Test -> set<Mutant>, after: Test -> set<Mutant>, t: Test,
                       m: Mutant)
    requires Describes(maps, before)
    requires after(t) == before(t) + {m} && forall u :: u != t ==> after(u) == before(u)
    ensures Describes(Added(maps, t, m), after)
  {
    var c := ClassOf(t);
    var km := if c in maps then maps[c] else KillMap([], map[]);
    AddedEntry(km, t, m, c);
    var grown := Added(map[c := km], t, m)[c];
    assert Added(maps, t, m) == maps[c := grown];
    assert t !in km.kills ==> before(t) == {};
    GrownDescribes(maps, km, grown, before, after, t, m);
  }

  lemma GrownDescribes(maps: map<string, KillMap>, km: KillMap, grown: KillMap,
                       before: Test -> set<Mutant>, after: Test -> set<Mutant>, t: Test, m: Mutant)
    requires Describes(maps, before) && (ClassOf(t) in maps ==> km == maps[ClassOf(t)])
        && (ClassOf(t) !in maps ==> km.kills == map[])
    requires grown.Valid() && grown.tests != [] && grown.kills.Keys == km.kills.Keys + {t}
    requires grown.kills[t] == before(t) + {m} && forall u :: u in km.kills && u != t ==> grown.kills[u] == km.kills[u]
    requires after(t) == before(t) + {m} && forall u :: u != t ==> after(u) == before(u)
    ensures Describes(maps[ClassOf(t) := grown], after)
  {
    forall u | after(u) != {}
      ensures ClassOf(u) in maps[ClassOf(t) := grown] && u in maps[ClassOf(t) := grown][ClassOf(u)].kills
    {}
  }

  /** What the entries kill, as a function of the test. */
  function KillsOf(data: seq<Entry>): Test -> set<Mutant> {
    t => Killed(data, t)
  }

  /** The same with the first `k` killers of one more entry. */
  function KillsUpTo(before: seq<Entry>, m: Mutant, killers: seq<Test>, k: nat): Test -> set<Mutant>
    requires k <= |killers|
  {
    t => Killed(before, t) + if t in killers[..k] then {m} else {}
  }

  lemma SameDescription(maps: map<string, KillMap>, f: Test -> set<Mutant>, g: Test -> set<Mutant>)
    requires Describes(maps, f) && forall t :: f(t) == g(t)
    ensures Describes(maps, g)
  {}

  lemma KilledPush(before: seq<Entry>, e: Entry, t: Test)
    ensures Killed(before + [e], t) == Killed(before, t) + if Kills(e, t) then {e.mutant} else {}
  {}

  method AddEntry(maps: map<string, KillMap>, ghost before: seq<Entry>, m: Mutant, killers: seq<Test>)
    returns (after: map<string, KillMap>)
    requires Describes(maps, KillsOf(before))
    ensures Describes(after, KillsUpTo(before, m, killers, |killers|))
  {
    after := maps;
    SameDescription(after, KillsOf(before), KillsUpTo(before, m, killers, 0));
    for k := 0 to |killers|
      invariant Describes(after, KillsUpTo(before, m, killers, k))
    {
      AddedDescribes(after, KillsUpTo(before, m, killers, k), KillsUpTo(before, m, killers, k + 1), killers[k], m);
      after := Added(after, killers[k], m);
    }
  }

  lemma EntryAdded(before: seq<Entry>, e: Entry, maps: map<string, KillMap>)
    requires Describes(maps,
                       if e.killedBy.Some? then KillsUpTo(before, e.mutant, e.killedBy.value, |e.killedBy.value|)
                       else KillsOf(before))
    ensures Describes(maps, KillsOf(before + [e]))
  {
    var f := if e.killedBy.Some? then KillsUpTo(before, e.mutant, e.killedBy.value, |e.killedBy.value|)
             else KillsOf(before);
    forall t ensures f(t) == KillsOf(before + [e])(t) {
      KilledPush(before, e, t);
    }
    SameDescription(maps, f, KillsOf(before + [e]));
  }

  method BuildKillMaps(data: seq<Entry>) returns (maps: map<string, KillMap>)
    ensures Describes(maps, KillsOf(data))
  {
    maps := map[];
    for i := 0 to |data|
      invariant Describes(maps, KillsOf(data[..i]))
    {
      var e := data[i];
      if e.killedBy.Some? {
        maps := AddEntry(maps, data[..i], e.mutant, e.killedBy.value);
      }
      EntryAdded(data[..i], e, maps);
      assert data[..i + 1] == data[..i] + [e];
    }
    assert data[..|data|] == data;
  }

  // ---------------------------------------------------------------------------
  // Superfluous tests of one class
  // ---------------------------------------------------------------------------

  /** The kill set of `a` is a strict subset of that of `b`. */
  predicate Subsumes(km: KillMap, b: Test, a: Test) {
    a in km.kills && b in km.kills && km.kills[a] != {} && km.kills[a] < km.kills[b]
  }

  ghost predicate IsSuperfluous(km: KillMap, a: Test) {
    exists b :: Subsumes(km, b, a)
  }

  /** The first test, in order, that subsumes `a`. */
  ghost predicate FirstSubsumer(km: KillMap, a: Test, j: int) {
    0 <= j < |km.tests| && Subsumes(km, km.tests[j], a) && forall i :: 0 <= i < j ==> !Subsumes(km, km.tests[i], a)
  }

  /** The finding tells the truth about its test, and names the first that subsumes it. */
  ghost predicate IsTrue(km: KillMap, f: Finding) {
    && f.test in km.kills && f.kills == |km.kills[f.test]|
    && f.subsumedBy in km.kills && f.subsumedByKills == |km.kills[f.subsumedBy]|
    && exists j :: FirstSubsumer(km, f.test, j) && km.tests[j] == f.subsumedBy
  }

  /** The findings report, each once and in order, the superfluous ones among the first `n` tests. */
  ghost predicate Reports(km: KillMap, findings: seq<Finding>, n: nat)
    requires n <= |km.tests|
    decreases n
  {
    if n == 0 then findings == []
    else if IsSuperfluous(km, km.tests[n - 1]) then
      && findings != [] && findings[|findings| - 1].test == km.tests[n - 1]
      && IsTrue(km, findings[|findings| - 1]) && Reports(km, findings[..|findings| - 1], n - 1)
    else Reports(km, findings, n - 1)
  }

  method FindSubsumer(km: KillMap, i: nat) returns (found: Option<Test>)
    requires km.Valid() && i < |km.tests| && km.kills[km.tests[i]] != {}
    ensures found.None? <==> !IsSuperfluous(km, km.tests[i])
    ensures found.Some? ==> exists j :: FirstSubsumer(km, km.tests[i], j) && km.tests[j] == found.value
  {
    var a := km.tests[i];
    for j := 0 to |km.tests|
      invariant forall k :: 0 <= k < j ==> !Subsumes(km, km.tests[k], a)
    {
      var b := km.tests[j];
      if i == j || km.kills[b] == {} { continue; }
      if km.kills[a] < km.kills[b] {
        assert FirstSubsumer(km, a, j);
        return Some(b);
      }
    }
    return None;
  }

  method AnalyzeClass(km: KillMap) returns (superfluous: seq<Finding>, zeroKill: seq<Test>)
    requires km.Valid()
    ensures Reports(km, superfluous, |km.tests|)
    ensures forall t :: t in zeroKill <==> t in km.kills && km.kills[t] == {}
  {
    superfluous, zeroKill := [], [];
    for i := 0 to |km.tests|
      invariant Reports(km, superfluous, i)
      invariant forall t :: t in zeroKill <==> t in km.tests[..i] && km.kills[t] == {}
    {
      var a := km.tests[i];
      if km.kills[a] == {} {
        zeroKill := zeroKill + [a];
        assert !IsSuperfluous(km, a);
      } else {
        var subsumer := FindSubsumer(km, i);
        if subsumer.Some? {
          var finding := Finding(a, |km.kills[a]|, subsumer.value, |km.kills[subsumer.value]|);
          assert (superfluous + [finding])[..|superfluous|] == superfluous;
          superfluous := superfluous + [finding];
        }
      }
    }
  }

  lemma {:induction false} ReportsExactly(km: KillMap, findings: seq<Finding>, n: nat, t: Test)
    requires km.Valid() && n <= |km.tests| && Reports(km, findings, n)
    ensures (exists f :: f in findings && f.test == t) <==> t in km.tests[..n] && IsSuperfluous(km, t)
    decreases n
  {
    if n > 0 {
      assert km.tests[..n] == km.tests[..n - 1] + [km.tests[n - 1]];
      if IsSuperfluous(km, km.tests[n - 1]) {
        var front, last := findings[..|findings| - 1], findings[|findings| - 1];
        assert findings == front + [last];
        ReportsExactly(km, front, n - 1, t);
        TestsPush(front, last, t);
      } else {
        ReportsExactly(km, findings, n - 1, t);
      }
    }
  }

  lemma TestsPush(front: seq<Finding>, last: Finding, t: Test)
    ensures (exists f :: f in front + [last] && f.test == t)
       <==> (exists f :: f in front && f.test == t) || t == last.test
  {
    if t == last.test { assert last in front + [last]; }
    if f :| f in front && f.test == t { assert f in front + [last]; }
  }

  /** Every finding is true. */
  lemma {:induction false} FindingsAreTrue(km: KillMap, findings: seq<Finding>, n: nat, f: Finding)
    requires n <= |km.tests| && Reports(km, findings, n) && f in findings
    ensures IsTrue(km, f) && IsSuperfluous(km, f.test) && Subsumes(km, f.subsumedBy, f.test)
    decreases n
  {
    if IsSuperfluous(km, km.tests[n - 1]) {
      var front, last := findings[..|findings| - 1], findings[|findings| - 1];
      assert findings == front + [last];
      if f != last { FindingsAreTrue(km, front, n - 1, f); }
    } else {
      FindingsAreTrue(km, findings, n - 1, f);
    }
  }

  // ---------------------------------------------------------------------------
  // Deleting every reported test loses nothing
  // ---------------------------------------------------------------------------

  /** However often a reported subsumer is itself superfluous, some test that is not superfluous
      kills strictly more. */
  lemma {:induction false} KeptSubsumer(km: KillMap, a: Test) returns (b: Test)
    requires IsSuperfluous(km, a)
    ensures Subsumes(km, b, a) && !IsSuperfluous(km, b)
    decreases |Everything(km)| - |km.kills[a]|
  {
    b :| Subsumes(km, b, a);
    assert km.kills[b] <= Everything(km);
    SubsetCardinality(km.kills[b], Everything(km));
    StrictSubset(km.kills[a], km.kills[b]);
    if IsSuperfluous(km, b) {
      b := KeptSubsumer(km, b);
    }
  }

  lemma StrictSubset<T>(a: set<T>, b: set<T>)
    requires a < b
    ensures |a| < |b|
  {
    SubsetCardinality(a, b);
    var x :| x in b && x !in a;
    SubsetCardinality(a, b - {x});
  }

  ghost function Everything(km: KillMap): set<Mutant> {
    set t, m | t in km.kills && m in km.kills[t] :: m
  }

  ghost function KeptKills(km: KillMap): set<Mutant> {
    set t, m | t in km.kills && !IsSuperfluous(km, t) && m in km.kills[t] :: m
  }

  lemma NothingIsLost(km: KillMap)
    ensures KeptKills(km) == Everything(km)
  {
    forall m | m in Everything(km) ensures m in KeptKills(km) {
      var t :| t in km.kills && m in km.kills[t];
      if IsSuperfluous(km, t) {
        var b := KeptSubsumer(km, t);
        assert b in km.kills && m in km.kills[b];
      }
    }
  }

  // ---------------------------------------------------------------------------
  // The whole analysis
  // ---------------------------------------------------------------------------

  function TotalKills(km: KillMap, n: nat): nat
    requires n <= |km.tests| && forall t :: t in km.tests ==> t in km.kills
  {
    if n == 0 then 0 else TotalKills(km, n - 1) + |km.kills[km.tests[n - 1]]|
  }

  lemma KillsPush(km: KillMap, n: nat)
    requires km.Valid() && 0 < n <= |km.tests|
    ensures var t := km.tests[n - 1];
            var own := set m | m in km.kills[t] :: (t, m);
            KillsOfFirst(km, n) == KillsOfFirst(km, n - 1) + own && KillsOfFirst(km, n - 1) !! own
  {
    assert km.tests[..n] == km.tests[..n - 1] + [km.tests[n - 1]];
  }

  /** The total counts every kill of every test once. */
  lemma {:induction false} TotalCountsKills(km: KillMap, n: nat)
    requires km.Valid() && n <= |km.tests|
    ensures TotalKills(km, n) == |KillsOfFirst(km, n)|
  {
    if n > 0 {
      TotalCountsKills(km, n - 1);
      PairCount(km.tests[n - 1], km.kills[km.tests[n - 1]]);
      KillsPush(km, n);
    }
  }

  ghost function KillsOfFirst(km: KillMap, n: nat): set<(Test, Mutant)>
    requires n <= |km.tests| && forall t :: t in km.tests ==> t in km.kills
  {
    set t, m | t in km.tests[..n] && m in km.kills[t] :: (t, m)
  }

  lemma {:induction false} PairCount(t: Test, mutants: set<Mutant>)
    ensures |set m | m in mutants :: (t, m)| == |mutants|
    decreases mutants
  {
    if mutants != {} {
      var m :| m in mutants;
      PairCount(t, mutants - {m});
      assert (set k | k in mutants :: (t, k)) == (set k | k in mutants - {m} :: (t, k)) + {(t, m)};
    }
  }

  ghost predicate IsResult(km: KillMap, r: ClassResult) {
    && km.Valid()
    && r.totalTests == |km.tests| && r.totalKills == TotalKills(km, |km.tests|)
    && Reports(km, r.superfluous, |km.tests|) && r.zeroKill == []
  }

  method SumKills(km: KillMap) returns (total: nat)
    requires km.Valid()
    ensures total == TotalKills(km, |km.tests|)
  {
    total := 0;
    for i := 0 to |km.tests|
      invariant total == TotalKills(km, i)
    {
      total := total + |km.kills[km.tests[i]]|;
    }
  }

  /** The tests reported for any class. */
  ghost predicate Reported(results: map<string, ClassResult>, t: Test) {
    exists c :: c in results && ReportedIn(results[c], t)
  }

  ghost predicate ReportedIn(r: ClassResult, t: Test) {
    exists f :: f in r.superfluous && f.test == t
  }

  lemma SomeTestKillsNothing(tests: seq<Test>, km: KillMap)
    requires tests != [] && forall t :: t in tests ==> t in km.kills && km.kills[t] == {}
    ensures exists t :: t in km.kills && km.kills[t] == {}
  {
    assert tests[0] in tests;
  }

  method ResultOf(km: KillMap) returns (r: ClassResult)
    requires km.Valid() && forall t :: t in km.kills ==> km.kills[t] != {}
    ensures IsResult(km, r)
  {
    var superfluous, zeroKill := AnalyzeClass(km);
    if zeroKill != [] { SomeTestKillsNothing(zeroKill, km); }
    var totalKills := SumKills(km);
    r := ClassResult(|km.tests|, totalKills, superfluous, zeroKill);
  }

  /** The results are those of the first classes of the maps. */
  ghost predicate AreResults(maps: map<string, KillMap>, results: map<string, ClassResult>) {
    results.Keys <= maps.Keys && forall c :: c in results ==> IsResult(maps[c], results[c])
  }

  ghost predicate AllKill(maps: map<string, KillMap>) {
    forall c :: c in maps ==> maps[c].Valid() && forall t :: t in maps[c].kills ==> maps[c].kills[t] != {}
  }

  lemma EachTestKills(maps: map<string, KillMap>, killed: Test -> set<Mutant>)
    requires Describes(maps, killed)
    ensures AllKill(maps)
  {
    forall c, t | c in maps && t in maps[c].kills ensures maps[c].kills[t] != {} {
      assert maps[c].kills[t] == killed(t);
    }
  }

  /** Analyse each class; the source visits them in alphabetical order. */
  method AnalyzeMaps(maps: map<string, KillMap>) returns (results: map<string, ClassResult>, totalSuperfluous: nat)
    requires AllKill(maps)
    ensures AreResults(maps, results) && results.Keys == maps.Keys
    ensures totalSuperfluous == SuperfluousIn(results, results.Keys)
  {
    results, totalSuperfluous := map[], 0;
    var left := maps.Keys;
    while left != {}
      invariant left <= maps.Keys && results.Keys == maps.Keys - left
      invariant AreResults(maps, results)
      invariant totalSuperfluous == SuperfluousIn(results, results.Keys)
      decreases left
    {
      var c :| c in left;
      var result := ResultOf(maps[c]);
      SuperfluousAdded(results, c, result);
      results := results[c := result];
      totalSuperfluous := totalSuperfluous + |result.superfluous|;
      left := left - {c};
    }
  }

  /** The whole analysis.  No test without kills is ever listed, since a test enters the maps with
      its first kill. */
  method AnalyzeSuperfluity(data: seq<Entry>) returns (results: map<string, ClassResult>, totalSuperfluous: nat)
    ensures exists maps :: Describes(maps, KillsOf(data)) && AreResults(maps, results) && results.Keys == maps.Keys
    ensures totalSuperfluous == SuperfluousIn(results, results.Keys)
  {
    var maps := BuildKillMaps(data);
    EachTestKills(maps, KillsOf(data));
    results, totalSuperfluous := AnalyzeMaps(maps);
  }

  /** How many findings the given classes have. */
  ghost function SuperfluousIn(results: map<string, ClassResult>, classes: set<string>): nat
    requires classes <= results.Keys
    decreases classes
  {
    if classes == {} then 0
    else
      var c :| c in classes;
      |results[c].superfluous| + SuperfluousIn(results, classes - {c})
  }

  lemma {:induction false} SuperfluousSplit(results: map<string, ClassResult>, classes: set<string>, c: string)
    requires classes <= results.Keys && c in classes
    ensures SuperfluousIn(results, classes) == |results[c].superfluous| + SuperfluousIn(results, classes - {c})
    decreases classes
  {
    var d :| d in classes
        && SuperfluousIn(results, classes) == |results[d].superfluous| + SuperfluousIn(results, classes - {d});
    if d != c {
      SuperfluousSplit(results, classes - {d}, c);
      SuperfluousSplit(results, classes - {c}, d);
      assert classes - {c} - {d} == classes - {d} - {c};
    }
  }

  lemma {:induction false} SuperfluousSame(results: map<string, ClassResult>, more: map<string, ClassResult>,
                                           classes: set<string>)
    requires classes <= results.Keys && classes <= more.Keys && forall c :: c in classes ==> results[c] == more[c]
    ensures SuperfluousIn(results, classes) == SuperfluousIn(more, classes)
    decreases classes
  {
    if classes != {} {
      var c :| c in classes;
      SuperfluousSplit(results, classes, c);
      SuperfluousSplit(more, classes, c);
      SuperfluousSame(results, more, classes - {c});
    }
  }

  lemma SuperfluousAdded(results: map<string, ClassResult>, c: string, r: ClassResult)
    requires c !in results
    ensures SuperfluousIn(results[c := r], results[c := r].Keys)
         == SuperfluousIn(results, results.Keys) + |r.superfluous|
  {
    var more := results[c := r];
    SuperfluousSplit(more, more.Keys, c);
    assert more.Keys - {c} == results.Keys;
    SuperfluousSame(results, more, results.Keys);
  }

  /** The superfluous ones among the first `n` tests. */
  ghost function SuperfluousAmong(km: KillMap, n: nat): set<Test>
    requires n <= |km.tests|
  {
    set t | t in km.tests[..n] && IsSuperfluous(km, t)
  }

  lemma AmongPush(km: KillMap, n: nat)
    requires km.Valid() && 0 < n <= |km.tests|
    ensures var t := km.tests[n - 1];
            && t !in SuperfluousAmong(km, n - 1)
            && SuperfluousAmong(km, n) == SuperfluousAmong(km, n - 1) + (if IsSuperfluous(km, t) then {t} else {})
  {
    assert km.tests[..n] == km.tests[..n - 1] + [km.tests[n - 1]];
  }

  /** The findings of a class are as many as its superfluous tests. */
  lemma {:induction false} FindingsCount(km: KillMap, findings: seq<Finding>, n: nat)
    requires km.Valid() && n <= |km.tests| && Reports(km, findings, n)
    ensures |findings| == |SuperfluousAmong(km, n)|
    decreases n
  {
    if n > 0 {
      AmongPush(km, n);
      FindingsCount(km, if IsSuperfluous(km, km.tests[n - 1]) then findings[..|findings| - 1] else findings, n - 1);
    }
  }

  /** The superfluous tests of some classes. */
  ghost function SuperfluousTests(maps: map<string, KillMap>, classes: set<string>): set<(string, Test)>
    requires classes <= maps.Keys
  {
    set c, t | c in classes && t in SuperfluousAmong(maps[c], |maps[c].tests|) :: (c, t)
  }

  lemma ClassTestsSplit(maps: map<string, KillMap>, classes: set<string>, c: string)
    requires classes <= maps.Keys && c in classes
    ensures |SuperfluousTests(maps, classes)|
         == |SuperfluousTests(maps, classes - {c})| + |SuperfluousAmong(maps[c], |maps[c].tests|)|
  {
    var own := SuperfluousAmong(maps[c], |maps[c].tests|);
    var pairs := set t | t in own :: (c, t);
    PairCount(c, own);
    assert SuperfluousTests(maps, classes) == SuperfluousTests(maps, classes - {c}) + pairs;
  }

  /** The total counts every superfluous test of every class once. */
  lemma {:induction false} TotalCountsSuperfluous(maps: map<string, KillMap>, results: map<string, ClassResult>,
                                                  classes: set<string>)
    requires AreResults(maps, results) && classes <= results.Keys
    ensures SuperfluousIn(results, classes) == |SuperfluousTests(maps, classes)|
    decreases classes
  {
    if classes != {} {
      var c :| c in classes;
      SuperfluousSplit(results, classes, c);
      TotalCountsSuperfluous(maps, results, classes - {c});
      FindingsCount(maps[c], results[c].superfluous, |maps[c].tests|);
      ClassTestsSplit(maps, classes, c);
    }
  }

  /** Deleting every test reported for any class leaves every killed mutant killed, and killed from
      within the same class. */
  lemma DeletionIsSafe(data: seq<Entry>, maps: map<string, KillMap>, results: map<string, ClassResult>, t: Test,
                       m: Mutant)
    returns (kept: Test)
    requires Describes(maps, KillsOf(data)) && AreResults(maps, results) && results.Keys == maps.Keys
    requires m in Killed(data, t)
    ensures m in Killed(data, kept) && ClassOf(kept) == ClassOf(t) && !Reported(results, kept)
  {
    var c := ClassOf(t);
    assert KillsOf(data)(t) == Killed(data, t) != {};
    var km := maps[c];
    kept := t;
    if IsSuperfluous(km, t) {
      kept := KeptSubsumer(km, t);
    }
    assert KillsOf(data)(kept) == Killed(data, kept) == km.kills[kept];
    forall d | d in results ensures !ReportedIn(results[d], kept) {
      ReportsExactly(maps[d], results[d].superfluous, |maps[d].tests|, kept);
      assert maps[d].tests[..|maps[d].tests|] == maps[d].tests;
      if d != c { assert kept !in maps[d].kills; }
    }
  }
}
