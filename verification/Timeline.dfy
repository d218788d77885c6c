/** The timeline of a mutation run: test intervals reconstructed from the events of each process,
    and the detection of intervals of different processes that overlap.
  */
module Timeline {
  import opened Options
  import opened Numbers
  import opened Collections

  datatype Kind = Start | End | Heartbeat | ProcessKilled | Other

  datatype Event = Event(pid: int, kind: Kind, mutant: string, nodeid: Option<string>, mono: real, ts: real)

  datatype EndKind = Completed | ParentKilled | LastHeartbeat | NoEnd

  datatype Record = Record(pid: int, mutant: string, nodeid: Option<string>, startMono: real, startTs: real,
                           endMono: real, endTs: real, endKind: EndKind, durationMs: real, lastHeartbeat: Option<real>)

  const BY_MONO: Event -> real := (e: Event) => e.mono
  const BY_START: Record -> real := (r: Record) => r.startMono

  // ---------------------------------------------------------------------------
  // The interval of one start event
  // ---------------------------------------------------------------------------

  predicate Closes(e: Event, nodeid: Option<string>) {
    e.kind.End? && e.nodeid == nodeid
  }

  /** The search for an end stops at the end itself or at the start of another test. */
  predicate Stops(e: Event, nodeid: Option<string>) {
    Closes(e, nodeid) || (e.kind.Start? && e.nodeid != nodeid)
  }

  predicate Beats(e: Event, nodeid: Option<string>) {
    e.kind.Heartbeat? && e.nodeid == nodeid
  }

  /** Where the search that begins at `j` stops. */
  function StopAt(evs: seq<Event>, j: nat, nodeid: Option<string>): (k: nat)
    requires j <= |evs|
    ensures j <= k <= |evs| && (k < |evs| ==> Stops(evs[k], nodeid))
    ensures forall m :: j <= m < k ==> !Stops(evs[m], nodeid)
    decreases |evs| - j
  {
    if j == |evs| || Stops(evs[j], nodeid) then j else StopAt(evs, j + 1, nodeid)
  }

  /** The last heartbeat of the test in `[i, j)`. */
  function LastBeat(evs: seq<Event>, i: nat, j: nat, nodeid: Option<string>): (r: Option<Event>)
    requires i <= j <= |evs|
    ensures r.None? <==> forall k :: i <= k < j ==> !Beats(evs[k], nodeid)
    ensures r.Some? ==> exists k :: i <= k < j && evs[k] == r.value && Beats(evs[k], nodeid)
                                    && forall m :: k < m < j ==> !Beats(evs[m], nodeid)
  {
    if i == j then None
    else if Beats(evs[j - 1], nodeid) then Some(evs[j - 1])
    else LastBeat(evs, i, j - 1, nodeid)
  }

  /** The last kill of the process. */
  function LastKill(evs: seq<Event>): (r: Option<Event>)
    ensures r.None? <==> forall e :: e in evs ==> !e.kind.ProcessKilled?
    ensures r.Some? ==> r.value in evs && r.value.kind.ProcessKilled?
  {
    if evs == [] then None
    else if evs[|evs| - 1].kind.ProcessKilled? then Some(evs[|evs| - 1])
    else LastKill(evs[..|evs| - 1])
  }

  /** The end event, the kill, the last heartbeat, or nothing, in this order of preference. */
  function RecordOf(ev: Event, end: Option<Event>, kill: Option<Event>, beat: Option<Event>): Record {
    var (last, endKind) :=
      if end.Some? then (end.value, Completed)
      else if kill.Some? then (kill.value, ParentKilled)
      else if beat.Some? then (beat.value, LastHeartbeat)
      else (ev, NoEnd);
    Record(ev.pid, ev.mutant, ev.nodeid, ev.mono, ev.ts, last.mono, last.ts, endKind,
           (last.mono - ev.mono) * 1000.0, if beat.Some? then Some(beat.value.mono) else None)
  }

  function EndAt(evs: seq<Event>, j: nat, nodeid: Option<string>): Option<Event> {
    if j < |evs| && Closes(evs[j], nodeid) then Some(evs[j]) else None
  }

  function RecordAt(evs: seq<Event>, i: nat): Record
    requires i < |evs|
  {
    var nodeid := evs[i].nodeid;
    var j := StopAt(evs, i + 1, nodeid);
    RecordOf(evs[i], EndAt(evs, j, nodeid), LastKill(evs), LastBeat(evs, i + 1, j, nodeid))
  }

  /** The start events that get a record: from each, the walk goes on where its search stopped. */
  function Walk(evs: seq<Event>, i: nat): (starts: seq<nat>)
    requires i <= |evs|
    ensures forall p :: 0 <= p < |starts| ==> i <= starts[p] < |evs| && evs[starts[p]].kind.Start?
    ensures forall p, q :: 0 <= p < q < |starts| ==> starts[p] < starts[q]
    decreases |evs| - i
  {
    if i == |evs| then []
    else if !evs[i].kind.Start? then Walk(evs, i + 1)
    else [i] + Walk(evs, StopAt(evs, i + 1, evs[i].nodeid))
  }

  /** The records of the walk from `i`. */
  function WalkRecords(evs: seq<Event>, i: nat): seq<Record>
    requires i <= |evs|
    decreases |evs| - i
  {
    if i == |evs| then []
    else if !evs[i].kind.Start? then WalkRecords(evs, i + 1)
    else [RecordAt(evs, i)] + WalkRecords(evs, StopAt(evs, i + 1, evs[i].nodeid))
  }

  lemma {:induction false} WalkRecordsMatch(evs: seq<Event>, i: nat)
    requires i <= |evs|
    ensures |WalkRecords(evs, i)| == |Walk(evs, i)|
    ensures forall p :: 0 <= p < |Walk(evs, i)| ==> WalkRecords(evs, i)[p] == RecordAt(evs, Walk(evs, i)[p])
    decreases |evs| - i
  {
    if i < |evs| && !evs[i].kind.Start? {
      WalkRecordsMatch(evs, i + 1);
    } else if i < |evs| {
      var j := StopAt(evs, i + 1, evs[i].nodeid);
      var starts, records := Walk(evs, j), WalkRecords(evs, j);
      WalkRecordsMatch(evs, j);
      assert Walk(evs, i) == [i] + starts && WalkRecords(evs, i) == [RecordAt(evs, i)] + records;
      forall p | 0 <= p < |[i] + starts| ensures WalkRecords(evs, i)[p] == RecordAt(evs, ([i] + starts)[p]) {
        if p > 0 { assert ([RecordAt(evs, i)] + records)[p] == records[p - 1]; }
      }
    }
  }

  /** The start at `k` repeats the one at `k'`: the same test starts again before it has ended and
      before another test has started. */
  predicate Repeats(evs: seq<Event>, k': nat, k: nat) {
    && k' < k < |evs| && evs[k'].kind.Start? && evs[k].kind.Start? && evs[k'].nodeid == evs[k].nodeid
    && forall m :: k' < m < k ==> !Stops(evs[m], evs[k].nodeid)
  }

  /** No start in `[i, k)` is repeated at `k`. */
  predicate NotRepeated(evs: seq<Event>, i: nat, k: nat) {
    forall k' :: i <= k' < k ==> !Repeats(evs, k', k)
  }

  /** Within a search nothing is found, and the starts it passes over are repeated. */
  lemma SearchSkips(evs: seq<Event>, i: nat, k: nat)
    requires i < k < |evs| && evs[i].kind.Start? && k < StopAt(evs, i + 1, evs[i].nodeid)
    ensures k !in Walk(evs, i) && (evs[k].kind.Start? ==> Repeats(evs, i, k))
  {
    var j := StopAt(evs, i + 1, evs[i].nodeid);
    assert Walk(evs, i) == [i] + Walk(evs, j);
  }

  /** No start before the end of a search is repeated after it. */
  lemma SearchSeparates(evs: seq<Event>, i: nat, k: nat)
    requires i < |evs| && evs[i].kind.Start? && StopAt(evs, i + 1, evs[i].nodeid) <= k < |evs|
    ensures forall k' :: i <= k' < StopAt(evs, i + 1, evs[i].nodeid) ==> !Repeats(evs, k', k)
  {
    var j := StopAt(evs, i + 1, evs[i].nodeid);
    forall k' | i <= k' < j ensures !Repeats(evs, k', k) {
      if k' > i { assert !Stops(evs[k'], evs[i].nodeid); }
      assert Stops(evs[j], evs[i].nodeid);
    }
  }

  lemma {:induction false} WalkFinds(evs: seq<Event>, i: nat, k: nat)
    requires i <= k < |evs|
    ensures k in Walk(evs, i) <==> evs[k].kind.Start? && NotRepeated(evs, i, k)
    decreases |evs| - i
  {
    if !evs[i].kind.Start? {
      if k > i {
        WalkFinds(evs, i + 1, k);
        assert !Repeats(evs, i, k);
      }
    } else if k == i {
      assert Walk(evs, i)[0] == i;
    } else {
      var j := StopAt(evs, i + 1, evs[i].nodeid);
      if k < j {
        SearchSkips(evs, i, k);
      } else {
        WalkFinds(evs, j, k);
        SearchSeparates(evs, i, k);
        assert Walk(evs, i) == [i] + Walk(evs, j);
      }
    }
  }

  /** Every start event gets exactly one record, unless it repeats an earlier start. */
  lemma OneRecordPerStartIff(evs: seq<Event>, k: nat)
    requires k < |evs| && evs[k].kind.Start?
    ensures (exists p :: 0 <= p < |Walk(evs, 0)| && Walk(evs, 0)[p] == k) <==> NotRepeated(evs, 0, k)
    ensures forall p, q :: 0 <= p < q < |Walk(evs, 0)| ==> Walk(evs, 0)[p] != Walk(evs, 0)[q]
  {
    WalkFinds(evs, 0, k);
  }

  /** A repeated start is swallowed, so the number of records can fall short of the number of starts. */
  lemma RepeatedStartIsSwallowed(first: Event, again: Event)
    requires first.kind.Start? && again.kind.Start? && first.nodeid == again.nodeid
    ensures Walk([first, again], 0) == [0]
  {
    var evs := [first, again];
    assert !Stops(evs[1], first.nodeid);
    assert StopAt(evs, 2, first.nodeid) == 2;
    assert StopAt(evs, 1, first.nodeid) == 2;
  }

  /** In chronological order, an interval ends before it starts iff its end was not found and the
      process was last killed before the start. */
  lemma EndsBeforeStartIff(evs: seq<Event>, i: nat)
    requires SortedBy(evs, BY_MONO) && i < |evs|
    ensures var r := RecordAt(evs, i);
            && (r.endMono < r.startMono <==> r.endKind.ParentKilled? && LastKill(evs).value.mono < evs[i].mono)
            && (r.durationMs < 0.0 <==> r.endMono < r.startMono)
  {
    var j := StopAt(evs, i + 1, evs[i].nodeid);
    assert j < |evs| ==> BY_MONO(evs[i]) <= BY_MONO(evs[j]);
    var beat := LastBeat(evs, i + 1, j, evs[i].nodeid);
    if beat.Some? {
      var k :| i + 1 <= k < j && evs[k] == beat.value;
      assert BY_MONO(evs[i]) <= BY_MONO(evs[k]);
    }
  }

  lemma {:induction false} LastKillIsLatest(evs: seq<Event>, e: Event)
    requires SortedBy(evs, BY_MONO) && e in evs && e.kind.ProcessKilled?
    ensures LastKill(evs).Some? && LastKill(evs).value.mono >= e.mono
  {
    var last := evs[|evs| - 1];
    var i :| 0 <= i < |evs| && evs[i] == e;
    assert BY_MONO(evs[i]) <= BY_MONO(last);
    if !last.kind.ProcessKilled? {
      LastKillIsLatest(evs[..|evs| - 1], e);
    }
  }

  /** The test that starts at `i` ends at `j`: its end event, with no start of another test between. */
  ghost predicate EndsAt(evs: seq<Event>, i: nat, j: nat) {
    && i < j < |evs| && evs[j].kind.End? && evs[j].nodeid == evs[i].nodeid
    && forall m :: i < m < j ==>
         && !(evs[m].kind.End? && evs[m].nodeid == evs[i].nodeid)
         && !(evs[m].kind.Start? && evs[m].nodeid != evs[i].nodeid)
  }

  ghost predicate Ended(evs: seq<Event>, i: nat) {
    exists j: nat :: EndsAt(evs, i, j)
  }

  /** A record says who started what when, and for how long. */
  lemma RecordNamesStart(evs: seq<Event>, i: nat)
    requires i < |evs|
    ensures var r := RecordAt(evs, i);
            && r.pid == evs[i].pid && r.mutant == evs[i].mutant && r.nodeid == evs[i].nodeid
            && r.startMono == evs[i].mono && r.startTs == evs[i].ts
            && r.startMono + r.durationMs / 1000.0 == r.endMono
  {}

  /** How it says the test ended: by its own end event, or else by the last kill of its process, or else
      by its last heartbeat before that or another start, or else at its start. */
  lemma RecordNamesEnd(evs: seq<Event>, i: nat)
    requires i < |evs|
    ensures var r := RecordAt(evs, i);
            && (r.endKind.Completed? <==> Ended(evs, i))
            && (forall j: nat :: EndsAt(evs, i, j) ==> r.endMono == evs[j].mono && r.endTs == evs[j].ts)
            && (r.endKind.ParentKilled? <==> !Ended(evs, i) && LastKill(evs).Some?)
            && (r.endKind.ParentKilled? ==> r.endMono == LastKill(evs).value.mono && r.endTs == LastKill(evs).value.ts)
            && (r.endKind.NoEnd? ==> r.endMono == evs[i].mono && r.endTs == evs[i].ts && r.lastHeartbeat.None?)
            && (r.endKind.LastHeartbeat? ==> r.lastHeartbeat == Some(r.endMono))
  {
    var nodeid := evs[i].nodeid;
    var j := StopAt(evs, i + 1, nodeid);
    if j < |evs| && Closes(evs[j], nodeid) {
      assert EndsAt(evs, i, j);
    }
    forall k: nat | EndsAt(evs, i, k) ensures k == j {
      EndStopsSearch(evs, i, k);
    }
  }

  lemma EndStopsSearch(evs: seq<Event>, i: nat, k: nat)
    requires i < |evs| && EndsAt(evs, i, k)
    ensures StopAt(evs, i + 1, evs[i].nodeid) == k
  {
    assert Stops(evs[k], evs[i].nodeid);
    assert forall m :: i < m < k ==> !Stops(evs[m], evs[i].nodeid);
  }

  /** The last heartbeat it gives is the latest one of the test before its end or another start. */
  lemma RecordNamesHeartbeat(evs: seq<Event>, i: nat)
    requires i < |evs|
    ensures var r, j := RecordAt(evs, i), StopAt(evs, i + 1, evs[i].nodeid);
            && (r.lastHeartbeat.None? <==>
                  forall k :: i < k < j ==> !(evs[k].kind.Heartbeat? && evs[k].nodeid == evs[i].nodeid))
            && (r.lastHeartbeat.Some? ==>
                  exists k :: i < k < j && evs[k].kind.Heartbeat? && evs[k].nodeid == evs[i].nodeid
                              && r.lastHeartbeat.value == evs[k].mono
                              && forall m :: k < m < j ==> !Beats(evs[m], evs[i].nodeid))
  {
    var j := StopAt(evs, i + 1, evs[i].nodeid);
    var beat := LastBeat(evs, i + 1, j, evs[i].nodeid);
    assert forall k :: i < k < j ==> (Beats(evs[k], evs[i].nodeid) <==>
                                        evs[k].kind.Heartbeat? && evs[k].nodeid == evs[i].nodeid);
  }

  method FindKill(evs: seq<Event>) returns (kill: Option<Event>)
    ensures kill == LastKill(evs)
  {
    var i := |evs|;
    assert evs[..|evs|] == evs;
    while i > 0
      invariant 0 <= i <= |evs| && LastKill(evs) == LastKill(evs[..i])
    {
      assert evs[..i][..i - 1] == evs[..i - 1];
      i := i - 1;
      if evs[i].kind.ProcessKilled? { return Some(evs[i]); }
    }
    return None;
  }

  /** Look for the end of the test that started at `i`, remembering its last heartbeat. */
  method Search(evs: seq<Event>, i: nat) returns (j: nat, endEvent: Option<Event>, lastHeartbeat: Option<Event>)
    requires i < |evs|
    ensures j == StopAt(evs, i + 1, evs[i].nodeid)
    ensures endEvent == EndAt(evs, j, evs[i].nodeid)
    ensures lastHeartbeat == LastBeat(evs, i + 1, j, evs[i].nodeid)
  {
    var nodeid := evs[i].nodeid;
    endEvent, lastHeartbeat := None, None;
    j := i + 1;
    while j < |evs|
      invariant i + 1 <= j <= |evs| && endEvent.None?
      invariant StopAt(evs, i + 1, nodeid) == StopAt(evs, j, nodeid)
      invariant lastHeartbeat == LastBeat(evs, i + 1, j, nodeid)
    {
      var later := evs[j];
      if later.nodeid == nodeid && later.kind.End? {
        endEvent := Some(later);
        break;
      }
      if later.nodeid == nodeid && later.kind.Heartbeat? {
        lastHeartbeat := Some(later);
      }
      if later.kind.Start? && later.nodeid != nodeid {
        break;
      }
      j := j + 1;
    }
  }

  /** The records of one process, from its events in chronological order. */
  method WalkEvents(evs: seq<Event>) returns (records: seq<Record>)
    ensures records == WalkRecords(evs, 0)
  {
    var kill := FindKill(evs);
    records := [];
    var i := 0;
    while i < |evs|
      invariant 0 <= i <= |evs|
      invariant WalkRecords(evs, 0) == records + WalkRecords(evs, i)
      decreases |evs| - i
    {
      var ev := evs[i];
      if !ev.kind.Start? {
        i := i + 1;
        continue;
      }
      var j, endEvent, lastHeartbeat := Search(evs, i);
      var record := Conclude(ev, endEvent, kill, lastHeartbeat);
      assert record == RecordAt(evs, i);
      records := records + [record];
      i := j;
    }
  }

  /** The record of a start, given what was found. */
  method Conclude(ev: Event, endEvent: Option<Event>, kill: Option<Event>, lastHeartbeat: Option<Event>)
    returns (record: Record)
    ensures record == RecordOf(ev, endEvent, kill, lastHeartbeat)
  {
    var end, endKind := ev, NoEnd;
    if endEvent.Some? {
      end, endKind := endEvent.value, Completed;
    } else if kill.Some? {
      end, endKind := kill.value, ParentKilled;
    } else if lastHeartbeat.Some? {
      end, endKind := lastHeartbeat.value, LastHeartbeat;
    }
    record := Record(ev.pid, ev.mutant, ev.nodeid, ev.mono, ev.ts, end.mono, end.ts, endKind,
                     (end.mono - ev.mono) * 1000.0,
                     if lastHeartbeat.Some? then Some(lastHeartbeat.value.mono) else None);
  }

  // ---------------------------------------------------------------------------
  // All processes
  // ---------------------------------------------------------------------------

  function OfPid(events: seq<Event>, pid: int): seq<Event> {
    if events == [] then []
    else OfPid(events[..|events| - 1], pid) + if events[|events| - 1].pid == pid then [events[|events| - 1]] else []
  }

  /** The processes in the order of their first events. */
  function Pids(events: seq<Event>): seq<int> {
    if events == [] then []
    else
      var before, pid := Pids(events[..|events| - 1]), events[|events| - 1].pid;
      if pid in before then before else before + [pid]
  }

  /** The records of one process, whose events need not be in order. */
  function RecordsFrom(ofPid: seq<Event>): seq<Record> {
    WalkRecords(Sort(ofPid, BY_MONO), 0)
  }

  function RecordsOf(events: seq<Event>, pid: int): seq<Record> {
    RecordsFrom(OfPid(events, pid))
  }

  function RecordsOfAll(events: seq<Event>, pids: seq<int>): seq<Record> {
    if pids == [] then []
    else RecordsOfAll(events, pids[..|pids| - 1]) + RecordsOf(events, pids[|pids| - 1])
  }

  method GroupByPid(events: seq<Event>) returns (pids: seq<int>, byPid: map<int, seq<Event>>)
    ensures pids == Pids(events)
    ensures forall p :: p in pids <==> p in byPid
    ensures forall p :: p in byPid ==> byPid[p] == OfPid(events, p)
  {
    pids, byPid := [], map[];
    for i := 0 to |events|
      invariant pids == Pids(events[..i])
      invariant forall p :: p in pids <==> p in byPid
      invariant forall p :: p in byPid ==> byPid[p] == OfPid(events[..i], p)
      invariant forall p :: p !in byPid ==> OfPid(events[..i], p) == []
    {
      var ev := events[i];
      assert events[..i + 1][..i] == events[..i];
      if ev.pid in byPid {
        byPid := byPid[ev.pid := byPid[ev.pid] + [ev]];
      } else {
        pids := pids + [ev.pid];
        byPid := byPid[ev.pid := [ev]];
      }
    }
    assert events[..|events|] == events;
  }

  method BuildRecords(ofPid: seq<Event>) returns (records: seq<Record>)
    ensures records == RecordsFrom(ofPid)
  {
    records := WalkEvents(Sort(ofPid, BY_MONO));
  }

  lemma NextPid(events: seq<Event>, pids: seq<int>, i: nat)
    requires i < |pids|
    ensures RecordsOfAll(events, pids[..i + 1]) == RecordsOfAll(events, pids[..i]) + RecordsOf(events, pids[i])
  {
    assert pids[..i + 1][..i] == pids[..i];
  }

  method BuildTestIntervals(events: seq<Event>) returns (records: seq<Record>)
    ensures records == Sort(RecordsOfAll(events, Pids(events)), BY_START)
  {
    var pids, byPid := GroupByPid(events);
    records := [];
    for i := 0 to |pids|
      invariant records == RecordsOfAll(events, pids[..i])
    {
      var pid := pids[i];
      assert pid in pids;
      var ofOne := BuildRecords(byPid[pid]);
      NextPid(events, pids, i);
      records := records + ofOne;
    }
    assert pids[..|pids|] == pids;
    records := Sort(records, BY_START);
  }

  lemma {:induction false} OfPidMember(events: seq<Event>, pid: int, e: Event)
    ensures e in OfPid(events, pid) <==> e in events && e.pid == pid
  {
    if events != [] {
      OfPidMember(events[..|events| - 1], pid, e);
      assert events == events[..|events| - 1] + [events[|events| - 1]];
    }
  }

  lemma SortMember<T>(s: seq<T>, key: T -> real, x: T)
    ensures x in Sort(s, key) <==> x in s
  {
    assert x in multiset(Sort(s, key)) <==> x in multiset(s);
  }

  ghost predicate HasEvent(events: seq<Event>, pid: int) {
    exists e :: e in events && e.pid == pid
  }

  lemma HasEventPush(events: seq<Event>, last: Event, pid: int)
    ensures HasEvent(events + [last], pid) <==> HasEvent(events, pid) || pid == last.pid
  {
    if pid == last.pid { assert last in events + [last]; }
    if e :| e in events && e.pid == pid { assert e in events + [last]; }
  }

  /** Every process that has an event is listed, once. */
  lemma {:induction false} PidsListed(events: seq<Event>)
    ensures forall p :: p in Pids(events) <==> HasEvent(events, p)
    ensures forall i, j :: 0 <= i < j < |Pids(events)| ==> Pids(events)[i] != Pids(events)[j]
  {
    if events != [] {
      var front, last := events[..|events| - 1], events[|events| - 1];
      PidsListed(front);
      assert events == front + [last];
      forall p ensures p in Pids(events) <==> HasEvent(events, p) { HasEventPush(front, last, p); }
    }
  }

  lemma {:induction false} RecordComesFrom(events: seq<Event>, pids: seq<int>, r: Record) returns (p: int)
    requires r in RecordsOfAll(events, pids)
    ensures p in pids && r in RecordsOf(events, p)
  {
    var front, last := pids[..|pids| - 1], pids[|pids| - 1];
    var before, own := RecordsOfAll(events, front), RecordsOf(events, last);
    if r in own {
      p := last;
    } else {
      assert r in before + own;
      p := RecordComesFrom(events, front, r);
    }
  }

  lemma {:induction false} RecordIsAmongAll(events: seq<Event>, pids: seq<int>, p: int, r: Record)
    requires p in pids && r in RecordsOf(events, p)
    ensures r in RecordsOfAll(events, pids)
  {
    var front, last := pids[..|pids| - 1], pids[|pids| - 1];
    assert pids == front + [last];
    if p != last { RecordIsAmongAll(events, front, p, r); }
  }

  /** `r` is the record of a start of the process that repeats no earlier one in its chronological log. */
  ghost predicate RecordsSome(events: seq<Event>, pid: int, r: Record) {
    HasEvent(events, pid) && exists k :: RecordsStart(Sort(OfPid(events, pid), BY_MONO), k, r)
  }

  /** The result holds, for every process, the record of each such start, and nothing else. */
  lemma RecordsComplete(events: seq<Event>, r: Record)
    ensures r in Sort(RecordsOfAll(events, Pids(events)), BY_START) <==> exists p :: RecordsSome(events, p, r)
  {
    SortMember(RecordsOfAll(events, Pids(events)), BY_START, r);
    PidsListed(events);
    if r in RecordsOfAll(events, Pids(events)) {
      var p := RecordComesFrom(events, Pids(events), r);
      WalkRecordsComplete(Sort(OfPid(events, p), BY_MONO), r);
      assert RecordsSome(events, p, r);
    }
    if p :| RecordsSome(events, p, r) {
      WalkRecordsComplete(Sort(OfPid(events, p), BY_MONO), r);
      RecordIsAmongAll(events, Pids(events), p, r);
    }
  }

  /** `r` is the record of the start at `k`, which repeats no earlier one. */
  ghost predicate RecordsStart(evs: seq<Event>, k: int, r: Record) {
    0 <= k < |evs| && evs[k].kind.Start? && NotRepeated(evs, 0, k) && r == RecordAt(evs, k)
  }

  lemma WalkRecordsComplete(evs: seq<Event>, r: Record)
    ensures r in WalkRecords(evs, 0) <==> exists k :: RecordsStart(evs, k, r)
  {
    WalkRecordsMatch(evs, 0);
    if r in WalkRecords(evs, 0) {
      var p :| 0 <= p < |WalkRecords(evs, 0)| && WalkRecords(evs, 0)[p] == r;
      WalkFinds(evs, 0, Walk(evs, 0)[p]);
      assert RecordsStart(evs, Walk(evs, 0)[p], r);
    }
    if k :| RecordsStart(evs, k, r) {
      WalkFinds(evs, 0, k);
      var p :| 0 <= p < |Walk(evs, 0)| && Walk(evs, 0)[p] == k;
      assert WalkRecords(evs, 0)[p] == r;
    }
  }

  /** A start event of a process that was killed lies no later than some kill of it. */
  ghost predicate KillsComeLast(events: seq<Event>) {
    forall e, k :: e in events && k in events && e.kind.Start? && k.kind.ProcessKilled? && e.pid == k.pid ==>
      exists later :: later in events && later.kind.ProcessKilled? && later.pid == e.pid && e.mono <= later.mono
  }

  ghost predicate Ordered(r: Record) {
    r.startMono <= r.endMono
  }

  lemma RecordsOfOrdered(events: seq<Event>, pid: int, r: Record)
    requires KillsComeLast(events) && r in RecordsOf(events, pid)
    ensures Ordered(r)
  {
    var evs := Sort(OfPid(events, pid), BY_MONO);
    WalkRecordsMatch(evs, 0);
    var p :| 0 <= p < |WalkRecords(evs, 0)| && r == WalkRecords(evs, 0)[p];
    var i := Walk(evs, 0)[p];
    EndsBeforeStartIff(evs, i);
    if LastKill(evs).Some? {
      StartBeforeLastKill(events, pid, evs[i]);
    }
  }

  lemma StartBeforeLastKill(events: seq<Event>, pid: int, e: Event)
    requires var evs := Sort(OfPid(events, pid), BY_MONO);
             KillsComeLast(events) && e in evs && e.kind.Start? && LastKill(evs).Some?
    ensures e.mono <= LastKill(Sort(OfPid(events, pid), BY_MONO)).value.mono
  {
    var evs := Sort(OfPid(events, pid), BY_MONO);
    var kill := LastKill(evs).value;
    MemberOfSorted(events, pid, e);
    MemberOfSorted(events, pid, kill);
    var later :| later in events && later.kind.ProcessKilled? && later.pid == e.pid && e.mono <= later.mono;
    MemberOfSorted(events, pid, later);
    LastKillIsLatest(evs, later);
  }

  lemma MemberOfSorted(events: seq<Event>, pid: int, e: Event)
    ensures e in Sort(OfPid(events, pid), BY_MONO) <==> e in events && e.pid == pid
  {
    SortMember(OfPid(events, pid), BY_MONO, e);
    OfPidMember(events, pid, e);
  }

  lemma {:induction false} RecordsOfAllOrdered(events: seq<Event>, pids: seq<int>, r: Record)
    requires KillsComeLast(events) && r in RecordsOfAll(events, pids)
    ensures Ordered(r)
  {
    if r in RecordsOf(events, pids[|pids| - 1]) {
      RecordsOfOrdered(events, pids[|pids| - 1], r);
    } else {
      RecordsOfAllOrdered(events, pids[..|pids| - 1], r);
    }
  }

  /** Every interval that is built ends no earlier than it starts, if no process has a start after
      its last kill. */
  lemma IntervalsOrdered(events: seq<Event>)
    requires KillsComeLast(events)
    ensures forall r :: r in Sort(RecordsOfAll(events, Pids(events)), BY_START) ==> Ordered(r)
  {
    forall r | r in Sort(RecordsOfAll(events, Pids(events)), BY_START) ensures Ordered(r) {
      SortMember(RecordsOfAll(events, Pids(events)), BY_START, r);
      RecordsOfAllOrdered(events, Pids(events), r);
    }
  }

  // ---------------------------------------------------------------------------
  // Overlaps
  // ---------------------------------------------------------------------------

  datatype Overlap = Overlap(aPid: int, aMutant: string, aNodeid: Option<string>,
                             bPid: int, bMutant: string, bNodeid: Option<string>, overlapMs: real)

  function OverlapOf(a: Record, b: Record): Overlap {
    Overlap(a.pid, a.mutant, a.nodeid, b.pid, b.mutant, b.nodeid,
            (Min(a.endMono, b.endMono) - Max(a.startMono, b.startMono)) * 1000.0)
  }

  /** The later interval, of another process, starts before the earlier one ends. */
  predicate Clash(a: Record, b: Record) {
    a.pid != b.pid && b.startMono < a.endMono
  }

  type Pair = (nat, nat)

  /** All later records up to `n` that clash with the one at `i`: no early exit. */
  function Row(s: seq<Record>, i: nat, n: nat): (pairs: seq<Pair>)
    requires i < n <= |s|
    ensures forall p :: p in pairs <==> p.0 == i && i < p.1 < n && Clash(s[i], s[p.1])
    ensures forall p, q :: 0 <= p < q < |pairs| ==> pairs[p] != pairs[q]
  {
    if n == i + 1 then []
    else Row(s, i, n - 1) + if Clash(s[i], s[n - 1]) then [(i, n - 1)] else []
  }

  /** All pairs whose first is among the first `n` records. */
  function Pairs(s: seq<Record>, n: nat): (pairs: seq<Pair>)
    requires n <= |s|
    ensures forall p :: p in pairs <==> p.0 < n && p.0 < p.1 < |s| && Clash(s[p.0], s[p.1])
    ensures forall p, q :: 0 <= p < q < |pairs| ==> pairs[p] != pairs[q]
  {
    if n == 0 then [] else Pairs(s, n - 1) + Row(s, n - 1, |s|)
  }

  function RowOverlaps(s: seq<Record>, i: nat, n: nat): seq<Overlap>
    requires i < n <= |s|
  {
    if n == i + 1 then []
    else RowOverlaps(s, i, n - 1) + if Clash(s[i], s[n - 1]) then [OverlapOf(s[i], s[n - 1])] else []
  }

  /** The overlaps that comparing all pairs finds. */
  function AllOverlaps(s: seq<Record>, n: nat): seq<Overlap>
    requires n <= |s|
  {
    if n == 0 then [] else AllOverlaps(s, n - 1) + RowOverlaps(s, n - 1, |s|)
  }

  /** They are those of the pairs, one for one. */
  ghost predicate Matches(s: seq<Record>, overlaps: seq<Overlap>, pairs: seq<Pair>) {
    && |overlaps| == |pairs|
    && forall k :: 0 <= k < |pairs| ==>
         pairs[k].0 < |s| && pairs[k].1 < |s| && overlaps[k] == OverlapOf(s[pairs[k].0], s[pairs[k].1])
  }

  lemma {:induction false} RowMatches(s: seq<Record>, i: nat, n: nat)
    requires i < n <= |s|
    ensures Matches(s, RowOverlaps(s, i, n), Row(s, i, n))
  {
    if n > i + 1 {
      RowMatches(s, i, n - 1);
      if Clash(s[i], s[n - 1]) {
        MatchesConcat(s, RowOverlaps(s, i, n - 1), Row(s, i, n - 1), [OverlapOf(s[i], s[n - 1])], [(i, n - 1)]);
      }
    }
  }

  lemma MatchesConcat(s: seq<Record>, o: seq<Overlap>, p: seq<Pair>, more: seq<Overlap>, morePairs: seq<Pair>)
    requires Matches(s, o, p) && Matches(s, more, morePairs)
    ensures Matches(s, o + more, p + morePairs)
  {}

  lemma {:induction false} OverlapsMatchPairs(s: seq<Record>, n: nat)
    requires n <= |s|
    ensures Matches(s, AllOverlaps(s, n), Pairs(s, n))
  {
    if n > 0 {
      OverlapsMatchPairs(s, n - 1);
      RowMatches(s, n - 1, |s|);
      MatchesConcat(s, AllOverlaps(s, n - 1), Pairs(s, n - 1), RowOverlaps(s, n - 1, |s|), Row(s, n - 1, |s|));
    }
  }

  /** In order of start, nothing after the first record that starts too late clashes. */
  lemma {:induction false} RowEnds(s: seq<Record>, i: nat, j: nat, n: nat)
    requires SortedBy(s, BY_START) && i < j <= n <= |s|
    requires j < |s| && s[j].startMono >= s[i].endMono
    ensures RowOverlaps(s, i, n) == RowOverlaps(s, i, j)
    decreases n
  {
    if n > j {
      assert BY_START(s[j]) <= BY_START(s[n - 1]);
      RowEnds(s, i, j, n - 1);
    }
  }

  /** The overlaps of the record at `i` with later ones, with the early exit. */
  method SweepFrom(s: seq<Record>, i: nat) returns (overlaps: seq<Overlap>)
    requires SortedBy(s, BY_START) && i < |s|
    ensures overlaps == RowOverlaps(s, i, |s|)
  {
    overlaps := [];
    var a := s[i];
    for j := i + 1 to |s|
      invariant overlaps == RowOverlaps(s, i, j)
    {
      var b := s[j];
      if b.startMono >= a.endMono {
        RowEnds(s, i, j, |s|);
        break;
      }
      if a.pid == b.pid { continue; }
      var overlapStart := Max(a.startMono, b.startMono);
      var overlapEnd := Min(a.endMono, b.endMono);
      overlaps := overlaps + [Overlap(a.pid, a.mutant, a.nodeid, b.pid, b.mutant, b.nodeid,
                                      (overlapEnd - overlapStart) * 1000.0)];
    }
  }

  /** The sweep finds exactly the overlaps that comparing all pairs finds, each once. */
  method DetectCrossPidOverlaps(records: seq<Record>) returns (overlaps: seq<Overlap>)
    ensures var s := Sort(records, BY_START);
            overlaps == AllOverlaps(s, |s|) && Matches(s, overlaps, Pairs(s, |s|))
  {
    var s := Sort(records, BY_START);
    overlaps := [];
    for i := 0 to |s|
      invariant overlaps == AllOverlaps(s, i)
    {
      var row := SweepFrom(s, i);
      overlaps := overlaps + row;
    }
    OverlapsMatchPairs(s, |s|);
  }

  /** What a reported pair means when its intervals are not empty: the processes differ and some
      instant lies in both; and its overlap is positive. */
  lemma ClashIsIntersection(s: seq<Record>, i: nat, j: nat)
    requires SortedBy(s, BY_START) && i < j < |s| && s[j].startMono < s[j].endMono
    ensures Clash(s[i], s[j]) <==>
              s[i].pid != s[j].pid
              && exists t :: InRecord(s[i], t) && InRecord(s[j], t)
    ensures Clash(s[i], s[j]) ==> OverlapOf(s[i], s[j]).overlapMs > 0.0
  {
    assert BY_START(s[i]) <= BY_START(s[j]);
    if s[j].startMono < s[i].endMono {
      assert InRecord(s[i], s[j].startMono) && InRecord(s[j], s[j].startMono);
    }
  }

  /** A reported overlap is the longest time two instants of both intervals can be apart. */
  lemma OverlapIsLongestShared(a: Record, b: Record, from: real, upto: real)
    requires a.startMono <= from <= upto <= a.endMono && b.startMono <= from <= upto <= b.endMono
    ensures var o := OverlapOf(a, b);
            && (upto - from) * 1000.0 <= o.overlapMs
            && (exists t, u :: Shared(a, b, t, u) && (u - t) * 1000.0 == o.overlapMs)
            && (o.aPid, o.aMutant, o.aNodeid) == (a.pid, a.mutant, a.nodeid)
            && (o.bPid, o.bMutant, o.bNodeid) == (b.pid, b.mutant, b.nodeid)
  {
    assert Shared(a, b, Max(a.startMono, b.startMono), Min(a.endMono, b.endMono));
  }

  predicate Shared(a: Record, b: Record, t: real, u: real) {
    a.startMono <= t <= u <= a.endMono && b.startMono <= t <= u <= b.endMono
  }

  predicate InRecord(r: Record, t: real) {
    r.startMono <= t < r.endMono
  }

  /** The overlap of a reported pair is negative iff the later interval ends before it starts. */
  lemma OverlapNegativeIff(s: seq<Record>, i: nat, j: nat)
    requires SortedBy(s, BY_START) && i < j < |s| && Clash(s[i], s[j])
    ensures OverlapOf(s[i], s[j]).overlapMs >= 0.0 <==> Ordered(s[j])
  {
    assert BY_START(s[i]) <= BY_START(s[j]);
  }

  /** So every overlap found among intervals built from events is non-negative, if no process has a
      start after its last kill. */
  lemma BuiltOverlapsNonNegative(events: seq<Event>)
    requires KillsComeLast(events)
    ensures var s := Sort(Sort(RecordsOfAll(events, Pids(events)), BY_START), BY_START);
            forall o :: o in AllOverlaps(s, |s|) ==> o.overlapMs >= 0.0
  {
    var records := Sort(RecordsOfAll(events, Pids(events)), BY_START);
    var s := Sort(records, BY_START);
    OverlapsMatchPairs(s, |s|);
    IntervalsOrdered(events);
    forall o | o in AllOverlaps(s, |s|) ensures o.overlapMs >= 0.0 {
      var k :| 0 <= k < |AllOverlaps(s, |s|)| && o == AllOverlaps(s, |s|)[k];
      var p := Pairs(s, |s|)[k];
      assert p in Pairs(s, |s|);
      SortMember(records, BY_START, s[p.1]);
      OverlapNegativeIff(s, p.0, p.1);
    }
  }
}
