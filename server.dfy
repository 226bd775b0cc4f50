/**
  The telemetry server: a store of agent snapshots, the history of an agent's snapshot
  times, and the velocity report that compares the latest snapshots at or before two
  time bounds, in total and extension by extension. The database is a sequence of
  snapshots in insertion order, and a failing database call is an input flag.
 */
module Server {
  import opened Options
  import opened Sorting

  /** One `(extension, total size, file count)` entry of a snapshot. */
  datatype ExtensionTotal = ExtensionTotal(extension: string, size: nat, count: nat)

  datatype AgentSnapshot = AgentSnapshot(
    agentId: string,
    timestamp: int,
    hostname: string,
    totalSizeBytes: nat,
    fileCount: nat,
    topExtensions: seq<ExtensionTotal>)

  datatype ExtensionDelta = ExtensionDelta(extension: string, sizeDelta: int, countDelta: int)

  /** `bytes_per_second` is kept as an exact quotient. */
  datatype VelocityReport = VelocityReport(
    agentId: string,
    tStart: int,
    tEnd: int,
    durationSeconds: int,
    growthBytes: int,
    growthFiles: int,
    bytesPerSecond: real,
    extensionDeltas: seq<ExtensionDelta>)

  datatype TimeRange = TimeRange(start: int, end: int)

  /** The two replies of the ingest endpoint. */
  datatype IngestReply = Stored | StoreError

  // ---------------------------------------------------------------- history

  /** The timestamps of `agent`'s snapshots, in store order. */
  function AgentTimestamps(db: seq<AgentSnapshot>, agent: string): seq<int> {
    if db == [] then []
    else
      var rest := AgentTimestamps(db[..|db| - 1], agent);
      if db[|db| - 1].agentId == agent then rest + [db[|db| - 1].timestamp] else rest
  }

  /** A snapshot time of the agent is listed exactly when some stored snapshot of the agent has it. */
  lemma {:induction false} AgentTimestampsMembers(db: seq<AgentSnapshot>, agent: string, t: int)
    ensures t in AgentTimestamps(db, agent) <==>
      exists i :: 0 <= i < |db| && db[i].agentId == agent && db[i].timestamp == t
  {
    if db != [] {
      var init := db[..|db| - 1];
      AgentTimestampsMembers(init, agent, t);
      if exists i :: 0 <= i < |init| && init[i].agentId == agent && init[i].timestamp == t {
        var i :| 0 <= i < |init| && init[i].agentId == agent && init[i].timestamp == t;
        assert db[i] == init[i];
      }
      if exists i :: 0 <= i < |db| && db[i].agentId == agent && db[i].timestamp == t {
        var i :| 0 <= i < |db| && db[i].agentId == agent && db[i].timestamp == t;
        if i < |init| {
          assert init[i] == db[i];
        }
      }
    }
  }

  function Identity(t: int): int { t }

  /**
    `get_agent_history`: the agent's snapshot times, newest first, and nothing when the
    query fails.
   */
  function History(db: seq<AgentSnapshot>, agent: string, queryFails: bool): (r: seq<int>)
    ensures queryFails ==> r == []
    ensures !queryFails ==> multiset(r) == multiset(AgentTimestamps(db, agent))
    ensures NonIncreasingBy(r, Identity)
  {
    if queryFails then []
    else
      var ts := AgentTimestamps(db, agent);
      SortDescByPermutes(ts, Identity);
      SortDescBySorted(ts, Identity);
      SortDescBy(ts, Identity)
  }

  /** An agent without snapshots has an empty history. */
  lemma UnknownAgentHistory(db: seq<AgentSnapshot>, agent: string, queryFails: bool)
    requires forall i :: 0 <= i < |db| ==> db[i].agentId != agent
    ensures History(db, agent, queryFails) == []
  {
    if AgentTimestamps(db, agent) != [] {
      var t := AgentTimestamps(db, agent)[0];
      AgentTimestampsMembers(db, agent, t);
    }
  }

  /** Storing a snapshot adds its time to its agent's history and to no other. */
  lemma HistoryAfterAppend(db: seq<AgentSnapshot>, s: AgentSnapshot, agent: string)
    ensures multiset(History(db + [s], agent, false)) ==
      multiset(History(db, agent, false)) + (if s.agentId == agent then multiset{s.timestamp} else multiset{})
  {
    assert (db + [s])[..|db|] == db;
  }

  /** Nothing deduplicates: a snapshot sent twice is listed twice. */
  lemma ResubmittedSnapshotListedTwice(db: seq<AgentSnapshot>, s: AgentSnapshot)
    ensures multiset(History(db + [s] + [s], s.agentId, false)) ==
      multiset(History(db, s.agentId, false)) + multiset{s.timestamp, s.timestamp}
  {
    HistoryAfterAppend(db, s, s.agentId);
    HistoryAfterAppend(db + [s], s, s.agentId);
  }

  // ---------------------------------------------------------------- bound lookup

  /** A snapshot the bound query may return: the agent's, and not after the bound. */
  predicate Candidate(s: AgentSnapshot, agent: string, bound: int) {
    s.agentId == agent && s.timestamp <= bound
  }

  /**
    The bound query `timestamp <= $ts ORDER BY timestamp DESC LIMIT 1`: a snapshot of
    the agent with the greatest timestamp not after the bound; among snapshots with that
    same timestamp the earliest stored is taken.
   */
  function LatestAtOrBefore(db: seq<AgentSnapshot>, agent: string, bound: int): (r: Option<AgentSnapshot>)
    ensures r.Some? ==> r.value in db && Candidate(r.value, agent, bound)
    ensures r.Some? ==> forall s :: s in db && Candidate(s, agent, bound) ==> s.timestamp <= r.value.timestamp
    ensures r.None? ==> forall s :: s in db ==> !Candidate(s, agent, bound)
  {
    if db == [] then None
    else
      var init, s := db[..|db| - 1], db[|db| - 1];
      assert db == init + [s];
      var best := LatestAtOrBefore(init, agent, bound);
      if !Candidate(s, agent, bound) then best
      else if best.Some? && best.value.timestamp >= s.timestamp then best
      else Some(s)
  }

  /** A later bound never selects an earlier snapshot, so the measured duration is not negative. */
  lemma LatestMonotone(db: seq<AgentSnapshot>, agent: string, b1: int, b2: int)
    requires b1 <= b2
    ensures LatestAtOrBefore(db, agent, b1).Some? ==> LatestAtOrBefore(db, agent, b2).Some?
    ensures LatestAtOrBefore(db, agent, b1).Some? ==>
      LatestAtOrBefore(db, agent, b1).value.timestamp <= LatestAtOrBefore(db, agent, b2).value.timestamp
  {
  }

  // ---------------------------------------------------------------- extension deltas

  /** The start snapshot's entries as `start_ext_map`: a later entry for a name replaces an earlier one. */
  function ToMap(exts: seq<ExtensionTotal>): map<string, (nat, nat)> {
    if exts == [] then map[]
    else
      var e := exts[|exts| - 1];
      ToMap(exts[..|exts| - 1])[e.extension := (e.size, e.count)]
  }

  /** The last entry named `x`. */
  function Find(exts: seq<ExtensionTotal>, x: string): Option<ExtensionTotal> {
    if exts == [] then None
    else if exts[|exts| - 1].extension == x then Some(exts[|exts| - 1])
    else Find(exts[..|exts| - 1], x)
  }

  /** The extension names of the entries. */
  function Names(exts: seq<ExtensionTotal>): set<string> {
    set i | 0 <= i < |exts| :: exts[i].extension
  }

  lemma {:induction false} FindNames(exts: seq<ExtensionTotal>, x: string)
    ensures Find(exts, x).Some? <==> x in Names(exts)
    ensures Find(exts, x).Some? ==> Find(exts, x).value.extension == x && Find(exts, x).value in exts
  {
    if exts != [] {
      var init := exts[..|exts| - 1];
      FindNames(init, x);
      if x in Names(exts) && exts[|exts| - 1].extension != x {
        var i :| 0 <= i < |exts| && exts[i].extension == x;
        assert init[i] == exts[i];
      }
      if x in Names(init) {
        var i :| 0 <= i < |init| && init[i].extension == x;
        assert exts[i] == init[i];
      }
    }
  }

  /** The map holds each name's last entry. */
  lemma {:induction false} ToMapFind(exts: seq<ExtensionTotal>, x: string)
    ensures x in ToMap(exts) <==> Find(exts, x).Some?
    ensures x in ToMap(exts) ==> ToMap(exts)[x] == (Find(exts, x).value.size, Find(exts, x).value.count)
  {
    if exts != [] {
      ToMapFind(exts[..|exts| - 1], x);
    }
  }

  /** The delta of an extension present in both snapshots. */
  function Matched(e: ExtensionTotal, start: (nat, nat)): ExtensionDelta {
    ExtensionDelta(e.extension, e.size - start.0, e.count - start.1)
  }

  /** The delta of an extension that appeared. */
  function Appeared(e: ExtensionTotal): ExtensionDelta {
    ExtensionDelta(e.extension, e.size, e.count)
  }

  /** The delta of an extension that disappeared. */
  function Disappeared(x: string, start: (nat, nat)): ExtensionDelta {
    ExtensionDelta(x, -(start.0 as int), -(start.1 as int))
  }

  /**
    The pass over the end snapshot's entries: the deltas pushed and what is left of the
    start map, whose matched names are removed as they are met.
   */
  function EndPass(ends: seq<ExtensionTotal>, m: map<string, (nat, nat)>): (seq<ExtensionDelta>, map<string, (nat, nat)>) {
    if ends == [] then ([], m)
    else
      var (ds, rest) := EndPass(ends[..|ends| - 1], m);
      var e := ends[|ends| - 1];
      if e.extension in rest then (ds + [Matched(e, rest[e.extension])], rest - {e.extension})
      else (ds + [Appeared(e)], rest)
  }

  /** The deltas of every name left in the map. */
  function GoneSet(m: map<string, (nat, nat)>): set<ExtensionDelta> {
    set x | x in m :: Disappeared(x, m[x])
  }

  /** The deltas the velocity report lists, as a bag: the end pass and then the leftover names. */
  function DeltaBag(starts: seq<ExtensionTotal>, ends: seq<ExtensionTotal>): multiset<ExtensionDelta> {
    var (ds, rest) := EndPass(ends, ToMap(starts));
    multiset(ds) + multiset(GoneSet(rest))
  }

  function AbsSize(d: ExtensionDelta): int {
    if d.sizeDelta < 0 then -d.sizeDelta else d.sizeDelta
  }

  /** Draining one name from the map moves its delta from the map's set to the drained list. */
  lemma GoneStep(m: map<string, (nat, nat)>, x: string)
    requires x in m
    ensures multiset(GoneSet(m)) == multiset(GoneSet(m - {x})) + multiset{Disappeared(x, m[x])}
  {
    var d, m' := Disappeared(x, m[x]), m - {x};
    forall y | y in m ensures Disappeared(y, m[y]) in GoneSet(m') + {d} {
      if y != x {
        assert y in m';
      }
    }
    assert GoneSet(m) == GoneSet(m') + {d};
    assert d !in GoneSet(m');
  }

  /**
    The delta step of `get_velocity`: the start entries are inserted into a map, the end
    entries are matched against it (a matched name is removed), the names left over are
    drained in the map's own order, and the list is sorted by absolute size delta,
    largest first, keeping the order of ties.
   */
  method ExtensionDeltas(starts: seq<ExtensionTotal>, ends: seq<ExtensionTotal>) returns (deltas: seq<ExtensionDelta>)
    ensures multiset(deltas) == DeltaBag(starts, ends)
    ensures NonIncreasingBy(deltas, AbsSize)
  {
    var startMap: map<string, (nat, nat)> := map[];
    var i := 0;
    while i < |starts|
      invariant 0 <= i <= |starts|
      invariant startMap == ToMap(starts[..i])
    {
      var e := starts[i];
      assert starts[..i + 1][..i] == starts[..i];
      startMap := startMap[e.extension := (e.size, e.count)];
      i := i + 1;
    }
    assert starts[..i] == starts;
    var pushed: seq<ExtensionDelta> := [];
    var j := 0;
    while j < |ends|
      invariant 0 <= j <= |ends|
      invariant (pushed, startMap) == EndPass(ends[..j], ToMap(starts))
    {
      var e := ends[j];
      assert ends[..j + 1][..j] == ends[..j];
      if e.extension in startMap {
        pushed := pushed + [Matched(e, startMap[e.extension])];
        startMap := startMap - {e.extension};
      } else {
        pushed := pushed + [Appeared(e)];
      }
      j := j + 1;
    }
    assert ends[..j] == ends;
    ghost var left := startMap;
    var drained: seq<ExtensionDelta> := [];
    while startMap != map[]
      invariant multiset(drained) + multiset(GoneSet(startMap)) == multiset(GoneSet(left))
      decreases |startMap|
    {
      var x :| x in startMap;
      drained := drained + [Disappeared(x, startMap[x])];
      GoneStep(startMap, x);
      startMap := startMap - {x};
    }
    assert GoneSet(startMap) == {};
    deltas := pushed + drained;
    SortDescByPermutes(deltas, AbsSize);
    SortDescBySorted(deltas, AbsSize);
    deltas := SortDescBy(deltas, AbsSize);
  }

  // ---------------------------------------------------------------- per-extension meaning

  /** No two entries share a name. */
  predicate DistinctNames(exts: seq<ExtensionTotal>) {
    forall i, j :: 0 <= i < j < |exts| ==> exts[i].extension != exts[j].extension
  }

  function SizeOr0(exts: seq<ExtensionTotal>, x: string): int {
    match Find(exts, x)
    case None => 0
    case Some(e) => e.size
  }

  function CountOr0(exts: seq<ExtensionTotal>, x: string): int {
    match Find(exts, x)
    case None => 0
    case Some(e) => e.count
  }

  /** End minus start for one extension; an extension missing on one side counts as 0 there. */
  function Expected(starts: seq<ExtensionTotal>, ends: seq<ExtensionTotal>, x: string): ExtensionDelta {
    ExtensionDelta(x, SizeOr0(ends, x) - SizeOr0(starts, x), CountOr0(ends, x) - CountOr0(starts, x))
  }

  /** One expected delta for every name of either snapshot. */
  function ExpectedSet(starts: seq<ExtensionTotal>, ends: seq<ExtensionTotal>): set<ExtensionDelta> {
    set x | x in Names(starts) + Names(ends) :: Expected(starts, ends, x)
  }

  /** The delta of an end entry against the start map `m`. */
  function EndDelta(ends: seq<ExtensionTotal>, m: map<string, (nat, nat)>, x: string): ExtensionDelta {
    var endSize, endCount := SizeOr0(ends, x), CountOr0(ends, x);
    if x in m then ExtensionDelta(x, endSize - m[x].0, endCount - m[x].1)
    else ExtensionDelta(x, endSize, endCount)
  }

  function EndSet(ends: seq<ExtensionTotal>, m: map<string, (nat, nat)>): set<ExtensionDelta> {
    set x | x in Names(ends) :: EndDelta(ends, m, x)
  }

  lemma NamesLast(exts: seq<ExtensionTotal>)
    requires exts != []
    ensures Names(exts) == Names(exts[..|exts| - 1]) + {exts[|exts| - 1].extension}
  {
    var init := exts[..|exts| - 1];
    forall x | x in Names(exts) ensures x in Names(init) + {exts[|exts| - 1].extension} {
      var i :| 0 <= i < |exts| && exts[i].extension == x;
      if i < |init| {
        assert init[i] == exts[i];
      }
    }
    forall x | x in Names(init) ensures x in Names(exts) {
      var i :| 0 <= i < |init| && init[i].extension == x;
      assert exts[i] == init[i];
    }
  }

  lemma DistinctPrefix(exts: seq<ExtensionTotal>)
    requires exts != [] && DistinctNames(exts)
    ensures DistinctNames(exts[..|exts| - 1])
    ensures exts[|exts| - 1].extension !in Names(exts[..|exts| - 1])
  {
  }

  /** The end pass leaves the start map without the end snapshot's names. */
  lemma {:induction false} EndPassRest(ends: seq<ExtensionTotal>, m: map<string, (nat, nat)>)
    ensures EndPass(ends, m).1 == m - Names(ends)
  {
    if ends != [] {
      EndPassRest(ends[..|ends| - 1], m);
      NamesLast(ends);
    }
  }

  /** With distinct names, the expected set grows by the last end entry's delta, which is new. */
  lemma EndSetStep(ends: seq<ExtensionTotal>, m: map<string, (nat, nat)>)
    requires ends != [] && DistinctNames(ends)
    ensures var init, x := ends[..|ends| - 1], ends[|ends| - 1].extension;
      EndSet(ends, m) == EndSet(init, m) + {EndDelta(ends, m, x)} && EndDelta(ends, m, x) !in EndSet(init, m)
  {
    var init, x := ends[..|ends| - 1], ends[|ends| - 1].extension;
    NamesLast(ends);
    DistinctPrefix(ends);
    forall y | y in Names(init) ensures EndDelta(ends, m, y) == EndDelta(init, m, y) {
      assert y != x;
    }
    assert EndSet(ends, m) == EndSet(init, m) + {EndDelta(ends, m, x)};
  }

  /** With distinct end names, the end pass pushes one delta per name. */
  lemma {:induction false} EndPassDistinct(ends: seq<ExtensionTotal>, m: map<string, (nat, nat)>)
    requires DistinctNames(ends)
    ensures multiset(EndPass(ends, m).0) == multiset(EndSet(ends, m))
  {
    if ends != [] {
      var init, x := ends[..|ends| - 1], ends[|ends| - 1].extension;
      var d := EndDelta(ends, m, x);
      DistinctPrefix(ends);
      EndPassDistinct(init, m);
      EndPassLast(ends, m);
      EndSetStep(ends, m);
      DisjointUnion(EndSet(init, m), {d});
    }
  }

  /** With distinct names, the last end entry is met with the start map still holding its name. */
  lemma EndPassLast(ends: seq<ExtensionTotal>, m: map<string, (nat, nat)>)
    requires ends != [] && DistinctNames(ends)
    ensures var init, x := ends[..|ends| - 1], ends[|ends| - 1].extension;
      EndPass(ends, m).0 == EndPass(init, m).0 + [EndDelta(ends, m, x)]
  {
    var init := ends[..|ends| - 1];
    DistinctPrefix(ends);
    EndPassRest(init, m);
  }

  lemma DisjointUnion<T>(a: set<T>, b: set<T>)
    requires a * b == {}
    ensures multiset(a + b) == multiset(a) + multiset(b)
  {
    forall d ensures multiset(a + b)[d] == (multiset(a) + multiset(b))[d] {
      assert d in a && d in b ==> d in a * b;
    }
  }

  /** The expected set splits into the end entries' deltas and the deltas of the names left over. */
  lemma ExpectedSplit(starts: seq<ExtensionTotal>, ends: seq<ExtensionTotal>)
    ensures var m := ToMap(starts);
      && ExpectedSet(starts, ends) == EndSet(ends, m) + GoneSet(m - Names(ends))
      && EndSet(ends, m) * GoneSet(m - Names(ends)) == {}
  {
    var m := ToMap(starts);
    var rest := m - Names(ends);
    forall x | x in Names(ends) ensures EndDelta(ends, m, x) == Expected(starts, ends, x) {
      ToMapFind(starts, x);
    }
    forall x | x in rest ensures Disappeared(x, rest[x]) == Expected(starts, ends, x) && x in Names(starts) {
      ToMapFind(starts, x);
      FindNames(starts, x);
      FindNames(ends, x);
    }
    forall x | x in Names(starts) && x !in Names(ends) ensures x in rest {
      ToMapFind(starts, x);
      FindNames(starts, x);
    }
    assert ExpectedSet(starts, ends) == EndSet(ends, m) + GoneSet(rest);
  }

  /**
    With distinct names in the end snapshot, every extension of either snapshot appears
    exactly once among the deltas, with its end minus start size and count; a name
    missing on one side counts as 0 there, and a name repeated in the start snapshot
    counts with its last entry.
   */
  lemma DeltasOncePerExtension(starts: seq<ExtensionTotal>, ends: seq<ExtensionTotal>)
    requires DistinctNames(ends)
    ensures DeltaBag(starts, ends) == multiset(ExpectedSet(starts, ends))
  {
    var m := ToMap(starts);
    EndPassRest(ends, m);
    EndPassDistinct(ends, m);
    ExpectedSplit(starts, ends);
    DisjointUnion(EndSet(ends, m), GoneSet(m - Names(ends)));
  }

  // ---------------------------------------------------------------- velocity

  /** The velocity: bytes per second, and 0 when no time has passed or time went back. */
  function Rate(growthBytes: int, duration: int): real {
    if duration > 0 then growthBytes as real / duration as real else 0.0
  }

  /** The fallback report for missing data. */
  function ZeroReport(agent: string): VelocityReport {
    VelocityReport(agent, 0, 0, 0, 0, 0, 0.0, [])
  }

  /** The report measured between the two chosen snapshots. */
  predicate Measured(r: VelocityReport, agent: string, s: AgentSnapshot, e: AgentSnapshot) {
    && r.agentId == agent
    && r.tStart == s.timestamp
    && r.tEnd == e.timestamp
    && r.durationSeconds == e.timestamp - s.timestamp
    && r.growthBytes == e.totalSizeBytes - s.totalSizeBytes
    && r.growthFiles == e.fileCount - s.fileCount
    && r.bytesPerSecond == Rate(r.growthBytes, r.durationSeconds)
    && multiset(r.extensionDeltas) == DeltaBag(s.topExtensions, e.topExtensions)
    && NonIncreasingBy(r.extensionDeltas, AbsSize)
  }

  /** The in-memory database of snapshots. */
  class SnapshotStore {
    var snapshots: seq<AgentSnapshot>

    constructor ()
      ensures snapshots == []
    {
      snapshots := [];
    }

    /** `ingest_snapshot`: the payload is appended unchanged, with no validation or deduplication. */
    method Ingest(payload: AgentSnapshot, storeFails: bool) returns (reply: IngestReply)
      modifies this
      ensures snapshots == if storeFails then old(snapshots) else old(snapshots) + [payload]
      ensures reply == if storeFails then StoreError else Stored
    {
      if storeFails {
        return StoreError;
      }
      snapshots := snapshots + [payload];
      return Stored;
    }

    /**
      `get_velocity`: both bounds are looked up; when either query fails or finds nothing
      the report is all zero, and otherwise it is measured between the two snapshots.
     */
    method GetVelocity(agent: string, range: TimeRange, startFails: bool, endFails: bool) returns (report: VelocityReport)
      ensures var s, e := LatestAtOrBefore(snapshots, agent, range.start), LatestAtOrBefore(snapshots, agent, range.end);
        if startFails || endFails || s.None? || e.None? then report == ZeroReport(agent)
        else Measured(report, agent, s.value, e.value)
    {
      var startSnap := if startFails then None else LatestAtOrBefore(snapshots, agent, range.start);
      var endSnap := if endFails then None else LatestAtOrBefore(snapshots, agent, range.end);
      if startSnap.None? || endSnap.None? {
        return ZeroReport(agent);
      }
      var s, e := startSnap.value, endSnap.value;
      var sizeDiff := e.totalSizeBytes - s.totalSizeBytes;
      var fileDiff := e.fileCount - s.fileCount;
      var duration := e.timestamp - s.timestamp;
      var deltas := ExtensionDeltas(s.topExtensions, e.topExtensions);
      var velocity := if duration > 0 then sizeDiff as real / duration as real else 0.0;
      report := VelocityReport(agent, s.timestamp, e.timestamp, duration, sizeDiff, fileDiff, velocity, deltas);
    }
  }

  /** Bounds in order give a duration that is not negative. */
  lemma OrderedBoundsForward(db: seq<AgentSnapshot>, agent: string, range: TimeRange, r: VelocityReport)
    requires range.start <= range.end
    requires LatestAtOrBefore(db, agent, range.start).Some?
    requires Measured(r, agent, LatestAtOrBefore(db, agent, range.start).value, LatestAtOrBefore(db, agent, range.end).value)
    ensures r.durationSeconds >= 0
  {
    LatestMonotone(db, agent, range.start, range.end);
  }

  /** Measuring a snapshot against itself shows no growth and, with distinct names, only zero deltas. */
  lemma SelfMeasureIsFlat(agent: string, s: AgentSnapshot, r: VelocityReport)
    requires Measured(r, agent, s, s) && DistinctNames(s.topExtensions)
    ensures r.durationSeconds == 0 && r.growthBytes == 0 && r.growthFiles == 0 && r.bytesPerSecond == 0.0
    ensures forall d :: d in r.extensionDeltas ==> d.sizeDelta == 0 && d.countDelta == 0
  {
    DeltasOncePerExtension(s.topExtensions, s.topExtensions);
    forall d | d in r.extensionDeltas ensures d.sizeDelta == 0 && d.countDelta == 0 {
      assert d in multiset(r.extensionDeltas);
      assert d in ExpectedSet(s.topExtensions, s.topExtensions);
    }
  }
}
