/**
  The command-line agent around the core scanner: the conversion of the scan result
  into the agent's own records, the policies built from the server's reply, the
  extensions picked for the report and the upload, the governance pass over a second
  walk, the per-file risk analysis of the top files, and the ingest body it uploads.
 */
module Cli {
  import opened Options
  import opened Paths
  import opened Models
  import opened Fs
  import opened Sorting
  import opened TopK
  import opened Governance
  import opened Wire
  import Heuristics
  import Server

  // ---------------------------------------------------------------- conversions

  /** A file record with the analysis fields; `entropy` is kept as an exact number. */
  datatype AnalyzedFileRecord = AnalyzedFileRecord(
    path: string,
    sizeBytes: nat,
    entropy: Option<real>,
    riskLevel: Option<string>,
    semanticTag: Option<string>)

  /** `From<CoreFileRecord>`: path and size carried over, nothing analysed yet. */
  function FromCoreRecord(core: FileRecord): (a: AnalyzedFileRecord)
    ensures a.path == core.path && a.sizeBytes == core.sizeBytes
    ensures a.entropy.None? && a.riskLevel.None? && a.semanticTag.None?
  {
    AnalyzedFileRecord(core.path, core.sizeBytes, None, None, None)
  }

  /** The core record an analysed record was made from. */
  function CoreRecordOf(a: AnalyzedFileRecord): FileRecord {
    FileRecord(a.path, a.sizeBytes)
  }

  /** `into_iter().map(Into::into).collect()`. */
  function FromCoreRecords(rs: seq<FileRecord>): (r: seq<AnalyzedFileRecord>)
    ensures |r| == |rs|
    ensures forall i :: 0 <= i < |rs| ==> r[i] == FromCoreRecord(rs[i])
  {
    if rs == [] then [] else FromCoreRecords(rs[..|rs| - 1]) + [FromCoreRecord(rs[|rs| - 1])]
  }

  datatype CliScanStats = CliScanStats(
    rootPath: string,
    totalFiles: nat,
    totalFolders: nat,
    totalSizeBytes: nat,
    scanDurationMs: nat,
    extensions: map<string, ExtensionStat>,
    topFiles: seq<AnalyzedFileRecord>)

  /** `From<CoreScanStats>`: every scalar and the map copied, the top files converted in order. */
  function FromCoreStats(core: ScanStats): (s: CliScanStats)
    ensures s.rootPath == core.rootPath && s.totalFiles == core.totalFiles
    ensures s.totalFolders == core.totalFolders && s.totalSizeBytes == core.totalSizeBytes
    ensures s.scanDurationMs == core.scanDurationMs && s.extensions == core.extensions
    ensures |s.topFiles| == |core.topFiles|
    ensures forall i :: 0 <= i < |core.topFiles| ==> s.topFiles[i] == FromCoreRecord(core.topFiles[i])
  {
    CliScanStats(core.rootPath, core.totalFiles, core.totalFolders, core.totalSizeBytes,
      core.scanDurationMs, core.extensions, FromCoreRecords(core.topFiles))
  }

  /** Forgetting the analysis fields. */
  function CoreStatsOf(s: CliScanStats): ScanStats {
    ScanStats(s.rootPath, s.totalFiles, s.totalFolders, s.totalSizeBytes, s.scanDurationMs,
      s.extensions, seq(|s.topFiles|, i requires 0 <= i < |s.topFiles| => CoreRecordOf(s.topFiles[i])))
  }

  /** The conversion loses nothing of the core result. */
  lemma StatsRoundTrip(core: ScanStats)
    ensures CoreStatsOf(FromCoreStats(core)) == core
  {
    var back := CoreStatsOf(FromCoreStats(core)).topFiles;
    assert back == core.topFiles;
  }

  // ---------------------------------------------------------------- policies

  /** The rule every fetched policy gets: extension `log`, no size bound, 90 days. */
  const LogRule := Rule(Some("log"), None, Some(90))

  function LogPolicy(name: string): Policy {
    Policy(name, LogRule, Report)
  }

  /** The closure of `filter_map`: a policy for an entry whose `name` is a string. */
  function PolicyOf(v: Json): (r: Option<Policy>)
    ensures r.Some? <==> v.JObj? && "name" in v.fields && v.fields["name"].JStr?
    ensures r.Some? ==> r.value == LogPolicy(v.fields["name"].s)
  {
    match Get(v, "name")
    case None => None
    case Some(n) =>
      match AsStr(n)
      case None => None
      case Some(name) => Some(LogPolicy(name))
  }

  /** `filter_map(...).collect()` over the array of the server's reply. */
  function ParsePolicies(vs: seq<Json>): (ps: seq<Policy>)
    ensures |ps| <= |vs|
    ensures forall i :: 0 <= i < |ps| ==> ps[i].rule == LogRule && ps[i].action == Report
  {
    if vs == [] then []
    else
      var init := ParsePolicies(vs[..|vs| - 1]);
      match PolicyOf(vs[|vs| - 1])
      case Some(p) => init + [p]
      case None => init
  }

  /** The mapping works entry by entry. */
  lemma {:induction false} ParsePoliciesAppend(a: seq<Json>, b: seq<Json>)
    ensures ParsePolicies(a + b) == ParsePolicies(a) + ParsePolicies(b)
    decreases |b|
  {
    if b == [] {
      assert a + b == a;
    } else {
      ParsePoliciesAppend(a, b[..|b| - 1]);
      assert (a + b)[..|a + b| - 1] == a + b[..|b| - 1];
    }
  }

  /** An entry without a string name is dropped and the others keep their order. */
  lemma UnnamedEntryDropped(a: seq<Json>, v: Json, b: seq<Json>)
    requires PolicyOf(v).None?
    ensures ParsePolicies(a + [v] + b) == ParsePolicies(a + b)
  {
    ParsePoliciesAppend(a + [v], b);
    ParsePoliciesAppend(a, [v]);
    ParsePoliciesAppend(a, b);
    assert ParsePolicies([v]) == [];
  }

  /** The reply objects `{"name": n}`, one per name. */
  function NameObjects(names: seq<string>): (vs: seq<Json>)
    ensures |vs| == |names|
  {
    if names == [] then []
    else NameObjects(names[..|names| - 1]) + [JObj(map["name" := JStr(names[|names| - 1])])]
  }

  /** A reply of named objects gives one policy per name, in order. */
  lemma {:induction false} ParseNameObjects(names: seq<string>)
    ensures |ParsePolicies(NameObjects(names))| == |names|
    ensures forall i :: 0 <= i < |names| ==> ParsePolicies(NameObjects(names))[i] == LogPolicy(names[i])
  {
    if names != [] {
      var init := names[..|names| - 1];
      ParseNameObjects(init);
      assert NameObjects(names)[..|names| - 1] == NameObjects(init);
    }
  }

  /** How the policy request ends. */
  datatype PolicyReply = RequestFailed | BodyNotArray | Body(values: seq<Json>)

  /** `fetch_policies`: a failed request or an unreadable body gives no policies. */
  function FetchPolicies(reply: PolicyReply): (ps: seq<Policy>)
    ensures !reply.Body? ==> ps == []
    ensures reply.Body? ==> ps == ParsePolicies(reply.values)
  {
    match reply
    case Body(vs) => ParsePolicies(vs)
    case _ => []
  }

  // ---------------------------------------------------------------- top extensions

  type ExtensionEntry = (string, ExtensionStat)

  function StatSize(e: ExtensionEntry): int {
    e.1.size
  }

  /** No extension name occurs twice. */
  predicate DistinctKeys(es: seq<ExtensionEntry>) {
    forall i, j :: 0 <= i < j < |es| ==> es[i].0 != es[j].0
  }

  /** Every entry is an entry of the map. */
  predicate FromMap(m: map<string, ExtensionStat>, es: seq<ExtensionEntry>) {
    forall i :: 0 <= i < |es| ==> es[i].0 in m && m[es[i].0] == es[i].1
  }

  /** Every entry of the map is listed. */
  predicate Covers(m: map<string, ExtensionStat>, es: seq<ExtensionEntry>) {
    forall k :: k in m ==> (k, m[k]) in es
  }

  /** No extension of the map left out of `top` is larger than one kept. */
  predicate KeepsLargest(m: map<string, ExtensionStat>, top: seq<ExtensionEntry>) {
    forall k, i :: k in m && 0 <= i < |top| && (forall j :: 0 <= j < |top| ==> top[j].0 != k) ==>
      m[k].size <= top[i].1.size
  }

  /** `extensions.iter().collect()`: the map's entries, each once, in the map's own order. */
  method MapEntries(m: map<string, ExtensionStat>) returns (es: seq<ExtensionEntry>)
    ensures |es| == |m| && FromMap(m, es) && DistinctKeys(es) && Covers(m, es)
  {
    var rest := m;
    es := [];
    while rest != map[]
      invariant |es| + |rest| == |m|
      invariant forall k :: k in rest ==> k in m && rest[k] == m[k]
      invariant FromMap(m, es) && DistinctKeys(es)
      invariant forall i :: 0 <= i < |es| ==> es[i].0 !in rest
      invariant forall k :: k in m && k !in rest ==> (k, m[k]) in es
      decreases |rest|
    {
      var k :| k in rest;
      es := es + [(k, rest[k])];
      assert |rest.Keys - {k}| == |rest.Keys| - 1;
      rest := rest - {k};
    }
  }

  /** A multiset of entries picked from the map, without repeated names, holds each entry at most once. */
  lemma {:induction false} DistinctOnce(es: seq<ExtensionEntry>, x: ExtensionEntry)
    requires DistinctKeys(es)
    ensures multiset(es)[x] <= 1
  {
    if es != [] {
      var init := es[..|es| - 1];
      DistinctOnce(init, x);
      assert es == init + [es[|es| - 1]];
    }
  }

  /** Two positions holding the same entry count twice. */
  lemma TwiceCounted(es: seq<ExtensionEntry>, i: nat, j: nat)
    requires i < j < |es| && es[i] == es[j]
    ensures multiset(es)[es[i]] >= 2
  {
    assert es == es[..j] + [es[j]] + es[j + 1..];
    assert es[i] in es[..j];
  }

  /** A reordering of the map's entries has no repeated names either. */
  lemma PermutedDistinct(m: map<string, ExtensionStat>, es: seq<ExtensionEntry>, sorted: seq<ExtensionEntry>)
    requires FromMap(m, es) && DistinctKeys(es) && multiset(sorted) == multiset(es)
    ensures FromMap(m, sorted) && DistinctKeys(sorted)
  {
    forall i | 0 <= i < |sorted| ensures sorted[i].0 in m && m[sorted[i].0] == sorted[i].1 {
      assert sorted[i] in multiset(es);
      var j :| 0 <= j < |es| && es[j] == sorted[i];
    }
    forall i, j | 0 <= i < j < |sorted| ensures sorted[i].0 != sorted[j].0 {
      if sorted[i].0 == sorted[j].0 {
        TwiceCounted(sorted, i, j);
        DistinctOnce(es, sorted[i]);
      }
    }
  }

  /**
    The largest `n` extensions by size, as the upload (`take(10)`) and the report
    (`take(5)`) pick them: the map's entries sorted by size, largest first and with ties
    in the map's order, then cut after `n`. An extension left out is no larger than any
    kept.
   */
  method TopExtensions(m: map<string, ExtensionStat>, n: nat) returns (top: seq<ExtensionEntry>)
    ensures |top| == Min(n, |m|)
    ensures FromMap(m, top) && DistinctKeys(top)
    ensures NonIncreasingBy(top, StatSize)
    ensures KeepsLargest(m, top)
  {
    var es := MapEntries(m);
    top := SortDescBy(es, StatSize)[..Min(n, |es|)];
    TopOfListing(m, es, n);
  }

  /** The cut of the sorted listing keeps the map's entries, in order, and the largest ones. */
  lemma TopOfListing(m: map<string, ExtensionStat>, es: seq<ExtensionEntry>, n: nat)
    requires FromMap(m, es) && DistinctKeys(es) && Covers(m, es)
    ensures var top := SortDescBy(es, StatSize)[..Min(n, |es|)];
      && FromMap(m, top) && DistinctKeys(top)
      && NonIncreasingBy(top, StatSize)
      && KeepsLargest(m, top)
  {
    var sorted := SortDescBy(es, StatSize);
    SortDescByPermutes(es, StatSize);
    SortDescBySorted(es, StatSize);
    PermutedDistinct(m, es, sorted);
    PermutedCovers(m, es, sorted);
    LeftOutNoLarger(m, sorted, Min(n, |es|));
    PrefixOfListing(m, sorted, Min(n, |es|));
  }

  /** A prefix of a sorted listing of the map is one too. */
  lemma PrefixOfListing(m: map<string, ExtensionStat>, sorted: seq<ExtensionEntry>, cut: nat)
    requires FromMap(m, sorted) && DistinctKeys(sorted) && NonIncreasingBy(sorted, StatSize) && cut <= |sorted|
    ensures FromMap(m, sorted[..cut]) && DistinctKeys(sorted[..cut]) && NonIncreasingBy(sorted[..cut], StatSize)
  {
  }

  lemma PermutedCovers(m: map<string, ExtensionStat>, es: seq<ExtensionEntry>, sorted: seq<ExtensionEntry>)
    requires Covers(m, es) && multiset(sorted) == multiset(es)
    ensures Covers(m, sorted)
  {
    forall k | k in m ensures (k, m[k]) in sorted {
      assert (k, m[k]) in multiset(es);
    }
  }

  /** An entry of the map missing from a prefix of the sorted listing is no larger than those in it. */
  lemma LeftOutNoLarger(m: map<string, ExtensionStat>, sorted: seq<ExtensionEntry>, cut: nat)
    requires Covers(m, sorted) && NonIncreasingBy(sorted, StatSize) && cut <= |sorted|
    ensures var top := sorted[..cut];
      KeepsLargest(m, top)
  {
    var top := sorted[..cut];
    forall k, i | k in m && 0 <= i < |top| && (forall j :: 0 <= j < |top| ==> top[j].0 != k)
      ensures m[k].size <= top[i].1.size
    {
      var j :| 0 <= j < |sorted| && sorted[j] == (k, m[k]);
      assert StatSize(sorted[j]) <= StatSize(sorted[i]);
    }
  }

  // ---------------------------------------------------------------- upload

  /** The pair the upload sends for an extension: `(ext, size)`. */
  function PairJson(e: ExtensionEntry): Json {
    JArr([JStr(e.0), JNum(e.1.size)])
  }

  /** The triple the server expects for an extension: `(ext, size, count)`. */
  function TripleJson(e: ExtensionEntry): Json {
    JArr([JStr(e.0), JNum(e.1.size), JNum(e.1.count)])
  }

  function PairsJson(top: seq<ExtensionEntry>): (vs: seq<Json>)
    ensures |vs| == |top| && forall i :: 0 <= i < |top| ==> vs[i] == PairJson(top[i])
  {
    if top == [] then [] else PairsJson(top[..|top| - 1]) + [PairJson(top[|top| - 1])]
  }

  function TriplesJson(top: seq<ExtensionEntry>): (vs: seq<Json>)
    ensures |vs| == |top| && forall i :: 0 <= i < |top| ==> vs[i] == TripleJson(top[i])
  {
    if top == [] then [] else TriplesJson(top[..|top| - 1]) + [TripleJson(top[|top| - 1])]
  }

  /** The snapshot object with a given `top_extensions` array. */
  function SnapshotJson(stats: CliScanStats, agentId: string, timestamp: int, hostname: string, exts: seq<Json>): Json {
    JObj(map[
      "agent_id" := JStr(agentId),
      "timestamp" := JNum(timestamp),
      "hostname" := JStr(hostname),
      "total_size_bytes" := JNum(stats.totalSizeBytes),
      "file_count" := JNum(stats.totalFiles),
      "top_extensions" := JArr(exts)])
  }

  /** The six fields of the snapshot object. */
  lemma SnapshotFields(stats: CliScanStats, agentId: string, timestamp: int, hostname: string, exts: seq<Json>)
    ensures var v := SnapshotJson(stats, agentId, timestamp, hostname, exts);
      && Get(v, "agent_id") == Some(JStr(agentId))
      && Get(v, "timestamp") == Some(JNum(timestamp))
      && Get(v, "hostname") == Some(JStr(hostname))
      && Get(v, "total_size_bytes") == Some(JNum(stats.totalSizeBytes))
      && Get(v, "file_count") == Some(JNum(stats.totalFiles))
      && Get(v, "top_extensions") == Some(JArr(exts))
  {
  }

  /** The body `upload_snapshot` builds, with `(ext, size)` pairs; the clock and host name are inputs. */
  function UploadBodyAsWritten(stats: CliScanStats, top: seq<ExtensionEntry>, agentId: string, timestamp: int, hostname: string): (v: Json)
    ensures Get(v, "agent_id") == Some(JStr(agentId)) && Get(v, "timestamp") == Some(JNum(timestamp))
    ensures Get(v, "hostname") == Some(JStr(hostname))
    ensures Get(v, "total_size_bytes") == Some(JNum(stats.totalSizeBytes)) && Get(v, "file_count") == Some(JNum(stats.totalFiles))
    ensures v.JObj? && "top_extensions" in v.fields && v.fields["top_extensions"].JArr?
    ensures var items := v.fields["top_extensions"].items;
      |items| == |top| && forall i :: 0 <= i < |top| ==>
        items[i] == JArr([JStr(top[i].0), JNum(top[i].1.size)])
  {
    SnapshotFields(stats, agentId, timestamp, hostname, PairsJson(top));
    SnapshotJson(stats, agentId, timestamp, hostname, PairsJson(top))
  }

  /** The body with the `(ext, size, count)` triples the server's snapshot declares. */
  function UploadBody(stats: CliScanStats, top: seq<ExtensionEntry>, agentId: string, timestamp: int, hostname: string): (v: Json)
    ensures Get(v, "agent_id") == Some(JStr(agentId)) && Get(v, "timestamp") == Some(JNum(timestamp))
    ensures Get(v, "hostname") == Some(JStr(hostname))
    ensures Get(v, "total_size_bytes") == Some(JNum(stats.totalSizeBytes)) && Get(v, "file_count") == Some(JNum(stats.totalFiles))
    ensures v.JObj? && "top_extensions" in v.fields && v.fields["top_extensions"].JArr?
    ensures var items := v.fields["top_extensions"].items;
      |items| == |top| && forall i :: 0 <= i < |top| ==>
        items[i] == JArr([JStr(top[i].0), JNum(top[i].1.size), JNum(top[i].1.count)])
  {
    SnapshotFields(stats, agentId, timestamp, hostname, TriplesJson(top));
    SnapshotJson(stats, agentId, timestamp, hostname, TriplesJson(top))
  }

  /** The server's view of the uploaded extensions. */
  function Totals(top: seq<ExtensionEntry>): (r: seq<Server.ExtensionTotal>)
    ensures |r| == |top|
    ensures forall i :: 0 <= i < |top| ==> r[i] == Server.ExtensionTotal(top[i].0, top[i].1.size, top[i].1.count)
  {
    if top == [] then [] else Totals(top[..|top| - 1]) + [Server.ExtensionTotal(top[|top| - 1].0, top[|top| - 1].1.size, top[|top| - 1].1.count)]
  }

  /** As written, the server refuses every upload that lists an extension: a pair is not a triple. */
  lemma PairsRefused(stats: CliScanStats, top: seq<ExtensionEntry>, agentId: string, timestamp: int, hostname: string)
    requires top != []
    ensures DecodeSnapshot(UploadBodyAsWritten(stats, top, agentId, timestamp, hostname)) == None
  {
    var exts := PairsJson(top);
    SnapshotFields(stats, agentId, timestamp, hostname, exts);
    assert DecodeTriple(exts[0]) == None;
  }

  /** A scan with one `txt` extension already produces a refused upload. */
  lemma OneExtensionRefused(stats: CliScanStats)
    ensures DecodeSnapshot(UploadBodyAsWritten(stats, [("txt", ExtensionStat(1, 12))], "agent_1", 1, "host")) == None
  {
    PairsRefused(stats, [("txt", ExtensionStat(1, 12))], "agent_1", 1, "host");
  }

  /** With triples, the server decodes exactly the snapshot the agent described. */
  lemma TriplesDecode(stats: CliScanStats, top: seq<ExtensionEntry>, agentId: string, timestamp: int, hostname: string)
    ensures DecodeSnapshot(UploadBody(stats, top, agentId, timestamp, hostname)) ==
      Some(Server.AgentSnapshot(agentId, timestamp, hostname, stats.totalSizeBytes, stats.totalFiles, Totals(top)))
  {
    SnapshotFields(stats, agentId, timestamp, hostname, TriplesJson(top));
    TriplesRoundTrip(top);
  }

  /** Each triple decodes to the entry it encodes. */
  lemma TriplesRoundTrip(top: seq<ExtensionEntry>)
    ensures DecodeTriples(TriplesJson(top)) == Some(Totals(top))
  {
    var exts := TriplesJson(top);
    assert DecodeTriples(exts).Some?;
    assert DecodeTriples(exts).value == Totals(top);
  }

  /** `upload_snapshot`'s payload: the ten largest extensions, as triples. */
  method UploadSnapshot(stats: CliScanStats, agentId: string, timestamp: int, hostname: string) returns (body: Json)
    ensures exists top: seq<ExtensionEntry> ::
      && |top| == Min(10, |stats.extensions|) && FromMap(stats.extensions, top) && DistinctKeys(top)
      && NonIncreasingBy(top, StatSize) && KeepsLargest(stats.extensions, top)
      && DecodeSnapshot(body) == Some(Server.AgentSnapshot(agentId, timestamp, hostname, stats.totalSizeBytes, stats.totalFiles, Totals(top)))
  {
    var top := TopExtensions(stats.extensions, 10);
    body := UploadBody(stats, top, agentId, timestamp, hostname);
    TriplesDecode(stats, top, agentId, timestamp, hostname);
  }

  /** The extensions `print_human_report` lists: the five largest. */
  method ReportExtensions(stats: CliScanStats) returns (listed: seq<ExtensionEntry>)
    ensures |listed| == Min(5, |stats.extensions|)
    ensures FromMap(stats.extensions, listed) && DistinctKeys(listed) && NonIncreasingBy(listed, StatSize)
    ensures KeepsLargest(stats.extensions, listed)
  {
    listed := TopExtensions(stats.extensions, 5);
  }

  // ---------------------------------------------------------------- governance pass

  /** The policies that match one file, in list order. */
  function MatchingPolicies(path: Path, meta: Metadata, policies: seq<Policy>): (r: seq<Policy>)
    ensures forall p :: p in r <==> p in policies && Evaluate(p, path, meta)
  {
    if policies == [] then []
    else
      var init := MatchingPolicies(path, meta, policies[..|policies| - 1]);
      var p := policies[|policies| - 1];
      assert policies == policies[..|policies| - 1] + [p];
      if Evaluate(p, path, meta) then init + [p] else init
  }

  /** The `(path, policy)` pairs of one entry: a readable regular file with each matching policy. */
  function EntryPairs(e: DirEntry, policies: seq<Policy>): seq<(Path, Policy)> {
    match e.metadata
    case Some(meta) =>
      if meta.fileType == RegularFile then
        Pairs(e.path, MatchingPolicies(e.path, meta, policies))
      else []
    case None => []
  }

  /** The pairs `execute` is called for, in walk order and, per file, in policy order. */
  function GovernancePairs(entries: seq<DirEntry>, policies: seq<Policy>): seq<(Path, Policy)> {
    if entries == [] then []
    else GovernancePairs(entries[..|entries| - 1], policies) + EntryPairs(entries[|entries| - 1], policies)
  }

  /** The entry is the regular file `path`, its metadata was read, and `p` is a policy that matches it. */
  predicate Acts(e: DirEntry, policies: seq<Policy>, path: Path, p: Policy) {
    e.path == path && e.metadata.Some? && e.metadata.value.fileType == RegularFile && p in policies
      && Evaluate(p, path, e.metadata.value)
  }

  /** A pair is acted on exactly when the walk has that file and the policy matches it. */
  lemma {:induction false} GovernancePairsExact(entries: seq<DirEntry>, policies: seq<Policy>, path: Path, p: Policy)
    ensures (path, p) in GovernancePairs(entries, policies) <==>
      exists i :: 0 <= i < |entries| && Acts(entries[i], policies, path, p)
  {
    if entries != [] {
      var init, e := entries[..|entries| - 1], entries[|entries| - 1];
      GovernancePairsExact(init, policies, path, p);
      EntryPairsExact(e, policies, path, p);
      ActsSplit(entries, init, policies, path, p);
      assert GovernancePairs(entries, policies) == GovernancePairs(init, policies) + EntryPairs(e, policies);
    }
  }

  /** Some entry of the walk acts exactly when one before the last does or the last does. */
  lemma ActsSplit(entries: seq<DirEntry>, init: seq<DirEntry>, policies: seq<Policy>, path: Path, p: Policy)
    requires entries != [] && init == entries[..|entries| - 1]
    ensures (exists i :: 0 <= i < |entries| && Acts(entries[i], policies, path, p)) <==>
      (exists i :: 0 <= i < |init| && Acts(init[i], policies, path, p))
      || Acts(entries[|entries| - 1], policies, path, p)
  {
    if exists i :: 0 <= i < |init| && Acts(init[i], policies, path, p) {
      var i :| 0 <= i < |init| && Acts(init[i], policies, path, p);
      assert entries[i] == init[i];
    }
    if exists i :: 0 <= i < |entries| && Acts(entries[i], policies, path, p) {
      var i :| 0 <= i < |entries| && Acts(entries[i], policies, path, p);
      if i < |init| {
        assert init[i] == entries[i];
      }
    }
  }

  /** The pairs of one entry are its path with each policy that matches it. */
  lemma EntryPairsExact(e: DirEntry, policies: seq<Policy>, path: Path, p: Policy)
    ensures (path, p) in EntryPairs(e, policies) <==> Acts(e, policies, path, p)
  {
    if (path, p) in EntryPairs(e, policies) {
      var k :| 0 <= k < |EntryPairs(e, policies)| && EntryPairs(e, policies)[k] == (path, p);
      assert p in MatchingPolicies(e.path, e.metadata.value, policies);
    }
    if Acts(e, policies, path, p) {
      var ps := MatchingPolicies(e.path, e.metadata.value, policies);
      var k :| 0 <= k < |ps| && ps[k] == p;
      assert EntryPairs(e, policies)[k] == (path, p);
    }
  }

  /** No policies, no pairs. */
  lemma {:induction false} NoPoliciesNoPairs(entries: seq<DirEntry>)
    ensures GovernancePairs(entries, []) == []
  {
    if entries != [] {
      NoPoliciesNoPairs(entries[..|entries| - 1]);
    }
  }

  /** The outcomes and the files left after executing the pairs in order. */
  function Replay(pairs: seq<(Path, Policy)>, dryRun: bool, files: set<Path>, protected: set<Path>): (r: (seq<Outcome>, set<Path>))
    ensures |r.0| == |pairs|
  {
    if pairs == [] then ([], files)
    else
      var (outcomes, left) := Replay(pairs[..|pairs| - 1], dryRun, files, protected);
      var (path, p) := pairs[|pairs| - 1];
      (outcomes + [ExpectedOutcome(p, dryRun, path in left && path !in protected)],
       if !dryRun && p.action.Delete? then left - ({path} - protected) else left)
  }

  /** The paths of the pairs whose action is `Delete`. */
  function DeleteTargets(pairs: seq<(Path, Policy)>): set<Path> {
    set i | 0 <= i < |pairs| && pairs[i].1.action.Delete? :: pairs[i].0
  }

  /** Without `--enforce` nothing is removed and every outcome only says what would be done. */
  lemma {:induction false} DryRunChangesNothing(pairs: seq<(Path, Policy)>, files: set<Path>, protected: set<Path>)
    ensures Replay(pairs, true, files, protected).1 == files
    ensures forall i :: 0 <= i < |pairs| ==> Replay(pairs, true, files, protected).0[i] == WouldExecute(pairs[i].1.action)
  {
    if pairs != [] {
      DryRunChangesNothing(pairs[..|pairs| - 1], files, protected);
    }
  }

  /** With `--enforce` exactly the unprotected targets of `Delete` policies are removed. */
  lemma {:induction false} EnforcedRemovesTargets(pairs: seq<(Path, Policy)>, files: set<Path>, protected: set<Path>)
    ensures Replay(pairs, false, files, protected).1 == files - (DeleteTargets(pairs) - protected)
  {
    if pairs != [] {
      var init := pairs[..|pairs| - 1];
      EnforcedRemovesTargets(init, files, protected);
      var last := pairs[|pairs| - 1];
      if last.1.action.Delete? {
        assert DeleteTargets(pairs) == DeleteTargets(init) + {last.0};
      } else {
        assert DeleteTargets(pairs) == DeleteTargets(init);
      }
    }
  }

  lemma EntryStep(entries: seq<DirEntry>, policies: seq<Policy>, i: nat)
    requires i < |entries|
    ensures GovernancePairs(entries[..i + 1], policies) == GovernancePairs(entries[..i], policies) + EntryPairs(entries[i], policies)
  {
    assert entries[..i + 1][..i] == entries[..i];
  }

  lemma PolicyStep(path: Path, meta: Metadata, policies: seq<Policy>, j: nat)
    requires j < |policies|
    ensures MatchingPolicies(path, meta, policies[..j + 1]) ==
      MatchingPolicies(path, meta, policies[..j]) + if Evaluate(policies[j], path, meta) then [policies[j]] else []
  {
    assert policies[..j + 1][..j] == policies[..j];
  }

  lemma ReplayStep(pairs: seq<(Path, Policy)>, x: (Path, Policy), dryRun: bool, files: set<Path>, protected: set<Path>)
    ensures var (outcomes, left) := Replay(pairs, dryRun, files, protected);
      Replay(pairs + [x], dryRun, files, protected) ==
        (outcomes + [ExpectedOutcome(x.1, dryRun, x.0 in left && x.0 !in protected)],
         if !dryRun && x.1.action.Delete? then left - ({x.0} - protected) else left)
  {
    assert (pairs + [x])[..|pairs|] == pairs;
  }

  function Pairs(path: Path, ps: seq<Policy>): (r: seq<(Path, Policy)>)
    ensures |r| == |ps| && forall i :: 0 <= i < |ps| ==> r[i] == (path, ps[i])
  {
    seq(|ps|, i requires 0 <= i < |ps| => (path, ps[i]))
  }

  /** Executing a run of pairs after another continues from the files the first run left. */
  lemma {:induction false} ReplayAppend(a: seq<(Path, Policy)>, b: seq<(Path, Policy)>, dryRun: bool, files: set<Path>, protected: set<Path>)
    ensures var (oa, fa) := Replay(a, dryRun, files, protected);
      var (ob, fb) := Replay(b, dryRun, fa, protected);
      Replay(a + b, dryRun, files, protected) == (oa + ob, fb)
    decreases |b|
  {
    var (oa, fa) := Replay(a, dryRun, files, protected);
    if b == [] {
      assert a + b == a;
      assert oa + [] == oa;
    } else {
      var init := b[..|b| - 1];
      ReplayAppend(a, init, dryRun, files, protected);
      assert (a + b)[..|a + b| - 1] == a + init;
      assert (a + b)[|a + b| - 1] == b[|b| - 1];
      var (oi, fi) := Replay(init, dryRun, fa, protected);
      var (path, p) := b[|b| - 1];
      var o := ExpectedOutcome(p, dryRun, path in fi && path !in protected);
      var left := if !dryRun && p.action.Delete? then fi - ({path} - protected) else fi;
      assert Replay(b, dryRun, fa, protected) == (oi + [o], left);
      assert Replay(a + b, dryRun, files, protected) == ((oa + oi) + [o], left);
      assert (oa + oi) + [o] == oa + (oi + [o]);
    }
  }

  /** The inner loop of the pass: each policy in order, executed when it matches the file. */
  method ExecuteMatching(policies: seq<Policy>, path: Path, meta: Metadata, fs: FileSystem, dryRun: bool) returns (outcomes: seq<Outcome>)
    modifies fs
    ensures fs.protected == old(fs.protected)
    ensures (outcomes, fs.files) == Replay(Pairs(path, MatchingPolicies(path, meta, policies)), dryRun, old(fs.files), fs.protected)
  {
    outcomes := [];
    var j := 0;
    assert policies[..0] == [];
    while j < |policies|
      invariant 0 <= j <= |policies|
      invariant fs.protected == old(fs.protected)
      invariant (outcomes, fs.files) == Replay(Pairs(path, MatchingPolicies(path, meta, policies[..j])), dryRun, old(fs.files), fs.protected)
    {
      PolicyStep(path, meta, policies, j);
      ghost var done := Pairs(path, MatchingPolicies(path, meta, policies[..j]));
      if Evaluate(policies[j], path, meta) {
        ReplayStep(done, (path, policies[j]), dryRun, old(fs.files), fs.protected);
        var o := Execute(policies[j], fs, path, dryRun);
        outcomes := outcomes + [o];
        assert done + [(path, policies[j])] == Pairs(path, MatchingPolicies(path, meta, policies[..j + 1]));
      } else {
        assert MatchingPolicies(path, meta, policies[..j + 1]) == MatchingPolicies(path, meta, policies[..j]);
      }
      j := j + 1;
    }
    assert policies[..j] == policies;
  }

  /** The pass after `i + 1` entries continues the pass after `i` with the pairs of entry `i`. */
  lemma PassStep(entries: seq<DirEntry>, policies: seq<Policy>, i: nat, dryRun: bool, files: set<Path>, protected: set<Path>,
                 outcomes: seq<Outcome>, mid: set<Path>, os: seq<Outcome>, left: set<Path>)
    requires i < |entries|
    requires Replay(GovernancePairs(entries[..i], policies), dryRun, files, protected) == (outcomes, mid)
    requires Replay(EntryPairs(entries[i], policies), dryRun, mid, protected) == (os, left)
    ensures Replay(GovernancePairs(entries[..i + 1], policies), dryRun, files, protected) == (outcomes + os, left)
  {
    EntryStep(entries, policies, i);
    ReplayAppend(GovernancePairs(entries[..i], policies), EntryPairs(entries[i], policies), dryRun, files, protected);
  }

  /** One entry of the pass: a readable regular file is offered to every policy in order; anything else is passed over. */
  method GovernEntry(policies: seq<Policy>, e: DirEntry, fs: FileSystem, dryRun: bool) returns (outcomes: seq<Outcome>)
    modifies fs
    ensures fs.protected == old(fs.protected)
    ensures (outcomes, fs.files) == Replay(EntryPairs(e, policies), dryRun, old(fs.files), fs.protected)
  {
    match e.metadata {
      case None =>
        outcomes := [];
      case Some(meta) =>
        if meta.fileType == RegularFile {
          outcomes := ExecuteMatching(policies, e.path, meta, fs, dryRun);
        } else {
          outcomes := [];
        }
    }
  }

  /**
    The governance pass of `main`: skipped without policies; otherwise, for every
    readable regular file of the walk and every policy in order, a matching policy is
    executed, as a dry run unless `enforce` is set.
   */
  method GovernancePass(policies: seq<Policy>, walk: seq<WalkItem>, fs: FileSystem, enforce: bool) returns (outcomes: seq<Outcome>)
    modifies fs
    ensures fs.protected == old(fs.protected)
    ensures (outcomes, fs.files) == Replay(GovernancePairs(Flatten(walk), policies), !enforce, old(fs.files), fs.protected)
  {
    outcomes := [];
    var entries := Flatten(walk);
    if policies == [] {
      NoPoliciesNoPairs(entries);
      assert Replay([], !enforce, fs.files, fs.protected) == ([], fs.files);
      return;
    }
    var i := 0;
    assert entries[..0] == [];
    while i < |entries|
      invariant 0 <= i <= |entries|
      invariant fs.protected == old(fs.protected)
      invariant (outcomes, fs.files) == Replay(GovernancePairs(entries[..i], policies), !enforce, old(fs.files), fs.protected)
    {
      ghost var mid := fs.files;
      var os := GovernEntry(policies, entries[i], fs, !enforce);
      PassStep(entries, policies, i, !enforce, old(fs.files), fs.protected, outcomes, mid, os, fs.files);
      outcomes := outcomes + os;
      i := i + 1;
    }
    assert entries[..i] == entries;
  }

  // ---------------------------------------------------------------- analysis

  /**
    One top file after analysis: the entropy when it could be computed, and the risk
    label when the heuristics give a level other than `None`. The semantic tag is not
    part of this model.
   */
  function Analyzed(r: AnalyzedFileRecord, entropy: Option<real>): AnalyzedFileRecord {
    Labelled(r, entropy, Heuristics.AnalyzeFilenameRisk(r.path))
  }

  /** The record with a computed entropy and risk level filled in. */
  function Labelled(r: AnalyzedFileRecord, entropy: Option<real>, risk: Heuristics.RiskLevel): AnalyzedFileRecord {
    var withEntropy := if entropy.Some? then r.(entropy := entropy) else r;
    if risk != Heuristics.None then withEntropy.(riskLevel := Some(Heuristics.AsStr(risk))) else withEntropy
  }

  /** Analysis keeps the file's identity and labels it with its heuristic level, and nothing for `None`. */
  lemma AnalyzedLabels(core: FileRecord, entropy: Option<real>)
    ensures var a := Analyzed(FromCoreRecord(core), entropy);
      && CoreRecordOf(a) == core
      && a.entropy == entropy
      && (a.riskLevel.None? <==> Heuristics.AnalyzeFilenameRisk(core.path) == Heuristics.None)
      && (forall l: Heuristics.RiskLevel :: a.riskLevel == Some(Heuristics.AsStr(l)) <==>
            l != Heuristics.None && l == Heuristics.AnalyzeFilenameRisk(core.path))
  {
    forall l: Heuristics.RiskLevel
      ensures Analyzed(FromCoreRecord(core), entropy).riskLevel == Some(Heuristics.AsStr(l)) <==>
        l != Heuristics.None && l == Heuristics.AnalyzeFilenameRisk(core.path)
    {
      Heuristics.AsStrInjective(l, Heuristics.AnalyzeFilenameRisk(core.path));
    }
  }

  /** Analysing twice with the same entropy gives the same record. */
  lemma AnalyzedIdempotent(r: AnalyzedFileRecord, entropy: Option<real>)
    ensures Analyzed(Analyzed(r, entropy), entropy) == Analyzed(r, entropy)
  {
  }

  /**
    The analysis loop `for file_record in &mut stats.top_files`, with the entropy of a
    path an input and `classify` the risk classifier.
   */
  method LabelTopFiles(files: array<AnalyzedFileRecord>, entropyOf: Path -> Option<real>, classify: Path -> Heuristics.RiskLevel)
    modifies files
    ensures forall i :: 0 <= i < files.Length ==>
      files[i] == Labelled(old(files[i]), entropyOf(old(files[i]).path), classify(old(files[i]).path))
  {
    var i := 0;
    while i < files.Length
      invariant 0 <= i <= files.Length
      invariant forall k :: 0 <= k < i ==>
        files[k] == Labelled(old(files[k]), entropyOf(old(files[k]).path), classify(old(files[k]).path))
      invariant forall k :: i <= k < files.Length ==> files[k] == old(files[k])
    {
      var record := files[i];
      var ent := entropyOf(record.path);
      if ent.Some? {
        record := record.(entropy := ent);
      }
      var risk := classify(record.path);
      if risk != Heuristics.None {
        record := record.(riskLevel := Some(Heuristics.AsStr(risk)));
      }
      files[i] := record;
      i := i + 1;
    }
  }

  /** The analysis of the top files, with the filename heuristics as the classifier. */
  method AnalyzeTopFiles(files: array<AnalyzedFileRecord>, entropyOf: Path -> Option<real>)
    modifies files
    ensures forall i :: 0 <= i < files.Length ==> files[i] == Analyzed(old(files[i]), entropyOf(old(files[i]).path))
  {
    LabelTopFiles(files, entropyOf, Heuristics.AnalyzeFilenameRisk);
  }
}
