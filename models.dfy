/**
  The shared profile model of the scanner: a file record ordered by size in reverse
  (so that a max-heap keeps the largest files), the per-extension statistic and the
  result of one scan.
 */
module Models {
  import opened Options

  datatype Ordering = Less | Equal | Greater

  function Reverse(o: Ordering): Ordering {
    match o
    case Less => Greater
    case Equal => Equal
    case Greater => Less
  }

  /** The natural order of unsigned integers, `u64::cmp`. */
  function NatCmp(a: nat, b: nat): (o: Ordering)
    ensures o == Less <==> a < b
    ensures o == Equal <==> a == b
    ensures o == Greater <==> a > b
  {
    if a < b then Less else if a == b then Equal else Greater
  }

  datatype FileRecord = FileRecord(path: string, sizeBytes: nat)

  function Size(r: FileRecord): int {
    r.sizeBytes
  }

  /** `Ord::cmp` on file records: the comparison of the OTHER record's size with this one's. */
  function Cmp(a: FileRecord, b: FileRecord): (o: Ordering)
    ensures o == Less <==> a.sizeBytes > b.sizeBytes
    ensures o == Equal <==> a.sizeBytes == b.sizeBytes
    ensures o == Greater <==> a.sizeBytes < b.sizeBytes
  {
    NatCmp(b.sizeBytes, a.sizeBytes)
  }

  /** `PartialOrd::partial_cmp`, which never fails. */
  function PartialCmp(a: FileRecord, b: FileRecord): (o: Option<Ordering>)
    ensures o.Some?
    ensures o.value == Less <==> a.sizeBytes > b.sizeBytes
    ensures o.value == Greater <==> a.sizeBytes < b.sizeBytes
  {
    Some(Cmp(a, b))
  }

  lemma CmpAntisymmetric(a: FileRecord, b: FileRecord)
    ensures Cmp(a, b) == Reverse(Cmp(b, a))
  {
  }

  lemma CmpTransitive(a: FileRecord, b: FileRecord, c: FileRecord)
    ensures Cmp(a, b) != Greater && Cmp(b, c) != Greater ==> Cmp(a, c) != Greater
    ensures Cmp(a, b) == Less && Cmp(b, c) == Less ==> Cmp(a, c) == Less
  {
  }

  /** The order ignores the path while the derived equality compares it. */
  lemma CmpEqualIgnoresPath()
    ensures var a, b := FileRecord("a", 7), FileRecord("b", 7); Cmp(a, b) == Equal && a != b
    ensures forall a: FileRecord, b: FileRecord :: Cmp(a, b) == Equal <==> a.sizeBytes == b.sizeBytes
  {
  }

  datatype ExtensionStat = ExtensionStat(count: nat, size: nat)

  /** `ExtensionStat::default()`. */
  const DefaultStat := ExtensionStat(0, 0)

  /** `extensions.entry(ext).or_default()` followed by `count += 1` and `size += size`. */
  function AddToExtension(m: map<string, ExtensionStat>, ext: string, size: nat): (r: map<string, ExtensionStat>)
    ensures r.Keys == m.Keys + {ext}
    ensures ext !in m ==> r[ext] == ExtensionStat(1, size)
    ensures ext in m ==> r[ext] == ExtensionStat(m[ext].count + 1, m[ext].size + size)
    ensures forall e :: e in m && e != ext ==> r[e] == m[e]
  {
    var old_ := if ext in m then m[ext] else DefaultStat;
    m[ext := ExtensionStat(old_.count + 1, old_.size + size)]
  }

  /** Sum of the counts of every extension in the map. */
  ghost function CountSum(m: map<string, ExtensionStat>): nat
    decreases |m|
  {
    if m == map[] then 0
    else
      var e :| e in m;
      m[e].count + CountSum(m - {e})
  }

  /** The sum does not depend on which key is taken out first. */
  lemma {:induction false} CountSumRemove(m: map<string, ExtensionStat>, e: string)
    requires e in m
    ensures CountSum(m) == m[e].count + CountSum(m - {e})
    decreases |m|
  {
    var f :| f in m && CountSum(m) == m[f].count + CountSum(m - {f});
    if f != e {
      var m' := m - {f};
      assert e in m';
      CountSumRemove(m', e);
      var m'' := m - {e};
      assert f in m'';
      CountSumRemove(m'', f);
      assert m' - {e} == m'' - {f};
    }
  }

  lemma CountSumAdd(m: map<string, ExtensionStat>, ext: string, size: nat)
    ensures CountSum(AddToExtension(m, ext, size)) == CountSum(m) + 1
  {
    var r := AddToExtension(m, ext, size);
    CountSumRemove(r, ext);
    if ext in m {
      CountSumRemove(m, ext);
      assert r - {ext} == m - {ext};
    } else {
      assert r - {ext} == m;
    }
  }

  /** `ScanStats`: the result of one scan pass. */
  datatype ScanStats = ScanStats(
    rootPath: string,
    totalFiles: nat,
    totalFolders: nat,
    totalSizeBytes: nat,
    scanDurationMs: nat,
    extensions: map<string, ExtensionStat>,
    topFiles: seq<FileRecord>)
}
