/**
  What one scan pass must produce from the entries of a directory walk, stated as
  functions of the entries: the readable regular files with their sizes, the folder
  count, the per-extension statistics and the top-K selection of the files.
 */
module ScanSpec {
  import opened Options
  import opened Strings
  import opened Paths
  import opened Models
  import opened Fs
  import opened Sorting
  import opened TopK

  /** The record a walk entry contributes: present for a regular file whose metadata was read. */
  function FileOf(e: DirEntry): Option<FileRecord> {
    match e.metadata
    case Some(m) => if m.fileType == RegularFile then Some(FileRecord(e.path, m.len)) else None
    case None => None
  }

  predicate IsFolder(e: DirEntry) {
    e.metadata.Some? && e.metadata.value.fileType == Directory
  }

  /** The key a file is counted under: its extension, lower-cased. */
  function ExtensionKey(p: Path): Option<string> {
    match Extension(p)
    case Some(ext) => Some(Lower(ext))
    case None => None
  }

  function FileRecords(es: seq<DirEntry>): seq<FileRecord> {
    if es == [] then []
    else
      var init := FileRecords(es[..|es| - 1]);
      match FileOf(es[|es| - 1])
      case Some(r) => init + [r]
      case None => init
  }

  function TotalSize(es: seq<DirEntry>): nat {
    if es == [] then 0
    else
      TotalSize(es[..|es| - 1]) + match FileOf(es[|es| - 1]) case Some(r) => r.sizeBytes case None => 0
  }

  function FolderCount(es: seq<DirEntry>): nat {
    if es == [] then 0
    else FolderCount(es[..|es| - 1]) + if IsFolder(es[|es| - 1]) then 1 else 0
  }

  /** A file record together with the key its extension is counted under. */
  datatype CountedFile = CountedFile(record: FileRecord, key: Option<string>)

  function CountedFiles(es: seq<DirEntry>): seq<CountedFile> {
    if es == [] then []
    else
      var init := CountedFiles(es[..|es| - 1]);
      var e := es[|es| - 1];
      match FileOf(e)
      case Some(r) => init + [CountedFile(r, ExtensionKey(e.path))]
      case None => init
  }

  /** The extension map that counting the files in order builds. */
  function ExtensionMap(fs: seq<CountedFile>): map<string, ExtensionStat> {
    if fs == [] then map[]
    else
      var m := ExtensionMap(fs[..|fs| - 1]);
      var f := fs[|fs| - 1];
      match f.key
      case Some(key) => AddToExtension(m, key, f.record.sizeBytes)
      case None => m
  }

  function ExtensionsOf(es: seq<DirEntry>): map<string, ExtensionStat> {
    ExtensionMap(CountedFiles(es))
  }

  /** Reference statistic of one key: how many files carry it and their total size. */
  function KeyStat(fs: seq<CountedFile>, key: string): ExtensionStat {
    if fs == [] then DefaultStat
    else
      var s := KeyStat(fs[..|fs| - 1], key);
      var f := fs[|fs| - 1];
      if f.key == Some(key) then ExtensionStat(s.count + 1, s.size + f.record.sizeBytes) else s
  }

  function SumOf(s: seq<nat>): nat {
    if s == [] then 0 else SumOf(s[..|s| - 1]) + s[|s| - 1]
  }

  /**
    `stats` is a correct result of scanning `es` from `root` with limit `k`: the
    counters, the extension map and the records kept, in ascending size order.
   */
  ghost predicate ScanResult(root: string, k: nat, es: seq<DirEntry>, durationMs: nat, stats: ScanStats) {
    && stats.rootPath == root
    && stats.totalFiles == |FileRecords(es)|
    && stats.totalFolders == FolderCount(es)
    && stats.totalSizeBytes == TotalSize(es)
    && stats.scanDurationMs == durationMs
    && stats.extensions == ExtensionsOf(es)
    && IsTopK(stats.topFiles, FileRecords(es), k)
    && NonDecreasingBy(stats.topFiles, Size)
  }

  lemma LastSplit(es: seq<DirEntry>)
    requires es != []
    ensures es == es[..|es| - 1] + [es[|es| - 1]]
  {
  }

  /** The files are exactly the entries that are regular files with readable metadata. */
  lemma {:induction false} FileRecordsMembers(es: seq<DirEntry>)
    ensures |FileRecords(es)| <= |es|
    ensures forall r :: r in FileRecords(es) <==> exists i :: 0 <= i < |es| && FileOf(es[i]) == Some(r)
  {
    if es != [] {
      var init := es[..|es| - 1];
      FileRecordsMembers(init);
      forall r ensures r in FileRecords(es) <==> exists i :: 0 <= i < |es| && FileOf(es[i]) == Some(r) {
        if r in FileRecords(es) {
          if r in FileRecords(init) {
            var i :| 0 <= i < |init| && FileOf(init[i]) == Some(r);
            assert es[i] == init[i];
          } else {
            assert FileOf(es[|es| - 1]) == Some(r);
          }
        }
        if exists i :: 0 <= i < |es| && FileOf(es[i]) == Some(r) {
          var i :| 0 <= i < |es| && FileOf(es[i]) == Some(r);
          if i < |init| {
            assert FileOf(init[i]) == Some(r);
          }
        }
      }
    }
  }

  /** `total_size_bytes` is the sum of the sizes of the files counted in `total_files`. */
  lemma {:induction false} TotalSizeIsSum(es: seq<DirEntry>)
    ensures TotalSize(es) == SumOf(Sizes(FileRecords(es)))
  {
    if es != [] {
      var init := es[..|es| - 1];
      TotalSizeIsSum(init);
      match FileOf(es[|es| - 1])
      case Some(r) =>
        var s := Sizes(FileRecords(init) + [r]);
        assert s[..|s| - 1] == Sizes(FileRecords(init));
      case None =>
    }
  }

  /** Each extension entry holds exactly the count and total size of the files with that key. */
  lemma {:induction false} ExtensionMapMatchesKeyStat(fs: seq<CountedFile>, key: string)
    ensures key in ExtensionMap(fs) ==> ExtensionMap(fs)[key] == KeyStat(fs, key)
    ensures key !in ExtensionMap(fs) <==> KeyStat(fs, key).count == 0
    ensures key !in ExtensionMap(fs) ==> KeyStat(fs, key) == DefaultStat
  {
    if fs != [] {
      ExtensionMapMatchesKeyStat(fs[..|fs| - 1], key);
    }
  }

  /** The counted files are the file records, each with its entry's lower-cased extension. */
  lemma {:induction false} CountedFilesAreFiles(es: seq<DirEntry>)
    ensures |CountedFiles(es)| == |FileRecords(es)|
    ensures forall i :: 0 <= i < |FileRecords(es)| ==> CountedFiles(es)[i].record == FileRecords(es)[i]
    ensures forall i :: 0 <= i < |FileRecords(es)| ==> CountedFiles(es)[i].key == ExtensionKey(FileRecords(es)[i].path)
  {
    if es != [] {
      CountedFilesAreFiles(es[..|es| - 1]);
    }
  }

  /** Keys are lower-case: lower-casing one again changes nothing. */
  lemma {:induction false} ExtensionKeysLowered(fs: seq<CountedFile>)
    requires forall i :: 0 <= i < |fs| && fs[i].key.Some? ==> Lower(fs[i].key.value) == fs[i].key.value
    ensures forall key :: key in ExtensionMap(fs) ==> Lower(key) == key
  {
    if fs != [] {
      ExtensionKeysLowered(fs[..|fs| - 1]);
    }
  }

  lemma ExtensionKeyLowered(p: Path)
    ensures ExtensionKey(p).Some? ==> Lower(ExtensionKey(p).value) == ExtensionKey(p).value
  {
    match Extension(p)
    case Some(ext) => LowerIdempotent(ext);
    case None =>
  }

  /** Files without an extension are not in the map, so its counts add up to at most the files. */
  lemma {:induction false} ExtensionCountBound(fs: seq<CountedFile>)
    ensures CountSum(ExtensionMap(fs)) <= |fs|
  {
    if fs != [] {
      var init := fs[..|fs| - 1];
      ExtensionCountBound(init);
      var f := fs[|fs| - 1];
      match f.key
      case Some(key) => CountSumAdd(ExtensionMap(init), key, f.record.sizeBytes);
      case None =>
    }
  }

  /** The per-extension counts of a scan add up to at most `total_files`. */
  lemma ExtensionCountsBounded(es: seq<DirEntry>)
    ensures CountSum(ExtensionsOf(es)) <= |FileRecords(es)|
    ensures forall key :: key in ExtensionsOf(es) ==> Lower(key) == key
  {
    ExtensionCountBound(CountedFiles(es));
    CountedFilesAreFiles(es);
    forall i | 0 <= i < |FileRecords(es)| {
      ExtensionKeyLowered(FileRecords(es)[i].path);
    }
    ExtensionKeysLowered(CountedFiles(es));
  }

  /** A walk error, unreadable metadata or an entry of another kind changes no counter. */
  lemma SkippedEntry(es: seq<DirEntry>, e: DirEntry)
    requires FileOf(e).None? && !IsFolder(e)
    ensures FileRecords(es + [e]) == FileRecords(es)
    ensures TotalSize(es + [e]) == TotalSize(es)
    ensures FolderCount(es + [e]) == FolderCount(es)
    ensures ExtensionsOf(es + [e]) == ExtensionsOf(es)
  {
    assert (es + [e])[..|es|] == es;
  }

  /** A directory entry only adds one to the folder count. */
  lemma DirectoryEntry(es: seq<DirEntry>, e: DirEntry)
    requires IsFolder(e)
    ensures FileRecords(es + [e]) == FileRecords(es)
    ensures TotalSize(es + [e]) == TotalSize(es)
    ensures FolderCount(es + [e]) == FolderCount(es) + 1
    ensures ExtensionsOf(es + [e]) == ExtensionsOf(es)
  {
    assert (es + [e])[..|es|] == es;
  }

  /** A readable file adds itself to the files, its size to the total and its key to the map. */
  lemma FileEntry(es: seq<DirEntry>, e: DirEntry, r: FileRecord)
    requires FileOf(e) == Some(r)
    ensures FileRecords(es + [e]) == FileRecords(es) + [r]
    ensures TotalSize(es + [e]) == TotalSize(es) + r.sizeBytes
    ensures FolderCount(es + [e]) == FolderCount(es)
    ensures ExtensionsOf(es + [e]) ==
      match ExtensionKey(e.path)
      case Some(key) => AddToExtension(ExtensionsOf(es), key, r.sizeBytes)
      case None => ExtensionsOf(es)
  {
    assert (es + [e])[..|es|] == es;
    var fs := CountedFiles(es) + [CountedFile(r, ExtensionKey(e.path))];
    assert CountedFiles(es + [e]) == fs;
    assert fs[..|fs| - 1] == CountedFiles(es);
  }

  /** Walk errors are dropped before any entry is looked at. */
  lemma WalkErrorIgnored(walk: seq<WalkItem>)
    ensures Flatten(walk + [WalkError]) == Flatten(walk)
  {
    FlattenAppend(walk, [WalkError]);
  }

  /** Sizes of a record sequence in ascending size order are sorted. */
  lemma AscendingSizes(s: seq<FileRecord>)
    requires NonDecreasingBy(s, Size)
    ensures forall i, j :: 0 <= i < j < |Sizes(s)| ==> Sizes(s)[i] <= Sizes(s)[j]
  {
    forall i, j | 0 <= i < j < |Sizes(s)| ensures Sizes(s)[i] <= Sizes(s)[j] {
      assert Size(s[i]) <= Size(s[j]);
    }
  }

  /**
    Two results for the same walk agree on every counter and on the extension map,
    whatever their limits; with the same limit their top files have the same sizes in
    the same order (ties between equal sizes may keep different paths).
   */
  lemma ScanResultsAgree(root: string, k1: nat, k2: nat, es: seq<DirEntry>, d1: nat, d2: nat, s1: ScanStats, s2: ScanStats)
    requires ScanResult(root, k1, es, d1, s1) && ScanResult(root, k2, es, d2, s2)
    ensures s1.(scanDurationMs := 0, topFiles := []) == s2.(scanDurationMs := 0, topFiles := [])
    ensures k1 == k2 ==> Sizes(s1.topFiles) == Sizes(s2.topFiles)
  {
    if k1 == k2 {
      TopKSizesUnique(s1.topFiles, s2.topFiles, FileRecords(es), k1);
      AscendingSizes(s1.topFiles);
      AscendingSizes(s2.topFiles);
      SortedUnique(Sizes(s1.topFiles), Sizes(s2.topFiles));
    }
  }

  /** The kept files are the largest ones: their sizes are a descending sort's first `k`. */
  lemma TopFilesAreLargest(root: string, k: nat, es: seq<DirEntry>, d: nat, s: ScanStats)
    requires ScanResult(root, k, es, d, s)
    ensures |s.topFiles| <= k
    ensures multiset(s.topFiles) <= multiset(FileRecords(es))
    ensures multiset(Sizes(s.topFiles)) == multiset(Sizes(SortDescBy(FileRecords(es), Size)[..Min(k, |FileRecords(es)|)]))
  {
    TopKMatchesSortedPrefix(s.topFiles, FileRecords(es), k);
  }

  /** With a limit of zero no file is kept. */
  lemma ZeroLimit(root: string, es: seq<DirEntry>, d: nat, s: ScanStats)
    requires ScanResult(root, 0, es, d, s)
    ensures s.topFiles == []
  {
  }

  lemma TxtLowered()
    ensures Lower("txt") == "txt"
  {
  }

  lemma TestTxtKey(root: Path)
    ensures ExtensionKey(Join(root, "test.txt")) == Some("txt")
  {
    FileNameOfJoin(root, "test.txt");
    TxtExtension();
    TxtLowered();
  }

  function SingleFileWalk(root: Path): seq<DirEntry> {
    [DirEntry(root, Some(Metadata(Directory, 0, None))),
     DirEntry(Join(root, "test.txt"), Some(Metadata(RegularFile, 12, None)))]
  }

  lemma SingleFileCounted(root: Path)
    ensures CountedFiles(SingleFileWalk(root)) == [CountedFile(FileRecord(Join(root, "test.txt"), 12), Some("txt"))]
  {
    var file := Join(root, "test.txt");
    CountedFilesOfPair(SingleFileWalk(root), FileRecord(file, 12));
    TestTxtKey(root);
  }

  /** A walk of a folder and then a file counts that one file. */
  lemma CountedFilesOfPair(es: seq<DirEntry>, r: FileRecord)
    requires |es| == 2 && FileOf(es[0]) == None && FileOf(es[1]) == Some(r)
    ensures CountedFiles(es) == [CountedFile(r, ExtensionKey(es[1].path))]
  {
    assert es[..1] == [es[0]] && [es[0]][..0] == [];
    assert CountedFiles(es[..1]) == [];
  }

  lemma SingleFileTotals(root: Path)
    ensures FileRecords(SingleFileWalk(root)) == [FileRecord(Join(root, "test.txt"), 12)]
    ensures FolderCount(SingleFileWalk(root)) == 1 && TotalSize(SingleFileWalk(root)) == 12
  {
    var es := SingleFileWalk(root);
    assert es[..1] == [es[0]] && [es[0]][..0] == [];
    assert FileOf(es[0]) == None && IsFolder(es[0]);
    assert FileRecords([es[0]]) == [];
    assert FolderCount([es[0]]) == 1;
    assert TotalSize([es[0]]) == 0;
  }

  lemma OneFileMap(f: CountedFile, key: string)
    requires f.key == Some(key)
    ensures ExtensionMap([f]) == map[key := ExtensionStat(1, f.record.sizeBytes)]
  {
    assert [f][..0] == [];
  }

  lemma SingleFileCounts(root: Path)
    ensures FileRecords(SingleFileWalk(root)) == [FileRecord(Join(root, "test.txt"), 12)]
    ensures FolderCount(SingleFileWalk(root)) == 1 && TotalSize(SingleFileWalk(root)) == 12
    ensures ExtensionsOf(SingleFileWalk(root)) == map["txt" := ExtensionStat(1, 12)]
  {
    SingleFileTotals(root);
    SingleFileCounted(root);
    OneFileMap(CountedFile(FileRecord(Join(root, "test.txt"), 12), Some("txt")), "txt");
  }

  /** A root directory holding one 12-byte `test.txt`, scanned with limit 5. */
  lemma SingleFileExample(root: Path, d: nat, s: ScanStats)
    requires ScanResult(root, 5, SingleFileWalk(root), d, s)
    ensures s.totalFiles == 1 && s.totalSizeBytes > 0 && s.totalFolders == 1
    ensures "txt" in s.extensions && s.extensions["txt"].count == 1
    ensures |s.topFiles| == 1 && s.topFiles[0] == FileRecord(Join(root, "test.txt"), 12)
  {
    var r := FileRecord(Join(root, "test.txt"), 12);
    SingleFileCounts(root);
    var rejected: seq<FileRecord> :| Evicted(s.topFiles, [r], rejected);
    assert s.topFiles[0] in multiset([r]);
  }
}
