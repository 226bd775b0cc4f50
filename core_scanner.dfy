/**
  `Scanner::scan` of the core library: one pass over the walk's entries that counts
  files and folders, sums sizes, accumulates the per-extension map and keeps the
  largest files in a bounded heap, which is finally sorted and reversed in place.
  The walk is given as a sequence of items and the elapsed time as a number.
 */
module CoreScanner {
  import opened Options
  import opened Strings
  import opened Paths
  import opened Models
  import opened Fs
  import opened Sorting
  import opened TopK
  import opened ScanSpec

  /** The counters and the extension map of `stats` are those of the entries `es`. */
  ghost predicate Counts(stats: ScanStats, es: seq<DirEntry>) {
    && stats.totalFiles == |FileRecords(es)|
    && stats.totalFolders == FolderCount(es)
    && stats.totalSizeBytes == TotalSize(es)
    && stats.extensions == ExtensionsOf(es)
  }

  /** `top` holds `min(k, |seen|)` of the records `seen`, and `rejected` the others, none larger. */
  ghost predicate Keeps(top: seq<FileRecord>, seen: seq<FileRecord>, rejected: seq<FileRecord>, k: nat) {
    |top| == Min(k, |seen|) && Evicted(top, seen, rejected)
  }

  /** The mutable state of one scan: the `stats` being filled in and the top-files heap. */
  class ScanPass {
    const root: string
    const topLimit: nat
    var stats: ScanStats
    const heap: FileHeap
    /** The entries visited so far, and the records the heap has evicted. */
    ghost var entries: seq<DirEntry>
    ghost var rejected: seq<FileRecord>

    /** The counters describe the visited entries and the heap holds a top-K selection of their files. */
    ghost predicate Valid()
      reads this, heap
    {
      && stats.rootPath == root
      && stats.scanDurationMs == 0
      && stats.topFiles == []
      && Counts(stats, entries)
      && Keeps(heap.items, FileRecords(entries), rejected, topLimit)
    }

    /** `ScanStats { root_path, ..Default::default() }` and an empty heap. */
    constructor (root: string, topLimit: nat)
      ensures Valid() && fresh(heap)
      ensures this.root == root && this.topLimit == topLimit && entries == []
    {
      this.root := root;
      this.topLimit := topLimit;
      stats := ScanStats(root, 0, 0, 0, 0, map[], []);
      heap := new FileHeap();
      entries := [];
      rejected := [];
    }

    /** The body of the loop for one entry that the walk produced. */
    method Visit(e: DirEntry)
      requires Valid()
      modifies this, heap
      ensures Valid() && entries == old(entries) + [e]
    {
      if e.metadata.Some? && e.metadata.value.fileType == RegularFile {
        VisitFile(e, e.metadata.value);
        return;
      }
      if IsFolder(e) {
        DirectoryEntry(entries, e);
        stats := stats.(totalFolders := stats.totalFolders + 1);
      } else {
        SkippedEntry(entries, e);
      }
      assert Counts(stats, entries + [e]);
      assert FileRecords(entries + [e]) == FileRecords(entries);
      entries := entries + [e];
    }

    /** A regular file: it is counted, its extension entry grows, and it is offered to the heap. */
    method VisitFile(e: DirEntry, meta: Metadata)
      requires Valid() && e.metadata == Some(meta) && meta.fileType == RegularFile
      modifies this, heap
      ensures Valid() && entries == old(entries) + [e]
    {
      ghost var seen := FileRecords(entries);
      assert Keeps(heap.items, seen, rejected, topLimit);
      var size := meta.len;
      var record := FileRecord(e.path, size);
      FileEntry(entries, e, record);
      stats := stats.(totalFiles := stats.totalFiles + 1, totalSizeBytes := stats.totalSizeBytes + size);
      match Extension(e.path) {
        case Some(ext) =>
          stats := stats.(extensions := AddToExtension(stats.extensions, Lower(ext), size));
        case None =>
      }
      assert Counts(stats, entries + [e]);
      Offer(record, seen);
      entries := entries + [e];
    }

    /**
      `heap.push(record)`, then a `pop` when the heap holds more than `top_limit`
      records: the heap keeps a top-K selection of the records seen.
     */
    method Offer(record: FileRecord, ghost seen: seq<FileRecord>)
      requires Keeps(heap.items, seen, rejected, topLimit)
      modifies this, heap
      ensures Keeps(heap.items, seen + [record], rejected, topLimit)
      ensures stats == old(stats) && entries == old(entries)
    {
      ghost var top := heap.items;
      heap.Push(record);
      var n := heap.Len();
      if n > topLimit {
        var evicted := heap.Pop();
        PushPopKeepsTopK(top, seen, rejected, topLimit, record, evicted.value, heap.items);
        rejected := rejected + [evicted.value];
      } else {
        PushWithinLimit(top, seen, rejected, topLimit, record);
      }
    }

    /** The duration is recorded, then `into_sorted_vec()` followed by an in-place `reverse()`. */
    method Finish(durationMs: nat) returns (result: ScanStats)
      requires Valid()
      ensures ScanResult(root, topLimit, entries, durationMs, result)
    {
      var sorted := heap.IntoSortedVec();
      var top := new FileRecord[|sorted|](i requires 0 <= i < |sorted| => sorted[i]);
      assert top[..] == sorted;
      ReverseInPlace(top);
      result := stats.(scanDurationMs := durationMs, topFiles := top[..]);
      assert NonIncreasingBy(sorted, Size);
      ReversedOrder(sorted, Size);
      assert IsTopK(heap.items, FileRecords(entries), topLimit);
      TopKPermutation(heap.items, top[..], FileRecords(entries), topLimit);
    }
  }

  class Scanner {
    const root: string
    const topLimit: nat

    constructor (root: string, topLimit: nat)
      ensures this.root == root && this.topLimit == topLimit
    {
      this.root := root;
      this.topLimit := topLimit;
    }

    /**
      The scan over `WalkDir::new(root).into_iter().flatten()`: walk errors are dropped
      before the loop sees the entries.
     */
    method Scan(walk: seq<WalkItem>, durationMs: nat) returns (stats: ScanStats)
      ensures ScanResult(root, topLimit, Flatten(walk), durationMs, stats)
    {
      var pass := new ScanPass(root, topLimit);
      var entries := Flatten(walk);
      var i := 0;
      while i < |entries|
        invariant 0 <= i <= |entries|
        invariant fresh(pass) && fresh(pass.heap)
        invariant pass.root == root && pass.topLimit == topLimit
        invariant pass.Valid() && pass.entries == entries[..i]
      {
        pass.Visit(entries[i]);
        assert entries[..i + 1] == entries[..i] + [entries[i]];
        i := i + 1;
      }
      assert entries[..i] == entries;
      stats := pass.Finish(durationMs);
    }
  }
}
