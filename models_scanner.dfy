/**
  The second copy of `Scanner::scan`, over the record types of the models file. It
  loops over the raw walk items and skips an error with `if let Ok(dir_entry)`; the
  per-entry update is the same as the core library's.
 */
module ModelsScanner {
  import opened Models
  import opened Fs
  import opened ScanSpec
  import opened CoreScanner

  class Scanner {
    const root: string
    const topLimit: nat

    constructor (root: string, topLimit: nat)
      ensures this.root == root && this.topLimit == topLimit
    {
      this.root := root;
      this.topLimit := topLimit;
    }

    /** The same result as flattening the walk first: a walk error changes nothing. */
    method Scan(walk: seq<WalkItem>, durationMs: nat) returns (stats: ScanStats)
      ensures ScanResult(root, topLimit, Flatten(walk), durationMs, stats)
    {
      var pass := new ScanPass(root, topLimit);
      var i := 0;
      while i < |walk|
        invariant 0 <= i <= |walk|
        invariant fresh(pass) && fresh(pass.heap)
        invariant pass.root == root && pass.topLimit == topLimit
        invariant pass.Valid() && pass.entries == Flatten(walk[..i])
      {
        assert walk[..i + 1] == walk[..i] + [walk[i]];
        assert [walk[i]][..0] == [];
        FlattenAppend(walk[..i], [walk[i]]);
        match walk[i] {
          case Item(dirEntry) =>
            pass.Visit(dirEntry);
          case WalkError =>
        }
        i := i + 1;
      }
      assert walk[..i] == walk;
      stats := pass.Finish(durationMs);
    }
  }
}
