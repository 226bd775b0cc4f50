/**
  The filesystem as the scanner, the governance engine and the tree builder see it:
  directory walks are given as sequences of entries, metadata as records, and the set
  of existing files as the state of a `FileSystem` object.
 */
module Fs {
  import opened Options
  import opened Paths

  datatype FileType = RegularFile | Directory | OtherType

  /**
    What `fs::Metadata` offers to the model: the kind of entry, its length, and the
    seconds elapsed since its modification time (`None` when the time is unavailable
    or lies in the future).
   */
  datatype Metadata = Metadata(fileType: FileType, len: nat, ageSecs: Option<nat>)

  /** A walk entry; `metadata` is `None` when reading its metadata fails. */
  datatype DirEntry = DirEntry(path: Path, metadata: Option<Metadata>)

  /** One item produced by a directory walk: an entry or a walk error. */
  datatype WalkItem = Item(entry: DirEntry) | WalkError

  /** The walk's iterator flattened, as `into_iter().flatten()` does: errors are dropped. */
  function Flatten(walk: seq<WalkItem>): (r: seq<DirEntry>)
    ensures |r| <= |walk|
  {
    if walk == [] then []
    else
      var last := walk[|walk| - 1];
      var init := Flatten(walk[..|walk| - 1]);
      assert walk == walk[..|walk| - 1] + [last];
      match last
      case Item(e) => init + [e]
      case WalkError => init
  }

  /** Flattening keeps exactly the entries of the walk. */
  lemma {:induction false} FlattenMembers(walk: seq<WalkItem>)
    ensures forall e :: e in Flatten(walk) <==> Item(e) in walk
  {
    if walk != [] {
      var init := walk[..|walk| - 1];
      FlattenMembers(init);
      assert walk == init + [walk[|walk| - 1]];
    }
  }

  lemma {:induction false} FlattenAppend(a: seq<WalkItem>, b: seq<WalkItem>)
    ensures Flatten(a + b) == Flatten(a) + Flatten(b)
    decreases |b|
  {
    if b == [] {
      assert a + b == a;
    } else {
      var init, last := b[..|b| - 1], b[|b| - 1];
      FlattenAppend(a, init);
      assert (a + b)[..|a + b| - 1] == a + init;
      assert (a + b)[|a + b| - 1] == last;
      var tail := if last.Item? then [last.entry] else [];
      assert Flatten(a + b) == Flatten(a + init) + tail;
      assert Flatten(b) == Flatten(init) + tail;
      assert (Flatten(a) + Flatten(init)) + tail == Flatten(a) + (Flatten(init) + tail);
    }
  }

  /** The files that exist, and those whose removal the operating system refuses. */
  class FileSystem {
    var files: set<Path>
    var protected: set<Path>

    constructor (files: set<Path>, protected: set<Path>)
      ensures this.files == files && this.protected == protected
    {
      this.files := files;
      this.protected := protected;
    }

    /** `std::fs::remove_file`: fails when the file is missing or protected. */
    method RemoveFile(path: Path) returns (ok: bool)
      modifies this
      ensures ok <==> path in old(files) && path !in protected
      ensures files == if ok then old(files) - {path} else old(files)
      ensures protected == old(protected)
    {
      ok := path in files && path !in protected;
      if ok {
        files := files - {path};
      }
    }
  }
}
