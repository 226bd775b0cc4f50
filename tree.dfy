/**
  The desktop application's size tree: a depth-limited walk that turns files into
  leaves sized by their length and directories into nodes sized by the sum of the
  children that produced a node. Entropy is a stand-in looked up from the extension.
 */
module Tree {
  import opened Options
  import opened Strings
  import opened Paths
  import opened Fs

  /**
    The filesystem below a path as the walk meets it: the metadata of the path
    (`None` when `fs::metadata` fails), whether `read_dir` succeeds on it, and the
    items it then yields, an item that fails to read being an `EntryError`.
   */
  datatype Disk =
    | Node(path: Path, metadata: Option<Metadata>, readable: bool, entries: seq<Disk>)
    | EntryError

  /**
    A node of the tree handed to the visualisation: a `Leaf` is serialised without
    `children`, a `Folder` with its (possibly empty) list of children.
   */
  datatype TreeNode =
    | Leaf(name: string, size: nat, entropy: real, riskScore: nat)
    | Folder(name: string, size: nat, children: seq<TreeNode>, entropy: real, riskScore: nat)


  /** `calculate_mock_entropy`: a case-sensitive lookup of the extension. */
  function MockEntropy(p: Path): (e: real)
    ensures TableEntropy(e)
    ensures Extension(p).None? ==> e == 4.0
  {
    match Extension(p)
    case None => 4.0
    case Some(ext) =>
      if ext == "zip" || ext == "enc" then 7.8
      else if ext == "png" || ext == "jpg" then 6.5
      else if ext == "rs" || ext == "txt" || ext == "md" then 3.2
      else 4.0
  }

  /** The four values the lookup hands out. */
  predicate TableEntropy(e: real) {
    e == 7.8 || e == 6.5 || e == 3.2 || e == 4.0
  }

  /** `(entropy * 10.0) as u8`: truncation toward zero, saturating at both ends of `u8`. */
  function RiskScore(entropy: real): (score: nat)
    ensures score <= 255
    ensures entropy * 10.0 < 1.0 ==> score == 0
    ensures 0.0 <= entropy * 10.0 < 256.0 ==> score as real <= entropy * 10.0 < score as real + 1.0
  {
    var scaled := (entropy * 10.0).Floor;
    if scaled < 0 then 0 else if scaled > 255 then 255 else scaled
  }

  /** The node's name: the last component, or the whole path when there is none. */
  function NodeName(p: Path): string {
    match FileName(p)
    case Some(name) => name
    case None => p
  }

  function SizeSum(nodes: seq<TreeNode>): nat {
    if nodes == [] then 0 else SizeSum(nodes[..|nodes| - 1]) + nodes[|nodes| - 1].size
  }

  function EntropySum(nodes: seq<TreeNode>): real {
    if nodes == [] then 0.0 else EntropySum(nodes[..|nodes| - 1]) + nodes[|nodes| - 1].entropy
  }

  /** The average of `count` values adding up to `total`, and 0 for no values. */
  function Mean(total: real, count: nat): real {
    if count > 0 then total / count as real else 0.0
  }

  /** The directory's entropy: the mean of its children's. */
  function MeanEntropy(nodes: seq<TreeNode>): real {
    Mean(EntropySum(nodes), |nodes|)
  }

  lemma SumsAppend(nodes: seq<TreeNode>, n: TreeNode)
    ensures SizeSum(nodes + [n]) == SizeSum(nodes) + n.size
    ensures EntropySum(nodes + [n]) == EntropySum(nodes) + n.entropy
  {
    assert (nodes + [n])[..|nodes|] == nodes;
  }

  /** One more entry adds the node it produces, if any, to the children. */
  lemma ChildrenStep(d: Disk, i: nat, depth: nat, maxDepth: nat)
    requires d.Node? && i < |d.entries|
    ensures ScanChildren(d, i + 1, depth, maxDepth) ==
      match ScanTree(d.entries[i], depth, maxDepth)
      case None => ScanChildren(d, i, depth, maxDepth)
      case Some(n) => ScanChildren(d, i, depth, maxDepth) + [n]
  {
  }

  /** The leaf for a file. */
  function FileNode(p: Path, meta: Metadata): TreeNode {
    var e := MockEntropy(p);
    Leaf(NodeName(p), meta.len, e, RiskScore(e))
  }

  /** The node for a directory whose entries produced `kids`. */
  function DirNode(p: Path, kids: seq<TreeNode>): TreeNode {
    var e := MeanEntropy(kids);
    Folder(NodeName(p), SizeSum(kids), kids, e, RiskScore(e))
  }

  /** `scan_directory_recursive` on the disk `d` at `depth`. */
  function ScanTree(d: Disk, depth: nat, maxDepth: nat): Option<TreeNode>
    decreases d, 1, 0
  {
    match d
    case EntryError => None
    case Node(path, metadata, readable, entries) =>
      if depth > maxDepth then None
      else
        match metadata
        case None => None
        case Some(meta) =>
          if meta.fileType == RegularFile then Some(FileNode(path, meta))
          else if meta.fileType == Directory then Some(ScanDir(d, depth + 1, maxDepth))
          else None
  }

  /** The folder for the directory `d` whose entries are scanned at `depth`. */
  function ScanDir(d: Disk, depth: nat, maxDepth: nat): TreeNode
    requires d.Node?
    decreases d, 0, |d.entries| + 1
  {
    DirNode(d.path, if d.readable then ScanChildren(d, |d.entries|, depth, maxDepth) else [])
  }

  /** The nodes the first `n` entries of `parent` produce when scanned at `depth`, in read order. */
  function ScanChildren(parent: Disk, n: nat, depth: nat, maxDepth: nat): (kids: seq<TreeNode>)
    requires parent.Node? && n <= |parent.entries|
    ensures |kids| <= n
    decreases parent, 0, n
  {
    if n == 0 then []
    else
      var init := ScanChildren(parent, n - 1, depth, maxDepth);
      assert parent.entries[n - 1] in parent.entries;
      match ScanTree(parent.entries[n - 1], depth, maxDepth)
      case None => init
      case Some(node) => init + [node]
  }

  /** How deep the tree goes: 0 for a leaf or a directory without children. */
  function Height(t: TreeNode): nat {
    match t
    case Leaf(_, _, _, _) => 0
    case Folder(_, _, kids, _, _) => if kids == [] then 0 else 1 + MaxHeight(kids)
  }

  function MaxHeight(ts: seq<TreeNode>): nat {
    if ts == [] then 0
    else
      var h := Height(ts[|ts| - 1]);
      var rest := MaxHeight(ts[..|ts| - 1]);
      if h > rest then h else rest
  }

  /**
    The shape every node of the tree has: a leaf carries one of the table's entropies,
    a directory's size is the total of its children's and its entropy their mean, and
    every node's score is its entropy's.
   */
  predicate Consistent(t: TreeNode) {
    match t
    case Leaf(_, _, e, score) => TableEntropy(e) && score == RiskScore(e)
    case Folder(_, size, kids, e, score) =>
      && size == SizeSum(kids)
      && e == MeanEntropy(kids)
      && score == RiskScore(e)
      && forall i :: 0 <= i < |kids| ==> Consistent(kids[i])
  }

  /** The total length of the files below a node. */
  function LeafBytes(t: TreeNode): nat {
    match t
    case Leaf(_, size, _, _) => size
    case Folder(_, _, kids, _, _) => LeafBytesSum(kids)
  }

  function LeafBytesSum(ts: seq<TreeNode>): nat {
    if ts == [] then 0 else LeafBytesSum(ts[..|ts| - 1]) + LeafBytes(ts[|ts| - 1])
  }

  lemma {:induction false} SizeIsLeafBytes(t: TreeNode)
    requires Consistent(t)
    ensures t.size == LeafBytes(t)
  {
    if t.Folder? {
      SizeIsLeafBytesSum(t.children);
    }
  }

  lemma {:induction false} SizeIsLeafBytesSum(ts: seq<TreeNode>)
    requires forall i :: 0 <= i < |ts| ==> Consistent(ts[i])
    ensures SizeSum(ts) == LeafBytesSum(ts)
  {
    if ts != [] {
      SizeIsLeafBytesSum(ts[..|ts| - 1]);
      SizeIsLeafBytes(ts[|ts| - 1]);
    }
  }

  /** A node appears only when the depth allows it and the metadata names a file or a directory. */
  lemma ScanTreeNone(d: Disk, depth: nat, maxDepth: nat)
    ensures ScanTree(d, depth, maxDepth).None? <==>
      d.EntryError? || depth > maxDepth || d.metadata.None? || d.metadata.value.fileType == OtherType
  {
  }

  /** Every node is named after its path, and it is a leaf exactly when the entry is a file. */
  lemma ScanNodeKind(d: Disk, depth: nat, maxDepth: nat)
    requires ScanTree(d, depth, maxDepth).Some?
    ensures d.Node? && d.metadata.Some?
    ensures ScanTree(d, depth, maxDepth).value.name == NodeName(d.path)
    ensures ScanTree(d, depth, maxDepth).value.Leaf? <==> d.metadata.value.fileType == RegularFile
  {
  }

  /** A file becomes a leaf named after the path, sized by its length, scored by its extension. */
  lemma ScanFile(d: Disk, depth: nat, maxDepth: nat)
    requires d.Node? && depth <= maxDepth && d.metadata.Some? && d.metadata.value.fileType == RegularFile
    ensures var r := ScanTree(d, depth, maxDepth);
      && r.Some? && r.value.Leaf?
      && r.value.name == NodeName(d.path)
      && r.value.size == d.metadata.value.len
      && r.value.entropy == MockEntropy(d.path)
  {
  }

  /** Some entry among the first `n` of `parent` produces `c`. */
  predicate ProducedBy(parent: Disk, n: nat, depth: nat, maxDepth: nat, c: TreeNode)
    requires parent.Node? && n <= |parent.entries|
  {
    exists i :: 0 <= i < n && ScanTree(parent.entries[i], depth, maxDepth) == Some(c)
  }

  /** Every child node comes from an entry that was read, and every entry's node is kept. */
  lemma {:induction false} ChildrenFromEntries(parent: Disk, n: nat, depth: nat, maxDepth: nat)
    requires parent.Node? && n <= |parent.entries|
    ensures forall c :: c in ScanChildren(parent, n, depth, maxDepth) <==> ProducedBy(parent, n, depth, maxDepth, c)
  {
    if n > 0 {
      ChildrenFromEntries(parent, n - 1, depth, maxDepth);
      var init := ScanChildren(parent, n - 1, depth, maxDepth);
      var last := ScanTree(parent.entries[n - 1], depth, maxDepth);
      var kids := ScanChildren(parent, n, depth, maxDepth);
      assert kids == if last.Some? then init + [last.value] else init;
      forall c
        ensures c in kids <==> ProducedBy(parent, n, depth, maxDepth, c)
      {
        if c in init {
          var i :| 0 <= i < n - 1 && ScanTree(parent.entries[i], depth, maxDepth) == Some(c);
          assert 0 <= i < n;
        } else if last == Some(c) {
          assert ScanTree(parent.entries[n - 1], depth, maxDepth) == Some(c);
        }
      }
    }
  }

  /** Entries past the depth limit produce nothing. */
  lemma {:induction false} ChildrenTooDeep(parent: Disk, n: nat, depth: nat, maxDepth: nat)
    requires parent.Node? && n <= |parent.entries| && depth > maxDepth
    ensures ScanChildren(parent, n, depth, maxDepth) == []
  {
    if n > 0 {
      ChildrenTooDeep(parent, n - 1, depth, maxDepth);
      assert ScanTree(parent.entries[n - 1], depth, maxDepth).None?;
    }
  }

  /** A directory at the depth limit is listed with no children and size 0. */
  lemma DirectoryAtLimit(d: Disk, maxDepth: nat)
    requires d.Node? && d.metadata.Some? && d.metadata.value.fileType == Directory
    ensures ScanTree(d, maxDepth, maxDepth) == Some(Folder(NodeName(d.path), 0, [], 0.0, 0))
  {
    if d.readable {
      ChildrenTooDeep(d, |d.entries|, maxDepth + 1, maxDepth);
    }
  }

  /** A directory `read_dir` fails on is listed with no children and size 0 as well. */
  lemma UnreadableDirectory(d: Disk, depth: nat, maxDepth: nat)
    requires d.Node? && depth <= maxDepth && d.metadata.Some? && d.metadata.value.fileType == Directory
    requires !d.readable
    ensures ScanTree(d, depth, maxDepth) == Some(Folder(NodeName(d.path), 0, [], 0.0, 0))
  {
  }

  lemma {:induction false} MaxHeightBound(ts: seq<TreeNode>, h: nat)
    requires forall i :: 0 <= i < |ts| ==> Height(ts[i]) <= h
    ensures MaxHeight(ts) <= h
  {
    if ts != [] {
      MaxHeightBound(ts[..|ts| - 1], h);
    }
  }

  /**
    Every node the scan produces is consistent and no deeper than the levels left:
    the tree never reaches past `maxDepth`.
   */
  lemma {:induction false} ScanShape(d: Disk, depth: nat, maxDepth: nat)
    requires depth <= maxDepth
    ensures var r := ScanTree(d, depth, maxDepth);
      r.Some? ==> Consistent(r.value) && Height(r.value) <= maxDepth - depth
    decreases d, 1
  {
    if d.Node? && depth <= maxDepth && d.metadata.Some? {
      if d.metadata.value.fileType == RegularFile {
        assert ScanTree(d, depth, maxDepth) == Some(FileNode(d.path, d.metadata.value));
      } else if d.metadata.value.fileType == Directory {
        var kids := if d.readable then ScanChildren(d, |d.entries|, depth + 1, maxDepth) else [];
        assert ScanTree(d, depth, maxDepth) == Some(DirNode(d.path, kids));
        if d.readable && depth == maxDepth {
          ChildrenTooDeep(d, |d.entries|, depth + 1, maxDepth);
        } else if d.readable {
          ChildrenShape(d, |d.entries|, depth + 1, maxDepth);
          assert kids == ScanChildren(d, |d.entries|, depth + 1, maxDepth);
          MaxHeightBound(kids, maxDepth - depth - 1);
        }
        assert Height(DirNode(d.path, kids)) <= maxDepth - depth;
      }
    }
  }

  /** Every node of `ts` is consistent and at most `h` deep. */
  predicate AllShaped(ts: seq<TreeNode>, h: nat) {
    forall i :: 0 <= i < |ts| ==> Consistent(ts[i]) && Height(ts[i]) <= h
  }

  lemma {:induction false} ChildrenShape(parent: Disk, n: nat, depth: nat, maxDepth: nat)
    requires parent.Node? && n <= |parent.entries| && depth <= maxDepth
    ensures AllShaped(ScanChildren(parent, n, depth, maxDepth), maxDepth - depth)
    decreases parent, 0, n
  {
    if n > 0 {
      ChildrenShape(parent, n - 1, depth, maxDepth);
      var init := ScanChildren(parent, n - 1, depth, maxDepth);
      assert parent.entries[n - 1] in parent.entries;
      ScanShape(parent.entries[n - 1], depth, maxDepth);
    }
  }

  /** So a directory's size is the total length of the files the tree shows below it. */
  lemma ScanSizeIsFileBytes(d: Disk, depth: nat, maxDepth: nat)
    requires depth <= maxDepth && ScanTree(d, depth, maxDepth).Some?
    ensures ScanTree(d, depth, maxDepth).value.size == LeafBytes(ScanTree(d, depth, maxDepth).value)
  {
    ScanShape(d, depth, maxDepth);
    SizeIsLeafBytes(ScanTree(d, depth, maxDepth).value);
  }

  /** A leaf's score is its table entropy times ten: 78, 65, 32 or 40. */
  lemma TableRiskScores(e: real)
    requires TableEntropy(e)
    ensures RiskScore(e) as real == e * 10.0
    ensures RiskScore(e) == 78 || RiskScore(e) == 65 || RiskScore(e) == 32 || RiskScore(e) == 40
  {
    if e == 7.8 {
      assert (e * 10.0).Floor == 78;
    } else if e == 6.5 {
      assert (e * 10.0).Floor == 65;
    } else if e == 3.2 {
      assert (e * 10.0).Floor == 32;
    } else {
      assert (e * 10.0).Floor == 40;
    }
  }

  /** The lookup is by exact extension, so case matters. */
  lemma ExtensionCaseMatters()
    ensures MockEntropy("a/b.zip") == 7.8
    ensures MockEntropy("a/b.ZIP") == 4.0
  {
    LowerZipExtension();
    UpperZipExtension();
    CapitalExtensionDefault("a/b.ZIP", "ZIP");
  }

  /** An extension that starts with a capital letter is not in the table. */
  lemma CapitalExtensionDefault(p: Path, ext: string)
    requires Extension(p) == Some(ext) && ext != [] && 'A' <= ext[0] <= 'Z'
    ensures MockEntropy(p) == 4.0
  {
    assert ext != "zip" && ext != "enc" && ext != "png" && ext != "jpg" by {
      assert "zip"[0] == 'z' && "enc"[0] == 'e' && "png"[0] == 'p' && "jpg"[0] == 'j';
    }
    assert ext != "rs" && ext != "txt" && ext != "md" by {
      assert "rs"[0] == 'r' && "txt"[0] == 't' && "md"[0] == 'm';
    }
  }

  lemma LowerZipExtension()
    ensures Extension("a/b.zip") == Some("zip")
  {
    assert TrimTrailing("a/b.zip") == "a/b.zip";
    assert AfterLastBefore("a/b.zip", '/', 7) == 2;
    assert FileName("a/b.zip") == Some("b.zip");
    assert AfterLastBefore("b.zip", '.', 5) == 2;
  }

  lemma UpperZipExtension()
    ensures Extension("a/b.ZIP") == Some("ZIP")
  {
    assert TrimTrailing("a/b.ZIP") == "a/b.ZIP";
    assert AfterLastBefore("a/b.ZIP", '/', 7) == 2;
    assert FileName("a/b.ZIP") == Some("b.ZIP");
    assert AfterLastBefore("b.ZIP", '.', 5) == 2;
  }

  /** A name whose only dot leads it has no extension and gets the default. */
  lemma HiddenNameDefault()
    ensures MockEntropy("a/.zip") == 4.0
  {
    assert AfterLastBefore("a/.zip", '/', 6) == 2;
    assert AfterLastBefore(".zip", '.', 4) == 1;
  }

  /**
    The recursive walk of `scan_directory_recursive`: a file becomes a leaf, and a
    directory becomes a folder of the nodes its entries produce one level deeper.
   */
  method ScanDirectoryRecursive(d: Disk, depth: nat, maxDepth: nat) returns (r: Option<TreeNode>)
    ensures r == ScanTree(d, depth, maxDepth)
    decreases d, 1
  {
    if d.EntryError? || depth > maxDepth {
      return None;
    }
    if d.metadata.None? {
      return None;
    }
    var meta := d.metadata.value;
    if meta.fileType == RegularFile {
      var entropy := MockEntropy(d.path);
      return Some(Leaf(NodeName(d.path), meta.len, entropy, RiskScore(entropy)));
    } else if meta.fileType == Directory {
      var node := ScanFolder(d, depth + 1, maxDepth);
      return Some(node);
    }
    return None;
  }

  /**
    The directory branch: the entries of a readable directory are scanned at `depth`,
    and the folder gets their total size and the mean of their entropies.
   */
  method ScanFolder(d: Disk, depth: nat, maxDepth: nat) returns (node: TreeNode)
    requires d.Node?
    ensures node == ScanDir(d, depth, maxDepth)
    decreases d, 0, 1
  {
    var children: seq<TreeNode> := [];
    var dirSize: nat := 0;
    var totalEntropy := 0.0;
    var fileCount: nat := 0;
    if d.readable {
      children, dirSize, totalEntropy, fileCount := ScanEntries(d, depth, maxDepth);
    }
    var avgEntropy := Mean(totalEntropy, fileCount);
    node := Folder(NodeName(d.path), dirSize, children, avgEntropy, RiskScore(avgEntropy));
  }

  /**
    The loop over a directory's entries: each is scanned at `depth`, and a node it
    produces is kept and added to the size, to the entropy total and to the count.
   */
  method ScanEntries(d: Disk, depth: nat, maxDepth: nat)
      returns (children: seq<TreeNode>, dirSize: nat, totalEntropy: real, fileCount: nat)
    requires d.Node?
    ensures children == ScanChildren(d, |d.entries|, depth, maxDepth)
    ensures dirSize == SizeSum(children) && totalEntropy == EntropySum(children)
    ensures fileCount == |children|
    decreases d, 0, 0
  {
    children, dirSize, totalEntropy, fileCount := [], 0, 0.0, 0;
    var i := 0;
    while i < |d.entries|
      invariant i <= |d.entries|
      invariant children == ScanChildren(d, i, depth, maxDepth)
      invariant dirSize == SizeSum(children) && totalEntropy == EntropySum(children)
      invariant fileCount == |children|
    {
      assert d.entries[i] in d.entries;
      var child := ScanDirectoryRecursive(d.entries[i], depth, maxDepth);
      ChildrenStep(d, i, depth, maxDepth);
      if child.Some? {
        var n := child.value;
        dirSize := dirSize + n.size;
        totalEntropy := totalEntropy + n.entropy;
        fileCount := fileCount + 1;
        SumsAppend(children, n);
        children := children + [n];
      }
      i := i + 1;
    }
  }

  /** What `get_scan_tree` hands back: the tree, or a message. */
  datatype ScanResult = Ok(tree: TreeNode) | Err(message: string)

  const MaxDepth: nat := 3

  /**
    `get_scan_tree` on the disk below `root.path`: `pathExists` is the answer of
    `Path::exists`, and the metadata read that follows is `root.metadata`.
   */
  function GetScanTree(root: Disk, pathExists: bool): (r: ScanResult)
    requires root.Node?
    ensures r.Ok? ==> Some(r.tree) == ScanTree(root, 0, MaxDepth)
    ensures pathExists && root.metadata.None? ==> r == Err("Cannot access path: ")
    ensures pathExists && root.metadata.Some? && ScanTree(root, 0, MaxDepth).None? ==>
      r == Err("Failed to scan path: " + root.path + ". Try a subdirectory instead.")
  {
    if !pathExists then Err("Path does not exist: " + root.path)
    else if root.metadata.None? then Err("Cannot access path: ")
    else
      match ScanTree(root, 0, MaxDepth)
      case Some(t) => Ok(t)
      case None => Err("Failed to scan path: " + root.path + ". Try a subdirectory instead.")
  }

  /**
    The command fails on a path that does not exist or cannot be read, and on one that
    is neither a file nor a directory; otherwise it answers with the scan from depth 0,
    which shows at most three levels below the root.
   */
  lemma GetScanTreeOutcome(root: Disk, pathExists: bool)
    requires root.Node?
    ensures GetScanTree(root, pathExists).Ok? <==>
      pathExists && root.metadata.Some? && root.metadata.value.fileType != OtherType
    ensures !pathExists ==> GetScanTree(root, pathExists) == Err("Path does not exist: " + root.path)
    ensures GetScanTree(root, pathExists).Ok? ==>
      var t := GetScanTree(root, pathExists).tree;
      && Some(t) == ScanTree(root, 0, MaxDepth)
      && Consistent(t)
      && Height(t) <= MaxDepth
      && t.name == NodeName(root.path)
  {
    ScanShape(root, 0, MaxDepth);
  }
}
