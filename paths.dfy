/**
  File paths as text with '/' as the separator, and the parts the system reads from
  them: the final component (`Path::file_name`), its extension (`Path::extension`)
  and the path of a directory entry (`Path::join`).
 */
module Paths {
  import opened Options
  import opened Strings

  type Path = string

  /** The path ends in a `.` component after a separator. */
  predicate EndsInCurDir(p: Path) {
    |p| >= 2 && p[|p| - 2] == '/' && p[|p| - 1] == '.'
  }

  /**
    The path without what ends no component: trailing separators, and `.` components
    after a separator, which `Path::components` skips.
   */
  function TrimTrailing(p: Path): (r: Path)
    ensures |r| <= |p| && r == p[..|r|]
    ensures r == [] || r[|r| - 1] != '/'
  {
    if p != [] && p[|p| - 1] == '/' then TrimTrailing(p[..|p| - 1])
    else if EndsInCurDir(p) then TrimTrailing(p[..|p| - 1])
    else p
  }

  /** The text of the last component, possibly empty. */
  function LastComponent(p: Path): (r: string)
    ensures '/' !in r
  {
    var t := TrimTrailing(p);
    t[AfterLast(t, '/')..]
  }

  /** A component that names an entry: not empty, not `.` or `..`, without a separator. */
  predicate NormalName(name: string) {
    name != [] && name != "." && name != ".." && '/' !in name
  }

  /**
    The model of `Path::file_name`: the last component once trailing separators and
    `.` components are skipped, and `None` when that is a root, a leading `.` or `..`.
   */
  function FileName(p: Path): (r: Option<string>)
    ensures r.Some? ==> NormalName(r.value)
    ensures r.Some? ==> EndsWith(TrimTrailing(p), r.value)
  {
    var last := LastComponent(p);
    if NormalName(last) then Some(last) else None
  }

  /**
    The extension of a file name, as `Path::extension` splits it: the text after the
    last '.', unless there is no '.' or the only '.' is the first character.
   */
  function NameExtension(name: string): (r: Option<string>)
    ensures r.Some? ==> '.' !in r.value && EndsWith(name, "." + r.value)
    ensures r.Some? ==> |r.value| + 1 < |name|
    ensures r.None? <==> name == ".." || AfterLast(name, '.') <= 1
  {
    var k := AfterLast(name, '.');
    if name == ".." || k <= 1 then None
    else
      assert name[k - 1..] == "." + name[k..];
      Some(name[k..])
  }

  function Extension(p: Path): (r: Option<string>)
    ensures FileName(p).None? ==> r.None?
  {
    match FileName(p)
    case None => None
    case Some(name) => NameExtension(name)
  }

  /** The model of `dir.join(name)` for a relative `name`. */
  function Join(dir: Path, name: string): (r: Path)
    ensures EndsWith(r, name)
    ensures StartsWith(r, dir)
  {
    if dir == [] || dir[|dir| - 1] == '/' then dir + name else dir + "/" + name
  }

  lemma FileNameOfJoin(dir: Path, name: string)
    requires NormalName(name)
    ensures FileName(Join(dir, name)) == Some(name)
  {
    var p := Join(dir, name);
    assert p[|p| - 1] == name[|name| - 1];
    assert TrimTrailing(p) == p;
    var k := AfterLast(p, '/');
    assert p[|p| - |name|..] == name;
    if dir != [] {
      assert p[|p| - |name| - 1] == '/';
    }
    assert k == |p| - |name|;
  }

  lemma ExtensionOfJoin(dir: Path, name: string)
    requires NormalName(name)
    ensures Extension(Join(dir, name)) == NameExtension(name)
  {
    FileNameOfJoin(dir, name);
  }

  /** A name made of a dot-free stem, one '.', and a dot-free suffix has that suffix as extension. */
  lemma ExtensionOfStem(dir: Path, stem: string, ext: string)
    requires stem != [] && '.' !in stem && '.' !in ext && '/' !in stem && '/' !in ext
    ensures Extension(Join(dir, stem + "." + ext)) == Some(ext)
  {
    var name := stem + "." + ext;
    assert name[|stem|] == '.';
    assert forall i :: 0 <= i < |stem| ==> name[i] == stem[i];
    assert forall i :: |stem| < i < |name| ==> name[i] == ext[i - |stem| - 1];
    var k := AfterLast(name, '.');
    assert k == |stem| + 1;
    assert name[0] != '.';
    assert name[k..] == ext;
    ExtensionOfJoin(dir, name);
  }

  lemma RootHasNoFileName()
    ensures FileName("/") == None && FileName("") == None
  {
  }

  lemma ParentHasNoFileName()
    ensures FileName("a/..") == None
  {
    assert AfterLastBefore("a/..", '/', 4) == 2;
  }

  lemma FileNameOfFile()
    ensures FileName("dir/test.txt") == Some("test.txt")
  {
    assert AfterLastBefore("dir/test.txt", '/', 12) == 4;
  }

  lemma FileNameOfTrailingSlash()
    ensures FileName("dir/sub/") == Some("sub")
  {
    assert TrimTrailing("dir/sub/") == "dir/sub";
    assert AfterLastBefore("dir/sub", '/', 7) == 4;
  }

  lemma CurDirSkipped()
    ensures FileName("foo.txt/.") == Some("foo.txt")
  {
    assert TrimTrailing("foo.txt/.") == "foo.txt";
    assert AfterLastBefore("foo.txt", '/', 7) == 0;
  }

  lemma CurDirAndSeparatorsSkipped()
    ensures FileName("foo.txt/.//") == Some("foo.txt")
  {
    assert "foo.txt/.//"[..10] == "foo.txt/./" && "foo.txt/./"[..9] == "foo.txt/.";
    CurDirSkipped();
  }

  lemma CurDirHasNoFileName()
    ensures FileName(".") == None && FileName("/.") == None && FileName("./") == None
  {
    assert TrimTrailing("/.") == "";
    assert TrimTrailing("./") == ".";
  }

  lemma TxtExtension()
    ensures NameExtension("test.txt") == Some("txt")
  {
    assert AfterLastBefore("test.txt", '.', 8) == 5;
  }

  lemma LastDotExtension()
    ensures NameExtension("archive.tar.gz") == Some("gz")
  {
    assert AfterLastBefore("archive.tar.gz", '.', 14) == 12;
  }

  lemma LeadingDotNoExtension()
    ensures NameExtension(".env") == None
  {
    assert AfterLastBefore(".env", '.', 4) == 1;
  }

  lemma DotlessNoExtension()
    ensures NameExtension("Makefile") == None
  {
    assert AfterLastBefore("Makefile", '.', 8) == 0;
  }

  lemma TrailingDotEmptyExtension()
    ensures NameExtension("notes.") == Some("")
  {
    assert AfterLastBefore("notes.", '.', 6) == 6;
  }
}
