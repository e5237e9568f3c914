/** The current site resolver, sitetools/sites.py: sites named by `KS_SITES`
    (a directory, or a `python` executable inside a virtualenv), an insertion
    cursor over `sys.path`, `.pth` processing once per process, and the
    centring of the site list around this interpreter's own site-packages. */
module SitetoolsSites {
  import opened Wrappers
  import opened Strings
  import opened FileSystems
  import opened PathInsertion
  import opened PthFiles
  import SitetoolsUtils

  /** `sys.version_info[:2]`. */
  datatype Version = Version(major: nat, minor: nat)

  /** "X.Y" for the running interpreter. */
  function VersionName(v: Version): string {
    NatToString(v.major) + "." + NatToString(v.minor)
  }

  /** `site_package_postfix`: `lib/pythonX.Y/site-packages`, a relative path,
      so joining it to a prefix always lands under that prefix. */
  function SitePackagePostfix(v: Version): (r: string)
    ensures StartsWith(r, "lib/python") && EndsWith(r, "/site-packages")
    ensures !StartsWith(r, "/")
  {
    var r := "lib/python" + VersionName(v) + "/site-packages";
    assert r[..|"lib/python"|] == "lib/python";
    assert r[0] == 'l';
    assert r[|r| - |"/site-packages"|..] == "/site-packages";
    r
  }

  /** A site: a directory used as it stands, or a virtualenv found above a
      `python` executable. `path` is the normalised path it was made from. */
  datatype Site = DirSite(path: string) | VenvSite(path: string, prefix: string)
  {
    /** `bin_path`: the virtualenv's `bin`, or `None` for a directory. */
    function BinPath(): Option<string> {
      if VenvSite? then Some(PathJoin(prefix, "bin")) else None
    }

    /** `python_path`: the virtualenv's site-packages, or the directory. */
    function PythonPath(v: Version): string {
      if VenvSite? then PathJoin(prefix, SitePackagePostfix(v)) else path
    }

    /** `__eq__`: sites compare by their string form, which is `path`, so a
        site also equals the plain string of its path. */
    predicate EqualsString(other: string) {
      path == other
    }
  }

  /** Why `Site(path)` fails. The first three are the `ValueError`s; `StatFailed`
      is an `OSError` other than "no such file", which propagates unchanged. */
  datatype SiteError = DoesNotExist | NotInVirtualenv | NotDirOrPython | StatFailed(path: string)

  /** The directories `os.path.dirname` visits walking up from `p`, nearest
      first, ending with the root (or "" for a relative path). The walk stops
      at a prefix made of slashes only: "/", or "//" for a path that keeps
      POSIX's two leading slashes (see `WalkAsWritten` for the source's
      guard, which stops only at "/"). */
  function Ancestors(p: string): (r: seq<string>)
    decreases |p|
  {
    if AllSlashes(p) then []
    else
      DirNameShrinks(p);
      [DirName(p)] + Ancestors(DirName(p))
  }

  /** The upward walk of `Site.__init__`, stopping at the root: the first
      proper ancestor holding the site-packages postfix. */
  function FindPrefix(fs: FileSystem, postfix: string, p: string): Option<string>
    decreases |p|
  {
    if AllSlashes(p) then None
    else
      DirNameShrinks(p);
      var up := DirName(p);
      if fs.Exists(PathJoin(up, postfix)) then Some(up) else FindPrefix(fs, postfix, up)
  }

  /** What `Site(path)` builds or raises. `os.stat` sees the path as given;
      the basename test and the walk use its normalised form. */
  function SiteOf(fs: FileSystem, v: Version, path: string): (r: Result<Site, SiteError>)
    ensures r.Ok? ==> r.value.path == fs.normPath(path)
  {
    var norm := fs.normPath(path);
    var base := BaseName(norm);
    if path in fs.denied then Err(StatFailed(path))
    else if path !in fs.nodes then Err(DoesNotExist)
    else if fs.nodes[path].Dir? then Ok(DirSite(norm))
    else if base != "python" && base != "python" + VersionName(v) then Err(NotDirOrPython)
    else match FindPrefix(fs, SitePackagePostfix(v), fs.AbsPath(norm))
      case Some(prefix) => Ok(VenvSite(norm, prefix))
      case None => Err(NotInVirtualenv)
  }

  /** What `Site(path)` decides: an `OSError` other than "no such file"
      propagates, a missing path does not exist, and a directory is a plain
      site. */
  lemma SiteOfClassifies(fs: FileSystem, v: Version, path: string)
    ensures var r := SiteOf(fs, v, path);
      (r == Err(StatFailed(path)) <==> path in fs.denied)
      && (r == Err(DoesNotExist) <==> !fs.Exists(path) && path !in fs.denied)
      && (fs.IsDir(path) <==> r == Ok(DirSite(fs.normPath(path))))
  {
  }

  /** Only a site built from an interpreter has a `bin_path`. */
  lemma SiteOfBinPath(fs: FileSystem, v: Version, path: string)
    ensures var r := SiteOf(fs, v, path);
      r.Ok? ==> (r.value.BinPath() == None <==> fs.IsDir(path))
  {
  }

  /** A virtualenv site is built from an interpreter named `python` or
      `pythonX.Y`; its prefix is an ancestor of the executable holding
      site-packages, so its `python_path` exists, and `bin_path` is
      prefix/bin. */
  lemma SiteOfVenv(fs: FileSystem, v: Version, path: string)
    ensures var r := SiteOf(fs, v, path);
      r.Ok? && r.value.VenvSite? ==>
        BaseName(fs.normPath(path)) in {"python", "python" + VersionName(v)}
        && r.value.prefix in Ancestors(fs.AbsPath(fs.normPath(path)))
        && r.value.BinPath() == Some(PathJoin(r.value.prefix, "bin"))
        && fs.Exists(r.value.PythonPath(v))
  {
    var norm, postfix := fs.normPath(path), SitePackagePostfix(v);
    var r := SiteOf(fs, v, path);
    if r.Ok? && r.value.VenvSite? {
      assert path !in fs.denied && path in fs.nodes && !fs.nodes[path].Dir?;
      assert BaseName(norm) == "python" || BaseName(norm) == "python" + VersionName(v);
      assert FindPrefix(fs, postfix, fs.AbsPath(norm)) == Some(r.value.prefix);
      FindPrefixFound(fs, postfix, fs.AbsPath(norm));
    }
  }

  /** `Site(path)`, with the upward walk as the source's loop. */
  method NewSite(fs: FileSystem, v: Version, path: string) returns (r: Result<Site, SiteError>)
    ensures r == SiteOf(fs, v, path)
  {
    var norm := fs.normPath(path);
    if path in fs.denied {
      return Err(StatFailed(path));
    }
    if path !in fs.nodes {
      return Err(DoesNotExist);
    }
    if fs.nodes[path].Dir? {
      return Ok(DirSite(norm));
    }
    var base := BaseName(norm);
    if base != "python" && base != "python" + VersionName(v) {
      return Err(NotDirOrPython);
    }
    var postfix := SitePackagePostfix(v);
    var prefix := fs.AbsPath(norm);
    while !AllSlashes(prefix)
      invariant FindPrefix(fs, postfix, prefix) == FindPrefix(fs, postfix, fs.AbsPath(norm))
      decreases |prefix|
    {
      DirNameShrinks(prefix);
      prefix := DirName(prefix);
      if fs.Exists(PathJoin(prefix, postfix)) {
        return Ok(VenvSite(norm, prefix));
      }
    }
    return Err(NotInVirtualenv);
  }

  /** Some directory of `dirs` holds the site-packages postfix. */
  predicate AnyHolds(fs: FileSystem, postfix: string, dirs: seq<string>)
    decreases |dirs|
  {
    dirs != [] && (fs.Exists(PathJoin(dirs[0], postfix)) || AnyHolds(fs, postfix, dirs[1..]))
  }

  /** `AnyHolds` on the first `k + 1` of `[d] + dirs`. */
  lemma AnyHoldsFront(fs: FileSystem, postfix: string, d: string, dirs: seq<string>, k: nat)
    requires k <= |dirs|
    ensures AnyHolds(fs, postfix, ([d] + dirs)[..k + 1]) <==>
      fs.Exists(PathJoin(d, postfix)) || AnyHolds(fs, postfix, dirs[..k])
  {
    var front := ([d] + dirs)[..k + 1];
    assert front[0] == d;
    assert front[1..] == dirs[..k];
  }

  /** One step of the walk, and of the ancestors it visits. */
  lemma FindPrefixStep(fs: FileSystem, postfix: string, p: string)
    requires !AllSlashes(p)
    ensures Ancestors(p) == [DirName(p)] + Ancestors(DirName(p))
    ensures FindPrefix(fs, postfix, p) ==
      if fs.Exists(PathJoin(DirName(p), postfix)) then Some(DirName(p)) else FindPrefix(fs, postfix, DirName(p))
  {
  }

  /** No prefix is found exactly when no ancestor holds site-packages. */
  lemma {:induction false} FindPrefixNone(fs: FileSystem, postfix: string, p: string)
    ensures FindPrefix(fs, postfix, p).None? <==> !AnyHolds(fs, postfix, Ancestors(p))
    decreases |p|
  {
    if !AllSlashes(p) {
      FindPrefixStep(fs, postfix, p);
      DirNameShrinks(p);
      var up := DirName(p);
      FindPrefixNone(fs, postfix, up);
      var a := Ancestors(p);
      assert a[0] == up && a[1..] == Ancestors(up);
    }
  }

  /** A prefix found is an ancestor holding site-packages. */
  lemma {:induction false} FindPrefixFound(fs: FileSystem, postfix: string, p: string)
    ensures var r := FindPrefix(fs, postfix, p);
      r.Some? ==> r.value in Ancestors(p) && fs.Exists(PathJoin(r.value, postfix))
    decreases |p|
  {
    if !AllSlashes(p) {
      FindPrefixStep(fs, postfix, p);
      DirNameShrinks(p);
      FindPrefixFound(fs, postfix, DirName(p));
    }
  }

  /** The prefix found is the nearest ancestor holding site-packages. */
  lemma {:induction false} FindPrefixNearest(fs: FileSystem, postfix: string, p: string, k: nat)
    requires k < |Ancestors(p)| && fs.Exists(PathJoin(Ancestors(p)[k], postfix))
    requires !AnyHolds(fs, postfix, Ancestors(p)[..k])
    ensures FindPrefix(fs, postfix, p) == Some(Ancestors(p)[k])
    decreases |p|
  {
    assert !AllSlashes(p);
    NearestFirst(fs, postfix, p);
    DirNameShrinks(p);
    if k > 0 {
      NearestFromParent(fs, postfix, p, k);
      FindPrefixNearest(fs, postfix, DirName(p), k - 1);
    }
  }

  /** The first step of the walk and the first ancestor it visits. */
  lemma NearestFirst(fs: FileSystem, postfix: string, p: string)
    requires !AllSlashes(p)
    ensures |Ancestors(p)| >= 1 && Ancestors(p)[0] == DirName(p)
    ensures FindPrefix(fs, postfix, p) ==
      if fs.Exists(PathJoin(DirName(p), postfix)) then Some(DirName(p)) else FindPrefix(fs, postfix, DirName(p))
  {
    FindPrefixStep(fs, postfix, p);
  }

  /** The conditions of `FindPrefixNearest` for `k > 0`, seen from the
      parent: the parent does not hold site-packages, and the ancestor sits
      one place earlier among the parent's ancestors. */
  lemma NearestFromParent(fs: FileSystem, postfix: string, p: string, k: nat)
    requires 0 < k < |Ancestors(p)| && fs.Exists(PathJoin(Ancestors(p)[k], postfix))
    requires !AnyHolds(fs, postfix, Ancestors(p)[..k])
    ensures var up := DirName(p); var b := Ancestors(up);
      !fs.Exists(PathJoin(up, postfix)) && k - 1 < |b| && b[k - 1] == Ancestors(p)[k]
      && fs.Exists(PathJoin(b[k - 1], postfix)) && !AnyHolds(fs, postfix, b[..k - 1])
  {
    assert !AllSlashes(p);
    FindPrefixStep(fs, postfix, p);
    var up := DirName(p);
    var b := Ancestors(up);
    AnyHoldsFront(fs, postfix, up, b, k - 1);
    assert Ancestors(p)[k] == b[k - 1];
  }

  /** The walk from an absolute path climbs through absolute directories only
      and ends at a root made of slashes, which is "/" unless the path starts
      with "//". */
  lemma {:induction false} AncestorsEndAtRoot(p: string)
    requires StartsWith(p, "/") && !AllSlashes(p)
    ensures var a := Ancestors(p); |a| >= 1 && AllSlashes(a[|a| - 1])
    ensures var a := Ancestors(p); !StartsWith(p, "//") ==> a[|a| - 1] == "/"
    ensures forall k :: 0 <= k < |Ancestors(p)| ==> StartsWith(Ancestors(p)[k], "/")
    decreases |p|
  {
    var up := DirName(p);
    AncestorsStep(p);
    DirNameDoubleSlash(p);
    SlashesStartDouble(up);
    if !AllSlashes(up) {
      AncestorsEndAtRoot(up);
    }
  }

  /** The ancestors of a path are its `dirname` followed by the ancestors of
      that, and the `dirname` keeps the path absolute. */
  lemma AncestorsStep(p: string)
    requires !AllSlashes(p)
    ensures var a, up := Ancestors(p), DirName(p);
      |a| == 1 + |Ancestors(up)| && a[0] == up
      && (AllSlashes(up) ==> |a| == 1)
      && (forall k :: 1 <= k < |a| ==> a[k] == Ancestors(up)[k - 1])
      && (StartsWith(p, "/") ==> StartsWith(up, "/"))
  {
    DirNameShrinks(p);
  }

  /** The walk of `Site.__init__` exactly as written, `while prefix and prefix
      != '/'`, allowed at most `fuel` steps: `Some(found)` when it ends,
      `None` when it has not ended within them. */
  function WalkAsWritten(fs: FileSystem, postfix: string, p: string, fuel: nat): (r: Option<Option<string>>)
    ensures r.Some? && r.value.Some? ==> fs.Exists(PathJoin(r.value.value, postfix))
    decreases fuel
  {
    if p == "" || p == "/" then Some(None)
    else if fuel == 0 then None
    else
      var up := DirName(p);
      if fs.Exists(PathJoin(up, postfix)) then Some(Some(up)) else WalkAsWritten(fs, postfix, up, fuel - 1)
  }

  /** On a path that does not start with "//" the loop as written ends
      within `|p|` steps and finds what `FindPrefix` finds. */
  lemma {:induction false} AsWrittenWalkAgrees(fs: FileSystem, postfix: string, p: string, fuel: nat)
    requires !StartsWith(p, "//") && fuel >= |p|
    ensures WalkAsWritten(fs, postfix, p, fuel) == Some(FindPrefix(fs, postfix, p))
    decreases |p|
  {
    NotRootWalks(p);
    if p != "" && p != "/" {
      FindPrefixUnfold(fs, postfix, p);
      DirNameShrinks(p);
      DirNameDoubleSlash(p);
      var up := DirName(p);
      if !fs.Exists(PathJoin(up, postfix)) {
        AsWrittenWalkAgrees(fs, postfix, up, fuel - 1);
      }
    }
  }

  /** The guard as written and the corrected guard agree on paths that do
      not start with "//". */
  lemma NotRootWalks(p: string)
    ensures p == "" || p == "/" ==> AllSlashes(p)
    ensures p != "" && p != "/" && !StartsWith(p, "//") ==> !AllSlashes(p)
  {
    SlashesStartDouble(p);
    if |p| == 1 {
      assert p == [p[0]];
    }
  }

  /** One step of the corrected walk. */
  lemma FindPrefixUnfold(fs: FileSystem, postfix: string, p: string)
    requires !AllSlashes(p)
    ensures FindPrefix(fs, postfix, p) ==
      if fs.Exists(PathJoin(DirName(p), postfix)) then Some(DirName(p)) else FindPrefix(fs, postfix, DirName(p))
  {
  }

  /** At a prefix of two or more slashes the loop as written is stuck: the
      guard still holds and `dirname` gives the prefix back. */
  lemma {:induction false} SlashesStuck(fs: FileSystem, postfix: string, p: string, fuel: nat)
    requires AllSlashes(p) && |p| >= 2 && !fs.Exists(PathJoin(p, postfix))
    ensures WalkAsWritten(fs, postfix, p, fuel) == None
    decreases fuel
  {
    DirNameOfSlashes(p);
    if fuel > 0 {
      SlashesStuck(fs, postfix, p, fuel - 1);
    }
  }

  /** From a path starting with "//" with no ancestor holding site-packages
      the loop as written never ends, however many steps it is given, where
      `FindPrefix` reports "file is not within a virtualenv". */
  lemma {:induction false} DoubleSlashNeverEnds(fs: FileSystem, postfix: string, p: string, fuel: nat)
    requires StartsWith(p, "//") && !AllSlashes(p) && !AnyHolds(fs, postfix, Ancestors(p))
    ensures WalkAsWritten(fs, postfix, p, fuel) == None
    ensures FindPrefix(fs, postfix, p) == None
    decreases |p|
  {
    FindPrefixNone(fs, postfix, p);
    FindPrefixStep(fs, postfix, p);
    DirNameShrinks(p);
    var up := DirName(p);
    var a := Ancestors(p);
    assert a[0] == up && a[1..] == Ancestors(up);
    assert p[..2] == "//";
    DirNameDoubleSlash(p);
    if fuel > 0 {
      if AllSlashes(up) {
        SlashesStuck(fs, postfix, up, fuel - 1);
      } else {
        DoubleSlashNeverEnds(fs, postfix, up, fuel - 1);
      }
    }
  }

  /** Nothing holds site-packages on a file system where nothing exists. */
  lemma {:induction false} NothingHolds(fs: FileSystem, postfix: string, dirs: seq<string>)
    requires fs.nodes == map[]
    ensures !AnyHolds(fs, postfix, dirs)
    decreases |dirs|
  {
    if dirs != [] {
      NothingHolds(fs, postfix, dirs[1..]);
    }
  }

  /** `KS_SITES=//usr/bin/python` where `abspath` keeps the two leading
      slashes and no site-packages is found: the loop as written spins at
      "//" for ever. */
  lemma DoubleSlashShown(fs: FileSystem, postfix: string, fuel: nat)
    requires fs.nodes == map[]
    ensures WalkAsWritten(fs, postfix, "//usr/bin/python", fuel) == None
  {
    var p := "//usr/bin/python";
    assert p[2] == 'u';
    assert p[..2] == "//";
    NothingHolds(fs, postfix, Ancestors(p));
    DoubleSlashNeverEnds(fs, postfix, p, fuel);
  }

  /** Two sites compare equal exactly when the paths they were made from
      normalise to the same string, whatever kind of site each one is. */
  lemma SitesEqualByNormPath(fs: FileSystem, v: Version, p: string, q: string)
    requires SiteOf(fs, v, p).Ok? && SiteOf(fs, v, q).Ok?
    ensures SiteOf(fs, v, p).value.EqualsString(SiteOf(fs, v, q).value.path) <==> fs.normPath(p) == fs.normPath(q)
  {
  }

  /** What `SysPathInserter(index)` is given: nothing, an integer, or a string. */
  datatype IndexArg = NoIndex | Index(i: int) | Entry(name: string)

  /** The starting cursor: an integer is used as is; a string is looked up on
      `sys.path`, and append mode is the fallback when it is absent. */
  function InitialCursor(sysPath: seq<string>, index: IndexArg): (c: Cursor)
    ensures index.NoIndex? ==> c == Append
    ensures index.Index? ==> c == At(index.i)
    ensures index.Entry? ==> (c.Append? <==> index.name !in sysPath)
    ensures index.Entry? && c.At? ==>
      0 <= c.index < |sysPath| && sysPath[c.index] == index.name && index.name !in sysPath[..c.index]
  {
    match index
    case NoIndex => Append
    case Index(i) => At(i)
    case Entry(name) =>
      match IndexOf(sysPath, name)
      case Some(k) => At(k)
      case None => Append
  }

  /** `SysPathInserter`: inserts a series of paths into `sys.path` at a
      cursor that moves right after each insertion, or appends. */
  class SysPathInserter {
    var cursor: Cursor
    /** A warning was issued because the `before` entry was not found. */
    const warned: bool

    constructor (interp: Interpreter, index: IndexArg)
      ensures cursor == InitialCursor(interp.sysPath, index)
      ensures warned <==> index.Entry? && index.name !in interp.sysPath
    {
      match index {
        case NoIndex =>
          cursor := Append;
          warned := false;
        case Index(i) =>
          cursor := At(i);
          warned := false;
        case Entry(name) =>
          var k := IndexOf(interp.sysPath, name);
          if k.Some? {
            cursor := At(k.value);
            warned := false;
          } else {
            cursor := Append;
            warned := true;
          }
      }
    }

    /** `add(path)`: the absolute path goes in only when it exists and is not
        on `sys.path` yet. */
    method Add(interp: Interpreter, fs: FileSystem, path: string)
      modifies this, interp`sysPath
      ensures (interp.sysPath, cursor) == AddOne(old(interp.sysPath), old(cursor), fs, path)
    {
      var p := fs.AbsPath(path);
      if !fs.Exists(p) {
        return;
      }
      if p in interp.sysPath {
        return;
      }
      match cursor {
        case At(i) =>
          interp.sysPath := PyInsert(interp.sysPath, i, p);
          cursor := At(i + 1);
        case Append =>
          interp.sysPath := interp.sysPath + [p];
      }
    }
  }

  /** One pass of the line loop of `_process_pth`: the stripped line is
      skipped, run, or joined to `base` and added through the inserter. */
  method PthLine(inserter: SysPathInserter, interp: Interpreter, fs: FileSystem, base: string, fileName: string, raw: string)
    modifies inserter, interp`sysPath, interp`executed
    ensures var d := Classify(fileName, raw);
      interp.executed == old(interp.executed) + Run(d)
      && (interp.sysPath, inserter.cursor) == AddAll(old(interp.sysPath), old(inserter.cursor), fs, Added(base, d))
  {
    var line := Strip(raw);
    ghost var d := Classify(fileName, raw);
    if line == [] || StartsWith(line, "#") {
      assert d == Ignore;
    } else if StartsWith(line, "import") {
      if fileName == "easy-install.pth" && Contains(line, "sys.__plen") {
        assert d == Ignore;
      } else {
        assert d == Exec(line);
        interp.executed := interp.executed + [line];
      }
    } else {
      assert d == AddDir(line);
      AddAllSnoc(interp.sysPath, inserter.cursor, fs, [], PathJoin(base, line));
      assert [] + [PathJoin(base, line)] == Added(base, d);
      inserter.Add(interp, fs, PathJoin(base, line));
    }
  }

  /** `_process_pth(path, base, file_name)`: marks the file processed, skips it
      silently when it cannot be opened, then works through its lines. */
  method ProcessPth(inserter: SysPathInserter, interp: Interpreter, fs: FileSystem, base: string, fileName: string)
      returns (ghost f: Feed)
    modifies inserter, interp
    ensures f == PthFeed(fs, SkipUnreadable, old(interp.processedPths), base, fileName)
    ensures interp.processedPths == f.processed
      && interp.executed == old(interp.executed) + f.execs
      && (interp.sysPath, inserter.cursor) == AddAll(old(interp.sysPath), old(inserter.cursor), fs, f.paths)
  {
    f := PthFeed(fs, SkipUnreadable, interp.processedPths, base, fileName);
    var pth := fs.AbsPath(PathJoin(base, fileName));
    if pth !in interp.processedPths {
      interp.processedPths := interp.processedPths + {pth};
      if fs.Readable(pth) {
        PthLines(inserter, interp, fs, base, fileName, fs.Lines(pth));
      }
    }
  }

  /** The line loop of `_process_pth`, over the lines of a file that opened. */
  method PthLines(inserter: SysPathInserter, interp: Interpreter, fs: FileSystem, base: string, fileName: string, lines: seq<string>)
    modifies inserter, interp`sysPath, interp`executed
    ensures interp.executed == old(interp.executed) + PthExecs(fileName, lines)
      && (interp.sysPath, inserter.cursor) == AddAll(old(interp.sysPath), old(inserter.cursor), fs, PthPaths(base, fileName, lines))
  {
    ghost var sp0, c0, e0 := interp.sysPath, inserter.cursor, interp.executed;
    ghost var paths: seq<string>, execs: seq<string> := [], [];
    var i := 0;
    while i < |lines|
      invariant 0 <= i <= |lines|
      invariant paths == PthPaths(base, fileName, lines[..i])
      invariant execs == PthExecs(fileName, lines[..i])
      invariant interp.executed == e0 + execs
      invariant (interp.sysPath, inserter.cursor) == AddAll(sp0, c0, fs, paths)
    {
      PthStep(base, fileName, lines, i);
      ghost var d := Classify(fileName, lines[i]);
      PthLine(inserter, interp, fs, base, fileName, lines[i]);
      AddAllConcat(sp0, c0, fs, paths, Added(base, d));
      ConcatAssoc(e0, execs, Run(d));
      paths, execs := paths + Added(base, d), execs + Run(d);
      i := i + 1;
    }
    assert lines[..i] == lines;
  }

  /** One pass of the listing loop of `add_site_dir`: a dotfile is skipped, a
      `*.pth` entry is processed against the directory, and an entry holding
      `__site__.pth` has that file processed against the entry. */
  method SiteEntry(inserter: SysPathInserter, interp: Interpreter, fs: FileSystem, dirName: string, entry: string)
    modifies inserter, interp
    ensures var f := EntryFeed(fs, SkipUnreadable, old(interp.processedPths), dirName, entry);
      interp.processedPths == f.processed
      && interp.executed == old(interp.executed) + f.execs
      && (interp.sysPath, inserter.cursor) == AddAll(old(interp.sysPath), old(inserter.cursor), fs, f.paths)
  {
    if StartsWith(entry, ".") {
      return;
    }
    ghost var sp0, c0, e0, p0 := interp.sysPath, inserter.cursor, interp.executed, interp.processedPths;
    ghost var top := Nothing(p0);
    if EndsWith(entry, ".pth") {
      top := ProcessPth(inserter, interp, fs, dirName, entry);
    } else {
      assert e0 + top.execs == e0;
    }
    ghost var e1 := interp.executed;
    var sub := PathJoin(dirName, entry);
    ghost var nested := Nothing(top.processed);
    if fs.Exists(PathJoin(sub, "__site__.pth")) {
      nested := ProcessPth(inserter, interp, fs, sub, "__site__.pth");
    } else {
      assert e1 + nested.execs == e1;
      assert top.paths + nested.paths == top.paths;
    }
    EntrySplit(fs, p0, dirName, entry, top, nested);
    AddAllConcat(sp0, c0, fs, top.paths, nested.paths);
    ConcatAssoc(e0, top.execs, nested.execs);
  }

  /** The listing loop of `add_site_dir`, entry by entry in listing order. */
  method SiteListing(inserter: SysPathInserter, interp: Interpreter, fs: FileSystem, dirName: string, entries: seq<string>)
    modifies inserter, interp
    ensures var f := ListingFeed(fs, SkipUnreadable, old(interp.processedPths), dirName, entries);
      interp.processedPths == f.processed
      && interp.executed == old(interp.executed) + f.execs
      && (interp.sysPath, inserter.cursor) == AddAll(old(interp.sysPath), old(inserter.cursor), fs, f.paths)
  {
    ghost var sp0, c0, e0, p0 := interp.sysPath, inserter.cursor, interp.executed, interp.processedPths;
    ghost var listed := Nothing(p0);
    var i := 0;
    while i < |entries|
      invariant 0 <= i <= |entries|
      invariant listed == ListingFeed(fs, SkipUnreadable, p0, dirName, entries[..i])
      invariant interp.processedPths == listed.processed
      invariant interp.executed == e0 + listed.execs
      invariant (interp.sysPath, inserter.cursor) == AddAll(sp0, c0, fs, listed.paths)
    {
      ListingStep(fs, SkipUnreadable, p0, dirName, entries, i);
      ghost var g := EntryFeed(fs, SkipUnreadable, listed.processed, dirName, entries[i]);
      SiteEntry(inserter, interp, fs, dirName, entries[i]);
      AddAllConcat(sp0, c0, fs, listed.paths, g.paths);
      ConcatAssoc(e0, listed.execs, g.execs);
      listed := Then(listed, g);
      i := i + 1;
    }
    assert entries[..i] == entries;
  }

  /** The body of `add_site_dir` once its inserter is chosen and the
      directory exists: the directory itself goes in first, then, when it is
      a directory, its listing; the result says whether an exception left it
      (the path is not a directory, so `os.listdir` raises). */
  method ExistingSiteDir(ins: SysPathInserter, interp: Interpreter, fs: FileSystem, dirName: string) returns (raised: bool)
    requires fs.Exists(dirName)
    modifies ins, interp
    ensures var f := SiteDirFeed(fs, SkipUnreadable, old(interp.processedPths), dirName);
      interp.processedPths == f.processed
      && interp.executed == old(interp.executed) + f.execs
      && raised == f.failed
      && (interp.sysPath, ins.cursor) == AddAll(old(interp.sysPath), old(ins.cursor), fs, f.paths)
  {
    ghost var sp0, c0, p0 := interp.sysPath, ins.cursor, interp.processedPths;
    ins.Add(interp, fs, dirName);
    assert [dirName][..0] == [];
    if fs.Listable(dirName) {
      ghost var listed := ListingFeed(fs, SkipUnreadable, p0, dirName, fs.Listing(dirName));
      SiteDirFeedOfDir(fs, SkipUnreadable, p0, dirName);
      SiteListing(ins, interp, fs, dirName, fs.Listing(dirName));
      AddAllConcat(sp0, c0, fs, [dirName], listed.paths);
      raised := false;
    } else {
      SiteDirFeedOfFile(fs, SkipUnreadable, p0, dirName);
      raised := true;
    }
  }

  /** The body of `add_site_dir` once its inserter is chosen: nothing happens
      for a missing directory. */
  method SiteDirWith(ins: SysPathInserter, interp: Interpreter, fs: FileSystem, dirName: string) returns (raised: bool)
    modifies ins, interp
    ensures var f := SiteDirFeed(fs, SkipUnreadable, old(interp.processedPths), dirName);
      interp.processedPths == f.processed
      && interp.executed == old(interp.executed) + f.execs
      && raised == f.failed
      && (interp.sysPath, ins.cursor) == AddAll(old(interp.sysPath), old(ins.cursor), fs, f.paths)
  {
    if fs.Exists(dirName) {
      raised := ExistingSiteDir(ins, interp, fs, dirName);
    } else {
      raised := false;
      assert interp.executed + [] == interp.executed;
    }
  }

  /** `add_site_dir(dir_name, before, _path)`: nothing for a missing
      directory; otherwise it uses the given inserter, or a fresh one at
      `before`. Also returns whether that fresh inserter warned that `before`
      is not on `sys.path`. */
  method AddSiteDir(fs: FileSystem, interp: Interpreter, dirName: string, before: IndexArg, inserter: SysPathInserter?)
      returns (raised: bool, warned: bool)
    modifies interp, inserter
    ensures var f := SiteDirFeed(fs, SkipUnreadable, old(interp.processedPths), dirName);
      var c0 := old(if inserter != null then inserter.cursor else InitialCursor(interp.sysPath, before));
      var r := AddAll(old(interp.sysPath), c0, fs, f.paths);
      interp.processedPths == f.processed
      && interp.executed == old(interp.executed) + f.execs
      && raised == f.failed
      && interp.sysPath == r.0
      && (inserter != null ==> inserter.cursor == r.1)
    ensures warned <==> fs.Exists(dirName) && inserter == null && before.Entry? && before.name !in old(interp.sysPath)
  {
    if !fs.Exists(dirName) {
      raised, warned := false, false;
      assert interp.executed + [] == interp.executed;
      return;
    }
    var ins := inserter;
    warned := false;
    if ins == null {
      ins := new SysPathInserter(interp, before);
      warned := ins.warned;
    }
    raised := ExistingSiteDir(ins, interp, fs, dirName);
  }

  /** The site directories of a list worked through in order; the first
      exception ends the list. */
  function DirsFeed(fs: FileSystem, processed: set<string>, dirs: seq<string>): (f: Feed)
    ensures processed <= f.processed
  {
    if dirs == [] then Nothing(processed)
    else
      var init := DirsFeed(fs, processed, dirs[..|dirs| - 1]);
      Then(init, SiteDirFeed(fs, SkipUnreadable, init.processed, dirs[|dirs| - 1]))
  }

  /** Once a directory of the list has raised, later ones change nothing. */
  lemma {:induction false} DirsFeedStops(fs: FileSystem, processed: set<string>, dirs: seq<string>, i: nat, j: nat)
    requires i <= j <= |dirs|
    requires DirsFeed(fs, processed, dirs[..i]).failed
    ensures DirsFeed(fs, processed, dirs[..j]) == DirsFeed(fs, processed, dirs[..i])
    decreases j
  {
    if j > i {
      DirsFeedStops(fs, processed, dirs, i, j - 1);
      DirsFeedStep(fs, processed, dirs, j - 1);
    }
  }

  /** One more directory of the list. */
  lemma DirsFeedStep(fs: FileSystem, processed: set<string>, dirs: seq<string>, i: nat)
    requires i < |dirs|
    ensures var init := DirsFeed(fs, processed, dirs[..i]);
      DirsFeed(fs, processed, dirs[..i + 1]) == Then(init, SiteDirFeed(fs, SkipUnreadable, init.processed, dirs[i]))
  {
    assert dirs[..i + 1][..i] == dirs[..i];
  }

  /** Where `add_site_list` switches from prepending to appending: the first
      position of our own site-packages, or the end of the list. */
  function SplitIndex(dirList: seq<string>, ours: string): (k: nat)
    ensures k <= |dirList|
    ensures ours !in dirList[..k]
    ensures k < |dirList| ==> dirList[k] == ours
    ensures k == |dirList| <==> ours !in dirList
  {
    match IndexOf(dirList, ours)
    case Some(k) => k
    case None => assert dirList[..|dirList|] == dirList; |dirList|
  }

  /** `our_site_packages`: this interpreter's own site-packages, absolute. */
  function OurSitePackages(fs: FileSystem, sysPrefix: string, v: Version): string {
    fs.AbsPath(PathJoin(sysPrefix, SitePackagePostfix(v)))
  }

  /** The two halves of the list as `add_site_list` feeds them: before our
      own site-packages through the index-0 inserter, the rest appended. */
  function ListHalves(fs: FileSystem, processed: set<string>, dirList: seq<string>, ours: string): (Feed, Feed) {
    var k := SplitIndex(dirList, ours);
    var f1 := DirsFeed(fs, processed, dirList[..k]);
    (f1, DirsFeed(fs, f1.processed, dirList[k..]))
  }

  /** `sys.path` after `add_site_list`: the first half through a cursor that
      starts at index 0, then, unless it raised, the second half appended. */
  function ListPath(sysPath: seq<string>, fs: FileSystem, halves: (Feed, Feed)): seq<string> {
    var s1 := AddAll(sysPath, At(0), fs, halves.0.paths).0;
    if halves.0.failed then s1 else AddAll(s1, Append, fs, halves.1.paths).0
  }

  /** Site directories worked through in order with one inserter; the first
      exception ends the loop and is reported. */
  method SiteDirs(ins: SysPathInserter, interp: Interpreter, fs: FileSystem, dirs: seq<string>) returns (raised: bool)
    modifies ins, interp
    ensures var f := DirsFeed(fs, old(interp.processedPths), dirs);
      interp.processedPths == f.processed
      && interp.executed == old(interp.executed) + f.execs
      && raised == f.failed
      && (interp.sysPath, ins.cursor) == AddAll(old(interp.sysPath), old(ins.cursor), fs, f.paths)
  {
    ghost var sp0, c0, e0, p0 := interp.sysPath, ins.cursor, interp.executed, interp.processedPths;
    ghost var done := Nothing(p0);
    raised := false;
    var i := 0;
    while i < |dirs| && !raised
      invariant 0 <= i <= |dirs|
      invariant done == DirsFeed(fs, p0, dirs[..i]) && raised == done.failed
      invariant interp.processedPths == done.processed
      invariant interp.executed == e0 + done.execs
      invariant (interp.sysPath, ins.cursor) == AddAll(sp0, c0, fs, done.paths)
    {
      DirsFeedStep(fs, p0, dirs, i);
      ghost var g := SiteDirFeed(fs, SkipUnreadable, done.processed, dirs[i]);
      raised := SiteDirWith(ins, interp, fs, dirs[i]);
      AddAllConcat(sp0, c0, fs, done.paths, g.paths);
      ConcatAssoc(e0, done.execs, g.execs);
      done := Then(done, g);
      i := i + 1;
    }
    if raised {
      DirsFeedStops(fs, p0, dirs, i, |dirs|);
    }
    assert dirs[..|dirs|] == dirs;
  }

  /** `add_site_list(dir_list)`: directories before our own site-packages go
      through an inserter at index 0, ours and the rest are appended; returns
      whether an exception left it. Both inserters are made before the loop,
      so the second one appends whatever the first half did to `sys.path`. */
  method AddSiteList(fs: FileSystem, interp: Interpreter, sysPrefix: string, v: Version, dirs: seq<string>)
      returns (raised: bool)
    modifies interp
    ensures var dirList := AbsPaths(fs, dirs);
      var h := ListHalves(fs, old(interp.processedPths), dirList, OurSitePackages(fs, sysPrefix, v));
      var f := Then(h.0, h.1);
      interp.processedPths == f.processed
      && interp.executed == old(interp.executed) + f.execs
      && raised == f.failed
      && interp.sysPath == ListPath(old(interp.sysPath), fs, h)
  {
    var ours := OurSitePackages(fs, sysPrefix, v);
    var dirList := AbsPaths(fs, dirs);
    var prepend := new SysPathInserter(interp, Index(0));
    var append := new SysPathInserter(interp, NoIndex);
    var k := match IndexOf(dirList, ours) case Some(j) => j case None => |dirList|;
    assert k == SplitIndex(dirList, ours);
    raised := SiteHalves(prepend, append, interp, fs, dirList[..k], dirList[k..]);
  }

  /** The loop of `add_site_list` over the list cut in two, the first half
      through an inserter at index 0 and, unless it raised, the second half
      through an appending one. */
  method SiteHalves(prepend: SysPathInserter, append: SysPathInserter, interp: Interpreter, fs: FileSystem,
                    first: seq<string>, second: seq<string>) returns (raised: bool)
    requires prepend != append && prepend.cursor == At(0) && append.cursor == Append
    modifies prepend, append, interp
    ensures var f1 := DirsFeed(fs, old(interp.processedPths), first);
      var f2 := DirsFeed(fs, f1.processed, second);
      var f := Then(f1, f2);
      interp.processedPths == f.processed
      && interp.executed == old(interp.executed) + f.execs
      && raised == f.failed
      && interp.sysPath == ListPath(old(interp.sysPath), fs, (f1, f2))
  {
    ghost var e0 := interp.executed;
    ghost var f1 := DirsFeed(fs, interp.processedPths, first);
    raised := SiteDirs(prepend, interp, fs, first);
    if !raised {
      ghost var f2 := DirsFeed(fs, f1.processed, second);
      raised := SiteDirs(append, interp, fs, second);
      ConcatAssoc(e0, f1.execs, f2.execs);
    }
  }

  /** The centring of `add_site_list`: the first half's new entries form one
      block at the front of `sys.path`, the second half's new entries follow
      everything already there, and when our own site-packages is not in the
      list every entry is prepended. */
  lemma {:induction false} ListPathCentered(sysPath: seq<string>, fs: FileSystem, processed: set<string>, dirList: seq<string>, ours: string)
    ensures var h := ListHalves(fs, processed, dirList, ours);
      var front := Fresh(sysPath, fs, h.0.paths);
      ListPath(sysPath, fs, h) ==
        front + sysPath + (if h.0.failed then [] else Fresh(front + sysPath, fs, h.1.paths))
    ensures ours !in dirList ==>
      var h := ListHalves(fs, processed, dirList, ours);
      h.0 == DirsFeed(fs, processed, dirList) && h.1.paths == [] && h.1.execs == []
  {
    var h := ListHalves(fs, processed, dirList, ours);
    var front := Fresh(sysPath, fs, h.0.paths);
    BlockInsert(sysPath, 0, fs, h.0.paths);
    assert sysPath[..0] + front + sysPath[0..] == front + sysPath;
    AppendAll(front + sysPath, fs, h.1.paths);
    if ours !in dirList {
      assert dirList[..|dirList|] == dirList;
      assert dirList[|dirList|..] == [];
    }
  }

  /** Adding the same site directory a second time (through the cursor the
      first pass left) reads nothing, runs nothing and leaves `sys.path` and
      the cursor as they were. */
  lemma {:induction false} AddSiteDirTwice(fs: FileSystem, processed: set<string>, dirName: string, sysPath: seq<string>, c: Cursor)
    requires !SiteDirFeed(fs, SkipUnreadable, processed, dirName).failed
    ensures var first := SiteDirFeed(fs, SkipUnreadable, processed, dirName);
      var r := AddAll(sysPath, c, fs, first.paths);
      var second := SiteDirFeed(fs, SkipUnreadable, first.processed, dirName);
      AddAll(r.0, r.1, fs, second.paths) == r
      && second.execs == [] && second.processed == first.processed && !second.failed
  {
    var first := SiteDirFeed(fs, SkipUnreadable, processed, dirName);
    var r := AddAll(sysPath, c, fs, first.paths);
    SecondPassReadsNothing(fs, SkipUnreadable, processed, dirName);
    if fs.Exists(dirName) {
      AddAllKeeps(sysPath, c, fs, first.paths);
      AddAllSnoc(r.0, r.1, fs, [], dirName);
      assert [] + [dirName] == [dirName];
    }
  }

  /** What stops `_setup` before `add_site_list`: an `OSError` of `Site` other
      than "no such file", or, as written, the unbound `site` of an invalid
      first entry. */
  datatype SetupError = StatError(path: string) | UnboundSite

  /** The site list `_setup` builds, AS WRITTEN: the `append` sits outside the
      `try`, so an invalid entry appends the previous entry's site again, and
      an invalid first entry finds `site` unbound. `last` is the value `site`
      holds from the previous iteration. */
  function SitePathsAsWritten(fs: FileSystem, v: Version, candidates: seq<string>, last: Option<Site>): (r: Result<seq<string>, SetupError>)
    ensures r.Ok? ==> |r.value| == |candidates|
    decreases |candidates|
  {
    if candidates == [] then Ok([])
    else
      var s := SiteOf(fs, v, candidates[0]);
      if s.Err? && s.error.StatFailed? then Err(StatError(s.error.path))
      else
        var site := if s.Ok? then Some(s.value) else last;
        if site.None? then Err(UnboundSite)
        else match SitePathsAsWritten(fs, v, candidates[1..], site)
          case Ok(rest) => Ok([site.value.PythonPath(v)] + rest)
          case Err(e) => Err(e)
  }

  /** The site list `_setup` evidently intends: an invalid entry is logged and
      skipped; an `OSError` still ends `_setup`. */
  function SitePaths(fs: FileSystem, v: Version, candidates: seq<string>): (r: Result<seq<string>, SetupError>)
    ensures r.Ok? ==> |r.value| <= |candidates|
    ensures r.Err? ==> r.error.StatError?
    decreases |candidates|
  {
    if candidates == [] then Ok([])
    else
      var init := candidates[..|candidates| - 1];
      var c := candidates[|candidates| - 1];
      match SitePaths(fs, v, init)
      case Err(e) => Err(e)
      case Ok(sites) =>
        match SiteOf(fs, v, c)
        case Ok(site) => Ok(sites + [site.PythonPath(v)])
        case Err(StatFailed(p)) => Err(StatError(p))
        case Err(_) => Ok(sites)
  }

  /** The site list fails exactly when `os.stat` fails on an entry, and then
      names the first such entry. */
  lemma {:induction false} SitePathsFails(fs: FileSystem, v: Version, candidates: seq<string>)
    ensures var r := SitePaths(fs, v, candidates);
      (r.Err? <==> exists i :: 0 <= i < |candidates| && candidates[i] in fs.denied)
      && (r.Err? ==> exists i :: (0 <= i < |candidates| && candidates[i] == r.error.path
            && candidates[i] in fs.denied && forall j :: 0 <= j < i ==> candidates[j] !in fs.denied))
    decreases |candidates|
  {
    if candidates != [] {
      var n := |candidates| - 1;
      var init := candidates[..n];
      SitePathsFails(fs, v, init);
      SitePathsStep(fs, v, candidates);
      assert forall j :: 0 <= j < n ==> candidates[j] == init[j];
    }
  }

  /** One more entry: the list fails when it already failed, or when `stat`
      fails on the new entry. */
  lemma SitePathsStep(fs: FileSystem, v: Version, candidates: seq<string>)
    requires candidates != []
    ensures var r := SitePaths(fs, v, candidates);
      var before := SitePaths(fs, v, candidates[..|candidates| - 1]);
      var c := candidates[|candidates| - 1];
      (r.Err? <==> before.Err? || c in fs.denied)
      && (r.Err? ==> r.error == if before.Err? then before.error else StatError(c))
  {
    var c := candidates[|candidates| - 1];
    SiteOfClassifies(fs, v, c);
    var s := SiteOf(fs, v, c);
    if s.Err? && s.error.StatFailed? {
      assert c in fs.denied && s.error.path == c;
    }
  }

  /** Some entry of `candidates` is a valid site whose python path is `p`. */
  ghost predicate PathOfSomeEntry(fs: FileSystem, v: Version, candidates: seq<string>, p: string) {
    exists i :: 0 <= i < |candidates| && SiteOf(fs, v, candidates[i]).Ok? && SiteOf(fs, v, candidates[i]).value.PythonPath(v) == p
  }

  /** Each entry of a successful site list is the python path of a valid
      entry. */
  lemma {:induction false} SitePathsFromValid(fs: FileSystem, v: Version, candidates: seq<string>)
    requires SitePaths(fs, v, candidates).Ok?
    ensures var paths := SitePaths(fs, v, candidates).value;
      forall k :: 0 <= k < |paths| ==> PathOfSomeEntry(fs, v, candidates, paths[k])
    decreases |candidates|
  {
    if candidates != [] {
      var n := |candidates| - 1;
      var init := candidates[..n];
      SitePathsFromValid(fs, v, init);
      var before := SitePaths(fs, v, init).value;
      var paths := SitePaths(fs, v, candidates).value;
      var last := SiteOf(fs, v, candidates[n]);
      assert paths == if last.Ok? then before + [last.value.PythonPath(v)] else before;
      forall k | 0 <= k < |paths|
        ensures PathOfSomeEntry(fs, v, candidates, paths[k])
      {
        if k < |before| {
          assert paths[k] == before[k];
          EarlierEntryPath(fs, v, candidates, before[k]);
        } else {
          LastEntryPath(fs, v, candidates);
        }
      }
    }
  }

  /** A path given by an entry before the last is given by the whole list. */
  lemma EarlierEntryPath(fs: FileSystem, v: Version, candidates: seq<string>, p: string)
    requires candidates != [] && PathOfSomeEntry(fs, v, candidates[..|candidates| - 1], p)
    ensures PathOfSomeEntry(fs, v, candidates, p)
  {
    var init := candidates[..|candidates| - 1];
    var i :| 0 <= i < |init| && SiteOf(fs, v, init[i]).Ok? && SiteOf(fs, v, init[i]).value.PythonPath(v) == p;
    assert candidates[i] == init[i];
  }

  /** The path of a valid last entry is given by the list. */
  lemma LastEntryPath(fs: FileSystem, v: Version, candidates: seq<string>)
    requires candidates != [] && SiteOf(fs, v, candidates[|candidates| - 1]).Ok?
    ensures PathOfSomeEntry(fs, v, candidates, SiteOf(fs, v, candidates[|candidates| - 1]).value.PythonPath(v))
  {
  }

  /** A list of valid entries gives their python paths, in order. */
  lemma {:induction false} SitePathsAllValid(fs: FileSystem, v: Version, candidates: seq<string>)
    requires forall i :: 0 <= i < |candidates| ==> SiteOf(fs, v, candidates[i]).Ok?
    ensures var r := SitePaths(fs, v, candidates);
      r.Ok? && |r.value| == |candidates|
      && forall i :: 0 <= i < |candidates| ==> r.value[i] == SiteOf(fs, v, candidates[i]).value.PythonPath(v)
    decreases |candidates|
  {
    if candidates != [] {
      var n := |candidates| - 1;
      var init := candidates[..n];
      SitePathsAllValid(fs, v, init);
      var before := SitePaths(fs, v, init).value;
      var last := SiteOf(fs, v, candidates[n]);
      assert last.Ok?;
      var paths := before + [last.value.PythonPath(v)];
      assert SitePaths(fs, v, candidates) == Ok(paths);
      forall i | 0 <= i < |candidates|
        ensures paths[i] == SiteOf(fs, v, candidates[i]).value.PythonPath(v)
      {
        if i < n {
          assert paths[i] == before[i];
          assert candidates[i] == init[i];
          assert before[i] == SiteOf(fs, v, init[i]).value.PythonPath(v);
        } else {
          assert i == n;
          assert paths[i] == last.value.PythonPath(v);
        }
      }
    }
  }

  /** As written, a list of valid entries also gives their python paths. */
  lemma {:induction false} AsWrittenAllValid(fs: FileSystem, v: Version, candidates: seq<string>, last: Option<Site>)
    requires forall i :: 0 <= i < |candidates| ==> SiteOf(fs, v, candidates[i]).Ok?
    ensures var r := SitePathsAsWritten(fs, v, candidates, last);
      r.Ok? && |r.value| == |candidates|
      && forall i :: 0 <= i < |candidates| ==> r.value[i] == SiteOf(fs, v, candidates[i]).value.PythonPath(v)
    decreases |candidates|
  {
    if candidates != [] {
      var tail := candidates[1..];
      var s := SiteOf(fs, v, candidates[0]);
      assert s.Ok?;
      AsWrittenAllValid(fs, v, tail, Some(s.value));
      var rest := SitePathsAsWritten(fs, v, tail, Some(s.value));
      var paths := [s.value.PythonPath(v)] + rest.value;
      assert SitePathsAsWritten(fs, v, candidates, last) == Ok(paths);
      forall i | 0 <= i < |candidates|
        ensures paths[i] == SiteOf(fs, v, candidates[i]).value.PythonPath(v)
      {
        if i > 0 {
          assert paths[i] == rest.value[i - 1];
          assert candidates[i] == tail[i - 1];
          assert rest.value[i - 1] == SiteOf(fs, v, tail[i - 1]).value.PythonPath(v);
        }
      }
    }
  }

  /** Where every entry is valid the code as written and the intended
      behaviour agree, whatever `site` held before. */
  lemma AsWrittenAgreesWhenValid(fs: FileSystem, v: Version, candidates: seq<string>, last: Option<Site>)
    requires forall i :: 0 <= i < |candidates| ==> SiteOf(fs, v, candidates[i]).Ok?
    ensures SitePathsAsWritten(fs, v, candidates, last) == SitePaths(fs, v, candidates)
  {
    SitePathsAllValid(fs, v, candidates);
    AsWrittenAllValid(fs, v, candidates, last);
    assert SitePathsAsWritten(fs, v, candidates, last).value == SitePaths(fs, v, candidates).value;
  }

  /** A file system with one empty directory "/d" and nothing else. */
  function OneDir(): FileSystem {
    FileSystem(map["/d" := Dir(true, [])], {}, "/", p => p)
  }

  /** An invalid FIRST entry: as written `site` is unbound and `_setup` raises;
      the intended behaviour skips it. */
  lemma UnboundSiteShown()
    ensures SitePathsAsWritten(OneDir(), Version(2, 7), ["/nope", "/d"], None) == Err(UnboundSite)
    ensures SitePaths(OneDir(), Version(2, 7), ["/nope", "/d"]) == Ok(["/d"])
  {
    var fs, v := OneDir(), Version(2, 7);
    assert SiteOf(fs, v, "/nope") == Err(DoesNotExist);
    assert SiteOf(fs, v, "/d") == Ok(DirSite("/d"));
    assert ["/nope", "/d"][..1] == ["/nope"];
    assert ["/nope"][..0] == [];
    assert SitePaths(fs, v, []) == Ok([]);
    assert SitePaths(fs, v, ["/nope"]) == Ok([]);
    assert [] + ["/d"] == ["/d"];
  }

  /** An invalid LATER entry: as written the previous site is appended a
      second time; the intended behaviour skips it. */
  lemma RepeatedSiteShown()
    ensures SitePathsAsWritten(OneDir(), Version(2, 7), ["/d", "/nope"], None) == Ok(["/d", "/d"])
    ensures SitePaths(OneDir(), Version(2, 7), ["/d", "/nope"]) == Ok(["/d"])
  {
    var fs, v := OneDir(), Version(2, 7);
    assert SiteOf(fs, v, "/d") == Ok(DirSite("/d"));
    assert "/nope" !in fs.nodes;
    assert SiteOf(fs, v, "/nope") == Err(DoesNotExist);
    assert SitePathsAsWritten(fs, v, [], Some(DirSite("/d"))) == Ok([]);
    assert ["/nope"][1..] == [];
    assert ["/nope"][0] == "/nope";
    assert DirSite("/d").PythonPath(v) == "/d";
    var last := Some(DirSite("/d"));
    var rest := SitePathsAsWritten(fs, v, ["/nope"][1..], last);
    assert rest == Ok([]);
    assert ["/d"] + [] == ["/d"];
    assert SitePathsAsWritten(fs, v, ["/nope"], last) == Ok(["/d"]);
    assert ["/d", "/nope"][1..] == ["/nope"];
    assert ["/d"] + ["/d"] == ["/d", "/d"];
    assert ["/d", "/nope"][..1] == ["/d"];
    assert ["/d"][..0] == [];
    assert SitePaths(fs, v, []) == Ok([]);
    assert [] + ["/d"] == ["/d"];
    assert SitePaths(fs, v, ["/d"]) == Ok(["/d"]);
  }

  /** How `_setup` ends: normally, with the warning that replaces an
      exception of `add_site_list`, or with an `OSError` out of `Site`. */
  datatype SetupOutcome = Finished | Warned | Raised(path: string)

  /** The loop of `_setup` over the `KS_SITES` entries, with the intended
      skip of invalid entries. */
  method SiteList(fs: FileSystem, v: Version, candidates: seq<string>) returns (r: Result<seq<string>, SetupError>)
    ensures r == SitePaths(fs, v, candidates)
  {
    var sites := [];
    var i := 0;
    while i < |candidates|
      invariant 0 <= i <= |candidates|
      invariant SitePaths(fs, v, candidates[..i]) == Ok(sites)
    {
      assert candidates[..i + 1][..i] == candidates[..i];
      var site := NewSite(fs, v, candidates[i]);
      match site {
        case Ok(s) =>
          sites := sites + [s.PythonPath(v)];
        case Err(StatFailed(p)) =>
          StatErrorStops(fs, v, candidates, i + 1);
          return Err(StatError(p));
        case Err(_) =>
      }
      i := i + 1;
    }
    assert candidates[..i] == candidates;
    r := Ok(sites);
  }

  /** `_setup()`, with the intended skip of invalid entries: builds the site
      list from `KS_SITES`, then centres it on `sys.path`. */
  method Setup(fs: FileSystem, interp: Interpreter, environ: map<string, string>, sysPrefix: string, v: Version)
      returns (outcome: SetupOutcome)
    modifies interp
    ensures var candidates := SitetoolsUtils.GetEnvironList(environ, "KS_SITES");
      match SitePaths(fs, v, candidates)
      case Err(e) =>
        outcome == Raised(e.path) && interp.sysPath == old(interp.sysPath)
        && interp.processedPths == old(interp.processedPths) && interp.executed == old(interp.executed)
      case Ok(sites) =>
        var h := ListHalves(fs, old(interp.processedPths), AbsPaths(fs, sites), OurSitePackages(fs, sysPrefix, v));
        var f := Then(h.0, h.1);
        (outcome == Warned <==> f.failed) && !outcome.Raised?
        && interp.sysPath == ListPath(old(interp.sysPath), fs, h)
        && interp.processedPths == f.processed
        && interp.executed == old(interp.executed) + f.execs
  {
    var candidates := SitetoolsUtils.GetEnvironList(environ, "KS_SITES");
    var sites := SiteList(fs, v, candidates);
    if sites.Err? {
      return Raised(sites.error.path);
    }
    var raised := AddSiteList(fs, interp, sysPrefix, v, sites.value);
    outcome := if raised then Warned else Finished;
  }

  /** Once the site list has met an `OSError`, the rest of the list does not matter. */
  lemma {:induction false} StatErrorStops(fs: FileSystem, v: Version, candidates: seq<string>, i: nat)
    requires i <= |candidates| && SitePaths(fs, v, candidates[..i]).Err?
    ensures SitePaths(fs, v, candidates) == SitePaths(fs, v, candidates[..i])
    decreases |candidates| - i
  {
    if i < |candidates| {
      assert candidates[..i + 1][..i] == candidates[..i];
      StatErrorStops(fs, v, candidates, i + 1);
    } else {
      assert candidates[..i] == candidates;
    }
  }
}
