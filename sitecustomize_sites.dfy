/** The older site resolver, sitecustomize/sites.py: every call of
    `add_site_dir` builds its own inserter located at a `before` entry of
    `sys.path`, an unreadable `.pth` file raises, and `_setup` works through
    the colon-separated `KS_PYTHON_SITES` followed by the directory this
    package was imported from, turning each failure into a warning. */
module SitecustomizeSites {
  import opened Wrappers
  import opened Strings
  import opened FileSystems
  import opened PathInsertion
  import opened PthFiles

  /** Where `_SysPathInserter(before)` starts: append mode when `before` is
      falsy (None or empty) or not on `sys.path`, otherwise its first index. */
  function StartCursor(sysPath: seq<string>, before: Option<string>): (c: Cursor)
    ensures c.At? <==> before.Some? && before.value != "" && before.value in sysPath
    ensures c.At? ==> 0 <= c.index < |sysPath| && sysPath[c.index] == before.value && before.value !in sysPath[..c.index]
  {
    if before.None? || before.value == "" then Append
    else match IndexOf(sysPath, before.value)
      case Some(k) => At(k)
      case None => Append
  }

  /** `_SysPathInserter`: inserts a series of paths into `sys.path` just
      before the `before` entry, moving right after each insertion, or appends. */
  class SysPathInserter {
    var cursor: Cursor
    /** A warning was issued because `before` is not on `sys.path`. */
    const warned: bool

    constructor (interp: Interpreter, before: Option<string>)
      ensures cursor == StartCursor(interp.sysPath, before)
      ensures warned <==> before.Some? && before.value != "" && before.value !in interp.sysPath
    {
      if before.None? || before.value == "" {
        cursor := Append;
        warned := false;
      } else {
        var k := IndexOf(interp.sysPath, before.value);
        if k.Some? {
          cursor := At(k.value);
          warned := false;
        } else {
          cursor := Append;
          warned := true;
        }
      }
    }

    /** `add(path)`: the absolute path goes in only when it exists and is not
        on `sys.path` yet. */
    method Add(interp: Interpreter, fs: FileSystem, path: string)
      modifies this, interp`sysPath
      ensures (interp.sysPath, cursor) == AddOne(old(interp.sysPath), old(cursor), fs, path)
    {
      var p := fs.AbsPath(path);
      if !fs.Exists(p) {
        return;
      }
      if p in interp.sysPath {
        return;
      }
      match cursor {
        case At(i) =>
          interp.sysPath := PyInsert(interp.sysPath, i, p);
          cursor := At(i + 1);
        case Append =>
          interp.sysPath := interp.sysPath + [p];
      }
    }
  }

  /** One pass of the line loop of `_process_pth`. */
  method PthLine(inserter: SysPathInserter, interp: Interpreter, fs: FileSystem, base: string, fileName: string, raw: string)
    modifies inserter, interp`sysPath, interp`executed
    ensures var d := Classify(fileName, raw);
      interp.executed == old(interp.executed) + Run(d)
      && (interp.sysPath, inserter.cursor) == AddAll(old(interp.sysPath), old(inserter.cursor), fs, Added(base, d))
  {
    var line := Strip(raw);
    ghost var d := Classify(fileName, raw);
    if line == [] || StartsWith(line, "#") {
      assert d == Ignore;
    } else if StartsWith(line, "import") {
      if fileName == "easy-install.pth" && Contains(line, "sys.__plen") {
        assert d == Ignore;
      } else {
        assert d == Exec(line);
        interp.executed := interp.executed + [line];
      }
    } else {
      assert d == AddDir(line);
      AddAllSnoc(interp.sysPath, inserter.cursor, fs, [], PathJoin(base, line));
      assert [] + [PathJoin(base, line)] == Added(base, d);
      inserter.Add(interp, fs, PathJoin(base, line));
    }
  }

  /** `_process_pth(path, base, file_name)`: marks the file processed, then
      opens it; an `IOError` from `open` propagates (`raised`). */
  method ProcessPth(inserter: SysPathInserter, interp: Interpreter, fs: FileSystem, base: string, fileName: string)
      returns (raised: bool, ghost f: Feed)
    modifies inserter, interp
    ensures f == PthFeed(fs, RaiseUnreadable, old(interp.processedPths), base, fileName)
    ensures raised == f.failed
    ensures interp.processedPths == f.processed
      && interp.executed == old(interp.executed) + f.execs
      && (interp.sysPath, inserter.cursor) == AddAll(old(interp.sysPath), old(inserter.cursor), fs, f.paths)
  {
    f := PthFeed(fs, RaiseUnreadable, interp.processedPths, base, fileName);
    raised := false;
    var pth := fs.AbsPath(PathJoin(base, fileName));
    if pth !in interp.processedPths {
      interp.processedPths := interp.processedPths + {pth};
      if fs.Readable(pth) {
        PthLines(inserter, interp, fs, base, fileName, fs.Lines(pth));
      } else {
        raised := true;
      }
    }
  }

  /** The line loop of `_process_pth`, over the lines of a file that opened. */
  method PthLines(inserter: SysPathInserter, interp: Interpreter, fs: FileSystem, base: string, fileName: string, lines: seq<string>)
    modifies inserter, interp`sysPath, interp`executed
    ensures interp.executed == old(interp.executed) + PthExecs(fileName, lines)
      && (interp.sysPath, inserter.cursor) == AddAll(old(interp.sysPath), old(inserter.cursor), fs, PthPaths(base, fileName, lines))
  {
    ghost var sp0, c0, e0 := interp.sysPath, inserter.cursor, interp.executed;
    ghost var paths: seq<string>, execs: seq<string> := [], [];
    var i := 0;
    while i < |lines|
      invariant 0 <= i <= |lines|
      invariant paths == PthPaths(base, fileName, lines[..i])
      invariant execs == PthExecs(fileName, lines[..i])
      invariant interp.executed == e0 + execs
      invariant (interp.sysPath, inserter.cursor) == AddAll(sp0, c0, fs, paths)
    {
      PthStep(base, fileName, lines, i);
      ghost var d := Classify(fileName, lines[i]);
      PthLine(inserter, interp, fs, base, fileName, lines[i]);
      AddAllConcat(sp0, c0, fs, paths, Added(base, d));
      ConcatAssoc(e0, execs, Run(d));
      paths, execs := paths + Added(base, d), execs + Run(d);
      i := i + 1;
    }
    assert lines[..i] == lines;
  }

  /** One pass of the listing loop of `add_site_dir`; an exception from the
      entry's own `.pth` file ends it before `__site__.pth` is looked at. */
  method SiteEntry(inserter: SysPathInserter, interp: Interpreter, fs: FileSystem, dirName: string, entry: string)
      returns (raised: bool)
    modifies inserter, interp
    ensures var f := EntryFeed(fs, RaiseUnreadable, old(interp.processedPths), dirName, entry);
      raised == f.failed
      && interp.processedPths == f.processed
      && interp.executed == old(interp.executed) + f.execs
      && (interp.sysPath, inserter.cursor) == AddAll(old(interp.sysPath), old(inserter.cursor), fs, f.paths)
  {
    raised := false;
    if !StartsWith(entry, ".") {
      ghost var sp0, c0, e0, p0 := interp.sysPath, inserter.cursor, interp.executed, interp.processedPths;
      ghost var top := Nothing(p0);
      if EndsWith(entry, ".pth") {
        raised, top := ProcessPth(inserter, interp, fs, dirName, entry);
      } else {
        assert e0 + top.execs == e0;
      }
      var sub := PathJoin(dirName, entry);
      ghost var nested := if fs.Exists(PathJoin(sub, "__site__.pth"))
        then PthFeed(fs, RaiseUnreadable, top.processed, sub, "__site__.pth") else Nothing(top.processed);
      EntryThen(fs, RaiseUnreadable, p0, dirName, entry, top, nested);
      if !raised {
        raised := NestedPth(inserter, interp, fs, sub);
        AddAllConcat(sp0, c0, fs, top.paths, nested.paths);
        ConcatAssoc(e0, top.execs, nested.execs);
      }
    }
  }

  /** The `__site__.pth` half of one pass of the listing loop. */
  method NestedPth(inserter: SysPathInserter, interp: Interpreter, fs: FileSystem, sub: string) returns (raised: bool)
    modifies inserter, interp
    ensures var f := if fs.Exists(PathJoin(sub, "__site__.pth"))
        then PthFeed(fs, RaiseUnreadable, old(interp.processedPths), sub, "__site__.pth") else Nothing(old(interp.processedPths));
      raised == f.failed
      && interp.processedPths == f.processed
      && interp.executed == old(interp.executed) + f.execs
      && (interp.sysPath, inserter.cursor) == AddAll(old(interp.sysPath), old(inserter.cursor), fs, f.paths)
  {
    if fs.Exists(PathJoin(sub, "__site__.pth")) {
      ghost var f;
      raised, f := ProcessPth(inserter, interp, fs, sub, "__site__.pth");
    } else {
      assert interp.executed + [] == interp.executed;
      raised := false;
    }
  }

  /** The listing loop of `add_site_dir`; the first exception ends it. */
  method SiteListing(inserter: SysPathInserter, interp: Interpreter, fs: FileSystem, dirName: string, entries: seq<string>)
      returns (raised: bool)
    modifies inserter, interp
    ensures var f := ListingFeed(fs, RaiseUnreadable, old(interp.processedPths), dirName, entries);
      raised == f.failed
      && interp.processedPths == f.processed
      && interp.executed == old(interp.executed) + f.execs
      && (interp.sysPath, inserter.cursor) == AddAll(old(interp.sysPath), old(inserter.cursor), fs, f.paths)
  {
    ghost var sp0, c0, e0, p0 := interp.sysPath, inserter.cursor, interp.executed, interp.processedPths;
    ghost var listed := Nothing(p0);
    raised := false;
    var i := 0;
    while i < |entries| && !raised
      invariant 0 <= i <= |entries|
      invariant listed == ListingFeed(fs, RaiseUnreadable, p0, dirName, entries[..i]) && raised == listed.failed
      invariant interp.processedPths == listed.processed
      invariant interp.executed == e0 + listed.execs
      invariant (interp.sysPath, inserter.cursor) == AddAll(sp0, c0, fs, listed.paths)
    {
      ListingStep(fs, RaiseUnreadable, p0, dirName, entries, i);
      ghost var g := EntryFeed(fs, RaiseUnreadable, listed.processed, dirName, entries[i]);
      raised := SiteEntry(inserter, interp, fs, dirName, entries[i]);
      AddAllConcat(sp0, c0, fs, listed.paths, g.paths);
      ConcatAssoc(e0, listed.execs, g.execs);
      listed := Then(listed, g);
      i := i + 1;
    }
    if raised {
      ListingFeedStops(fs, RaiseUnreadable, p0, dirName, entries, i, |entries|);
    }
    assert entries[..|entries|] == entries;
  }

  /** `add_site_dir(dir_name, before)` once the directory exists: the
      inserter takes the directory itself, then its listing (`os.listdir`
      raises on anything but a directory). */
  method ExistingSiteDir(ins: SysPathInserter, interp: Interpreter, fs: FileSystem, dirName: string) returns (raised: bool)
    requires fs.Exists(dirName)
    modifies ins, interp
    ensures var f := SiteDirFeed(fs, RaiseUnreadable, old(interp.processedPths), dirName);
      raised == f.failed
      && interp.processedPths == f.processed
      && interp.executed == old(interp.executed) + f.execs
      && (interp.sysPath, ins.cursor) == AddAll(old(interp.sysPath), old(ins.cursor), fs, f.paths)
  {
    ghost var sp0, c0, p0 := interp.sysPath, ins.cursor, interp.processedPths;
    ins.Add(interp, fs, dirName);
    assert [dirName][..0] == [];
    if fs.Listable(dirName) {
      ghost var listed := ListingFeed(fs, RaiseUnreadable, p0, dirName, fs.Listing(dirName));
      SiteDirFeedOfDir(fs, RaiseUnreadable, p0, dirName);
      raised := SiteListing(ins, interp, fs, dirName, fs.Listing(dirName));
      AddAllConcat(sp0, c0, fs, [dirName], listed.paths);
    } else {
      SiteDirFeedOfFile(fs, RaiseUnreadable, p0, dirName);
      raised := true;
    }
  }

  /** `add_site_dir(dir_name, before)`: nothing for a missing directory;
      otherwise a fresh inserter at `before` does the rest. Returns whether an
      exception left it, and whether the inserter warned that `before` is not
      on `sys.path`. */
  method AddSiteDir(fs: FileSystem, interp: Interpreter, dirName: string, before: Option<string>) returns (raised: bool, warned: bool)
    modifies interp
    ensures var f := SiteDirFeed(fs, RaiseUnreadable, old(interp.processedPths), dirName);
      raised == f.failed
      && interp.processedPths == f.processed
      && interp.executed == old(interp.executed) + f.execs
      && interp.sysPath == AddAll(old(interp.sysPath), StartCursor(old(interp.sysPath), before), fs, f.paths).0
    ensures warned <==> fs.Exists(dirName) && before.Some? && before.value != "" && before.value !in old(interp.sysPath)
  {
    if !fs.Exists(dirName) {
      assert interp.executed + [] == interp.executed;
      return false, false;
    }
    var ins := new SysPathInserter(interp, before);
    warned := ins.warned;
    raised := ExistingSiteDir(ins, interp, fs, dirName);
  }

  /** The non-empty pieces of `KS_PYTHON_SITES`, each stripped. A piece is
      tested for emptiness before it is stripped, so an all-blank piece
      survives as "". */
  function Stripped(pieces: seq<string>): (r: seq<string>)
    ensures |r| <= |pieces|
    ensures forall i :: 0 <= i < |r| ==> r[i] == [] || (!IsSpace(r[i][0]) && !IsSpace(r[i][|r[i]| - 1]))
  {
    if pieces == [] then []
    else
      var init := Stripped(pieces[..|pieces| - 1]);
      var x := pieces[|pieces| - 1];
      if x == [] then init else init + [Strip(x)]
  }

  /** The site list of `_setup`: `KS_PYTHON_SITES` split on ':', empty pieces
      dropped, each piece stripped, then the directory this package was
      imported from, last. */
  function SiteCandidates(environ: map<string, string>, ourSysPath: string): (r: seq<string>)
  {
    var value := if "KS_PYTHON_SITES" in environ then environ["KS_PYTHON_SITES"] else "";
    Stripped(Split(value, ':')) + [ourSysPath]
  }

  /** Every candidate but the last comes from one non-empty piece of the
      variable and holds no ':'; the package's own directory always comes last;
      an unset or empty variable leaves it alone. */
  lemma {:induction false} CandidatesShape(environ: map<string, string>, ourSysPath: string)
    ensures var r := SiteCandidates(environ, ourSysPath);
      |r| >= 1 && r[|r| - 1] == ourSysPath
      && (forall i :: 0 <= i < |r| - 1 ==> ':' !in r[i])
      && ("KS_PYTHON_SITES" !in environ || environ["KS_PYTHON_SITES"] == "" ==> r == [ourSysPath])
  {
    var value := if "KS_PYTHON_SITES" in environ then environ["KS_PYTHON_SITES"] else "";
    SplitPieces(value, ':');
    StrippedNoSep(Split(value, ':'), ':');
    if value == "" {
      SplitFree(value, ':');
      assert Split(value, ':')[..0] == [];
    }
  }

  /** A character missing from every piece is missing from every stripped piece. */
  lemma {:induction false} StrippedNoSep(pieces: seq<string>, c: char)
    requires forall i :: 0 <= i < |pieces| ==> c !in pieces[i]
    ensures forall i :: 0 <= i < |Stripped(pieces)| ==> c !in Stripped(pieces)[i]
  {
    if pieces != [] {
      StrippedNoSep(pieces[..|pieces| - 1], c);
      StripWithin(pieces[|pieces| - 1], c);
    }
  }

  /** The state `_setup` carries from one site to the next. */
  datatype Progress = Progress(sysPath: seq<string>, processed: set<string>, executed: seq<string>)

  /** One `add_site_dir(site, before=...)`, the inserter located afresh on the
      current `sys.path`; the flag says whether it raised. */
  function SiteStep(fs: FileSystem, p: Progress, dirName: string, before: Option<string>): (Progress, bool)
  {
    var f := SiteDirFeed(fs, RaiseUnreadable, p.processed, dirName);
    (Progress(AddAll(p.sysPath, StartCursor(p.sysPath, before), fs, f.paths).0, f.processed, p.executed + f.execs), f.failed)
  }

  /** `add_site_dir(site, before=...)` as one step of `_setup`. */
  method SetupSite(fs: FileSystem, interp: Interpreter, dirName: string, before: Option<string>) returns (raised: bool)
    modifies interp
    ensures (Progress(interp.sysPath, interp.processedPths, interp.executed), raised)
      == SiteStep(fs, Progress(old(interp.sysPath), old(interp.processedPths), old(interp.executed)), dirName, before)
  {
    var warned;
    raised, warned := AddSiteDir(fs, interp, dirName, before);
  }

  /** The sites in order, every one tried: the progress at the end and the
      sites whose exception became a warning. */
  function SetupRun(fs: FileSystem, p: Progress, sites: seq<string>, before: Option<string>): (Progress, seq<string>)
  {
    if sites == [] then (p, [])
    else
      var init := SetupRun(fs, p, sites[..|sites| - 1], before);
      var site := sites[|sites| - 1];
      var step := SiteStep(fs, init.0, site, before);
      (step.0, if step.1 then init.1 + [site] else init.1)
  }

  /** One warning at most per site, each naming a site of the list. */
  lemma {:induction false} SetupWarnings(fs: FileSystem, p: Progress, sites: seq<string>, before: Option<string>)
    ensures var w := SetupRun(fs, p, sites, before).1;
      |w| <= |sites| && forall i :: 0 <= i < |w| ==> w[i] in sites
  {
    if sites != [] {
      var init := sites[..|sites| - 1];
      SetupWarnings(fs, p, init, before);
      var w0 := SetupRun(fs, p, init, before).1;
      forall i | 0 <= i < |w0|
        ensures w0[i] in sites
      {
        var j :| 0 <= j < |init| && init[j] == w0[i];
        assert sites[j] == init[j];
      }
    }
  }

  /** One more site tried. */
  lemma SetupRunStep(fs: FileSystem, p: Progress, sites: seq<string>, i: nat, before: Option<string>)
    requires i < |sites|
    ensures var init := SetupRun(fs, p, sites[..i], before);
      var step := SiteStep(fs, init.0, sites[i], before);
      SetupRun(fs, p, sites[..i + 1], before) == (step.0, if step.1 then init.1 + [sites[i]] else init.1)
  {
    assert sites[..i + 1][..i] == sites[..i];
  }

  /** The list comprehension over the pieces of `KS_PYTHON_SITES`. */
  method StripPieces(pieces: seq<string>) returns (sites: seq<string>)
    ensures sites == Stripped(pieces)
  {
    sites := [];
    var j := 0;
    while j < |pieces|
      invariant 0 <= j <= |pieces|
      invariant sites == Stripped(pieces[..j])
    {
      assert pieces[..j + 1][..j] == pieces[..j];
      if pieces[j] != [] {
        sites := sites + [Strip(pieces[j])];
      }
      j := j + 1;
    }
    assert pieces[..j] == pieces;
  }

  /** `_setup()`: every candidate is added before the package's own directory;
      an exception while adding one becomes a warning and the loop goes on. */
  method Setup(fs: FileSystem, interp: Interpreter, environ: map<string, string>, ourSysPath: string)
      returns (warnings: seq<string>)
    modifies interp
    ensures var r := SetupRun(fs, Progress(old(interp.sysPath), old(interp.processedPths), old(interp.executed)),
                              SiteCandidates(environ, ourSysPath), Some(ourSysPath));
      Progress(interp.sysPath, interp.processedPths, interp.executed) == r.0 && warnings == r.1
  {
    var value := if "KS_PYTHON_SITES" in environ then environ["KS_PYTHON_SITES"] else "";
    var sites := StripPieces(Split(value, ':'));
    warnings := TrySites(fs, interp, sites + [ourSysPath], Some(ourSysPath));
  }

  /** The loop of `_setup` over its site list. */
  method TrySites(fs: FileSystem, interp: Interpreter, sites: seq<string>, before: Option<string>)
      returns (warnings: seq<string>)
    modifies interp
    ensures var r := SetupRun(fs, Progress(old(interp.sysPath), old(interp.processedPths), old(interp.executed)), sites, before);
      Progress(interp.sysPath, interp.processedPths, interp.executed) == r.0 && warnings == r.1
  {
    ghost var p0 := Progress(interp.sysPath, interp.processedPths, interp.executed);
    warnings := [];
    var i := 0;
    while i < |sites|
      invariant 0 <= i <= |sites|
      invariant Progress(interp.sysPath, interp.processedPths, interp.executed) == SetupRun(fs, p0, sites[..i], before).0
      invariant warnings == SetupRun(fs, p0, sites[..i], before).1
    {
      SetupRunStep(fs, p0, sites, i, before);
      var raised := SetupSite(fs, interp, sites[i], before);
      if raised {
        warnings := warnings + [sites[i]];
      }
      i := i + 1;
    }
    assert sites[..i] == sites;
  }

  /** With the anchor first at index `k` of `sys.path`, the new entries of a
      series of `add` calls on an inserter made at the anchor go in as one
      block immediately before it; the block never holds the anchor, so the
      anchor's first occurrence moves right by the block's length
      (`BlockBeforeAnchor`). */
  lemma StepBeforeAnchor(fs: FileSystem, s: seq<string>, paths: seq<string>, anchor: string, k: nat)
    requires anchor != "" && k < |s| && s[k] == anchor && anchor !in s[..k]
    ensures var block := Fresh(s, fs, paths);
      var q := AddAll(s, StartCursor(s, Some(anchor)), fs, paths).0;
      q == s[..k] + block + s[k..] && anchor !in block
  {
    var block := Fresh(s, fs, paths);
    IndexOfFirst(s, anchor, k);
    assert StartCursor(s, Some(anchor)) == At(k);
    BlockInsert(s, k, fs, paths);
    assert anchor !in block by {
      FreshNew(s, fs, paths);
      forall j | 0 <= j < |block|
        ensures block[j] != anchor
      {
        assert block[j] !in s;
      }
    }
  }

  /** A block without the anchor, put just before the anchor's first
      occurrence, moves that first occurrence right by the block's length. */
  lemma BlockBeforeAnchor(s: seq<string>, k: nat, block: seq<string>, anchor: string)
    requires k < |s| && s[k] == anchor && anchor !in s[..k] && anchor !in block
    ensures IndexOf(s[..k] + block + s[k..], anchor) == Some(k + |block|)
  {
    var q := s[..k] + block + s[k..];
    var j := k + |block|;
    assert q[j] == anchor by {
      assert q[j] == s[k..][0];
    }
    assert anchor !in q[..j] by {
      assert q[..j] == s[..k] + block;
    }
    IndexOfFirst(q, anchor, j);
  }

  /** `IndexOf` is the first occurrence. */
  lemma IndexOfFirst(s: seq<string>, x: string, j: nat)
    requires j < |s| && s[j] == x && x !in s[..j]
    ensures IndexOf(s, x) == Some(j)
  {
  }

  /** `q` holds the front `t[..k]` of an original `sys.path` `t` at its own
      front, and the anchor `t[k]` with everything after it at its own end,
      the anchor still the first occurrence. */
  predicate AnchoredAround(q: seq<string>, t: seq<string>, k: nat, anchor: string)
    requires k < |t|
  {
    var m := |t| - k;
    |q| >= |t| && q[..k] == t[..k] && q[|q| - m..] == t[k..]
    && q[|q| - m] == anchor && anchor !in q[..|q| - m]
  }

  /** However many sites `_setup` adds, the entries before the anchor and the
      anchor with everything after it stay as they were: all new entries sit
      between them, just before the anchor. */
  lemma {:induction false} SetupAroundAnchor(fs: FileSystem, p: Progress, sites: seq<string>, anchor: string, k: nat)
    requires anchor != "" && k < |p.sysPath| && p.sysPath[k] == anchor && anchor !in p.sysPath[..k]
    ensures AnchoredAround(SetupRun(fs, p, sites, Some(anchor)).0.sysPath, p.sysPath, k, anchor)
  {
    if sites == [] {
      assert p.sysPath[|p.sysPath| - (|p.sysPath| - k)..] == p.sysPath[k..];
    } else {
      var init := SetupRun(fs, p, sites[..|sites| - 1], Some(anchor)).0;
      SetupAroundAnchor(fs, p, sites[..|sites| - 1], anchor, k);
      SiteStepAroundAnchor(fs, init, sites[|sites| - 1], p.sysPath, anchor, k);
    }
  }

  /** One site of `_setup` keeps what `SetupAroundAnchor` says about the
      original `sys.path` `t`. */
  lemma SiteStepAroundAnchor(fs: FileSystem, init: Progress, site: string, t: seq<string>, anchor: string, k: nat)
    requires anchor != "" && k < |t| && AnchoredAround(init.sysPath, t, k, anchor)
    ensures AnchoredAround(SiteStep(fs, init, site, Some(anchor)).0.sysPath, t, k, anchor)
  {
    var a := |init.sysPath| - (|t| - k);
    var f := SiteDirFeed(fs, RaiseUnreadable, init.processed, site);
    StepBeforeAnchor(fs, init.sysPath, f.paths, anchor, a);
    var block := Fresh(init.sysPath, fs, f.paths);
    AroundBlock(init.sysPath, t, k, a, block, anchor);
  }

  /** One block put just before the anchor keeps the front and the anchored
      tail of the original `sys.path` in place. */
  lemma AroundBlock(s: seq<string>, t: seq<string>, k: nat, a: nat, block: seq<string>, anchor: string)
    requires k < |t| && k <= a < |s| && |s| - a == |t| - k
    requires s[..k] == t[..k] && s[a..] == t[k..] && s[a] == anchor && anchor !in s[..a] && anchor !in block
    ensures AnchoredAround(s[..a] + block + s[a..], t, k, anchor)
  {
    var q := s[..a] + block + s[a..];
    var m := |t| - k;
    assert q[..k] == s[..a][..k];
    assert q[|q| - m..] == s[a..];
    assert q[..|q| - m] == s[..a] + block;
  }
}
