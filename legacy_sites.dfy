/** The oldest site resolver, sites.py: `add_site_dir` first collects every
    path of a site directory (the directory, then what its `.pth` and
    `__site__.pth` files name), and only then inserts the ones that exist and
    are new, before a `before` entry of `sys.path` or at the end. There is no
    processed-file set, and an `import` line runs as soon as it is read. */
module LegacySites {
  import opened Wrappers
  import opened Strings
  import opened FileSystems
  import opened PathInsertion
  import opened PthFiles

  /** One stripped line of a `.pth` file: only `#` lines are ignored (a blank
      line names the base directory itself), `import` lines are run, and
      there is no `easy-install.pth` exception. */
  function LegacyClassify(raw: string): (d: Directive)
    ensures d.Ignore? <==> StartsWith(Strip(raw), "#")
    ensures d.Exec? <==> StartsWith(Strip(raw), "import")
    ensures Strip(raw) == [] ==> d == AddDir([])
    ensures d.Exec? ==> d.code == Strip(raw)
    ensures d.AddDir? ==> d.relative == Strip(raw)
  {
    var line := Strip(raw);
    if StartsWith(line, "#") then Ignore
    else if StartsWith(line, "import") then Exec(line)
    else AddDir(line)
  }

  /** What collecting does not know yet: the paths gathered, the lines run,
      and whether an exception ended the collection. */
  datatype Batch = Batch(paths: seq<string>, execs: seq<string>, failed: bool)

  /** The first part followed by the second; an exception in the first means
      the second never happens. */
  function Chain(a: Batch, b: Batch): Batch {
    if a.failed then a else Batch(a.paths + b.paths, a.execs + b.execs, b.failed)
  }

  /** The paths a `.pth` file's lines append, each `abspath(join(base, line))`. */
  function LinePaths(fs: FileSystem, base: string, lines: seq<string>): (r: seq<string>)
    ensures |r| <= |lines|
  {
    if lines == [] then []
    else
      var init := LinePaths(fs, base, lines[..|lines| - 1]);
      match LegacyClassify(lines[|lines| - 1])
      case AddDir(rel) => init + [fs.AbsPath(PathJoin(base, rel))]
      case _ => init
  }

  /** The `import` lines a `.pth` file runs, in order. */
  function LineExecs(lines: seq<string>): (r: seq<string>)
    ensures |r| <= |lines|
  {
    if lines == [] then []
    else
      var init := LineExecs(lines[..|lines| - 1]);
      match LegacyClassify(lines[|lines| - 1])
      case Exec(code) => init + [code]
      case _ => init
  }

  /** The paths of one classified line. */
  function LinePath(fs: FileSystem, base: string, d: Directive): seq<string> {
    if d.AddDir? then [fs.AbsPath(PathJoin(base, d.relative))] else []
  }

  /** One more line of a `.pth` file. */
  lemma LineStep(fs: FileSystem, base: string, lines: seq<string>, i: nat)
    requires i < |lines|
    ensures LinePaths(fs, base, lines[..i + 1]) == LinePaths(fs, base, lines[..i]) + LinePath(fs, base, LegacyClassify(lines[i]))
    ensures LineExecs(lines[..i + 1]) == LineExecs(lines[..i]) + Run(LegacyClassify(lines[i]))
  {
    assert lines[..i + 1][..i] == lines[..i];
  }

  /** Every line that is not a comment contributes exactly one path or one run. */
  lemma {:induction false} LinesAccounted(fs: FileSystem, base: string, lines: seq<string>)
    ensures |LinePaths(fs, base, lines)| + |LineExecs(lines)| ==
      |lines| - CommentCount(lines)
  {
    if lines != [] {
      LinesAccounted(fs, base, lines[..|lines| - 1]);
    }
  }

  /** The number of `#` lines. */
  function CommentCount(lines: seq<string>): nat
  {
    if lines == [] then 0
    else CommentCount(lines[..|lines| - 1]) + (if StartsWith(Strip(lines[|lines| - 1]), "#") then 1 else 0)
  }

  /** `_process_pth(paths, base, file_name)`: `open` raises when the file
      cannot be read. */
  function PthBatch(fs: FileSystem, base: string, fileName: string): (b: Batch)
    ensures b.failed <==> !fs.Readable(PathJoin(base, fileName))
    ensures b.failed ==> b.paths == [] && b.execs == []
  {
    var file := PathJoin(base, fileName);
    if !fs.Readable(file) then Batch([], [], true)
    else Batch(LinePaths(fs, base, fs.Lines(file)), LineExecs(fs.Lines(file)), false)
  }

  /** One entry of the listing: dotfiles skipped, a `*.pth` entry read
      against the directory, an entry holding `__site__.pth` read against
      itself. */
  function EntryBatch(fs: FileSystem, dirName: string, entry: string): (b: Batch)
    ensures StartsWith(entry, ".") ==> b == Batch([], [], false)
  {
    if StartsWith(entry, ".") then Batch([], [], false)
    else
      var top := if EndsWith(entry, ".pth") then PthBatch(fs, dirName, entry) else Batch([], [], false);
      var sub := PathJoin(dirName, entry);
      var nested := if fs.Exists(PathJoin(sub, "__site__.pth")) then PthBatch(fs, sub, "__site__.pth") else Batch([], [], false);
      Chain(top, nested)
  }

  /** The entries of the listing, in listing order. */
  function ListingBatch(fs: FileSystem, dirName: string, entries: seq<string>): (b: Batch) {
    if entries == [] then Batch([], [], false)
    else
      var init := ListingBatch(fs, dirName, entries[..|entries| - 1]);
      Chain(init, EntryBatch(fs, dirName, entries[|entries| - 1]))
  }

  /** One more entry of the listing. */
  lemma ListingStep(fs: FileSystem, dirName: string, entries: seq<string>, i: nat)
    requires i < |entries|
    ensures ListingBatch(fs, dirName, entries[..i + 1]) ==
      Chain(ListingBatch(fs, dirName, entries[..i]), EntryBatch(fs, dirName, entries[i]))
  {
    assert entries[..i + 1][..i] == entries[..i];
  }

  /** A part that raised ends the chain. */
  lemma ChainFailed(a: Batch, b: Batch)
    requires a.failed
    ensures Chain(a, b) == a
  {
  }

  /** Once an entry has raised, later entries change nothing. */
  lemma {:induction false} ListingStops(fs: FileSystem, dirName: string, entries: seq<string>, i: nat, j: nat)
    requires i <= j <= |entries| && ListingBatch(fs, dirName, entries[..i]).failed
    ensures ListingBatch(fs, dirName, entries[..j]) == ListingBatch(fs, dirName, entries[..i])
    decreases j
  {
    if j > i {
      ListingStops(fs, dirName, entries, i, j - 1);
      ghost var prev := ListingBatch(fs, dirName, entries[..j - 1]);
      ListingStep(fs, dirName, entries, j - 1);
      ChainFailed(prev, EntryBatch(fs, dirName, entries[j - 1]));
    }
  }

  /** Everything `add_site_dir` collects from an existing `dir_name`: the
      directory first, then its listing (`os.listdir` raises when it is not
      a directory or cannot be read). */
  function Collect(fs: FileSystem, dirName: string): (b: Batch)
    requires fs.Exists(dirName)
    ensures |b.paths| >= 1 && b.paths[0] == dirName
    ensures !fs.Listable(dirName) ==> b == Batch([dirName], [], true)
  {
    if !fs.Listable(dirName) then Batch([dirName], [], true)
    else Chain(Batch([dirName], [], false), ListingBatch(fs, dirName, fs.Listing(dirName)))
  }

  /** Where the insertion goes. `if insert_at:` treats index 0 like a missing
      `before`: both append. */
  function LegacyCursor(sysPath: seq<string>, before: Option<string>): (c: Cursor)
    ensures c.At? <==> before.Some? && before.value != "" && before.value in sysPath && sysPath[0] != before.value
    ensures c.At? ==> 0 < c.index < |sysPath| && sysPath[c.index] == before.value && before.value !in sysPath[..c.index]
  {
    if before.None? || before.value == "" then Append
    else match IndexOf(sysPath, before.value)
      case Some(k) => if k == 0 then Append else At(k)
      case None => Append
  }

  /** One pass of the line loop of `_process_pth`. */
  method ReadLine(interp: Interpreter, fs: FileSystem, paths: seq<string>, base: string, raw: string)
      returns (collected: seq<string>)
    modifies interp`executed
    ensures var d := LegacyClassify(raw);
      collected == paths + LinePath(fs, base, d) && interp.executed == old(interp.executed) + Run(d)
  {
    ghost var d := LegacyClassify(raw);
    collected := paths;
    var line := Strip(raw);
    if StartsWith(line, "#") {
      assert d == Ignore;
      assert paths + [] == paths && interp.executed + [] == interp.executed;
    } else if StartsWith(line, "import") {
      assert d == Exec(line);
      interp.executed := interp.executed + [line];
      assert paths + [] == paths;
    } else {
      assert d == AddDir(line);
      collected := collected + [fs.AbsPath(PathJoin(base, line))];
      assert interp.executed + [] == interp.executed;
    }
  }

  /** `_process_pth(paths, base, file_name)`, the line loop appending to the
      caller's list. */
  method ProcessPth(interp: Interpreter, fs: FileSystem, paths: seq<string>, base: string, fileName: string)
      returns (collected: seq<string>, raised: bool)
    modifies interp`executed
    ensures var b := PthBatch(fs, base, fileName);
      collected == paths + b.paths && raised == b.failed && interp.executed == old(interp.executed) + b.execs
  {
    var file := PathJoin(base, fileName);
    if !fs.Readable(file) {
      return paths, true;
    }
    var lines := fs.Lines(file);
    ghost var e0 := interp.executed;
    ghost var got: seq<string>, ran: seq<string> := [], [];
    collected, raised := paths, false;
    var i := 0;
    while i < |lines|
      invariant 0 <= i <= |lines|
      invariant got == LinePaths(fs, base, lines[..i]) && ran == LineExecs(lines[..i])
      invariant collected == paths + got
      invariant interp.executed == e0 + ran
    {
      LineStep(fs, base, lines, i);
      ghost var d := LegacyClassify(lines[i]);
      collected := ReadLine(interp, fs, collected, base, lines[i]);
      ConcatAssoc(paths, got, LinePath(fs, base, d));
      ConcatAssoc(e0, ran, Run(d));
      got, ran := got + LinePath(fs, base, d), ran + Run(d);
      i := i + 1;
    }
    assert lines[..i] == lines;
  }

  /** One pass of the listing loop. */
  method CollectEntry(interp: Interpreter, fs: FileSystem, paths: seq<string>, dirName: string, entry: string)
      returns (collected: seq<string>, raised: bool)
    modifies interp`executed
    ensures var b := EntryBatch(fs, dirName, entry);
      collected == paths + b.paths && raised == b.failed && interp.executed == old(interp.executed) + b.execs
  {
    collected, raised := paths, false;
    if StartsWith(entry, ".") {
      assert paths + [] == paths && interp.executed + [] == interp.executed;
    } else {
      ghost var e0 := interp.executed;
      ghost var top := if EndsWith(entry, ".pth") then PthBatch(fs, dirName, entry) else Batch([], [], false);
      if EndsWith(entry, ".pth") {
        collected, raised := ProcessPth(interp, fs, collected, dirName, entry);
      } else {
        assert paths + [] == paths && e0 + [] == e0;
      }
      var sub := PathJoin(dirName, entry);
      ghost var nested := if fs.Exists(PathJoin(sub, "__site__.pth")) then PthBatch(fs, sub, "__site__.pth") else Batch([], [], false);
      EntryChain(fs, dirName, entry, top, nested);
      if !raised {
        collected, raised := NestedPth(interp, fs, collected, sub);
        ConcatAssoc(paths, top.paths, nested.paths);
        ConcatAssoc(e0, top.execs, nested.execs);
      }
    }
  }

  /** A visible entry is its own `.pth` file, then the `__site__.pth` inside
      it. */
  lemma EntryChain(fs: FileSystem, dirName: string, entry: string, top: Batch, nested: Batch)
    requires !StartsWith(entry, ".")
    requires top == if EndsWith(entry, ".pth") then PthBatch(fs, dirName, entry) else Batch([], [], false)
    requires var sub := PathJoin(dirName, entry);
      nested == if fs.Exists(PathJoin(sub, "__site__.pth")) then PthBatch(fs, sub, "__site__.pth") else Batch([], [], false)
    ensures EntryBatch(fs, dirName, entry) == Chain(top, nested)
  {
  }

  /** The `__site__.pth` of a sub-directory, when there is one. */
  method NestedPth(interp: Interpreter, fs: FileSystem, paths: seq<string>, sub: string)
      returns (collected: seq<string>, raised: bool)
    modifies interp`executed
    ensures var b := if fs.Exists(PathJoin(sub, "__site__.pth")) then PthBatch(fs, sub, "__site__.pth") else Batch([], [], false);
      collected == paths + b.paths && raised == b.failed && interp.executed == old(interp.executed) + b.execs
  {
    if fs.Exists(PathJoin(sub, "__site__.pth")) {
      collected, raised := ProcessPth(interp, fs, paths, sub, "__site__.pth");
    } else {
      assert interp.executed + [] == interp.executed;
      assert paths + [] == paths;
      collected, raised := paths, false;
    }
  }

  /** The listing loop; the first exception ends it. */
  method CollectListing(interp: Interpreter, fs: FileSystem, paths: seq<string>, dirName: string, entries: seq<string>)
      returns (collected: seq<string>, raised: bool)
    modifies interp`executed
    ensures var b := ListingBatch(fs, dirName, entries);
      collected == paths + b.paths && raised == b.failed && interp.executed == old(interp.executed) + b.execs
  {
    ghost var e0 := interp.executed;
    collected, raised := paths, false;
    var i := 0;
    while i < |entries|
      invariant 0 <= i <= |entries|
      invariant var b := ListingBatch(fs, dirName, entries[..i]);
        !b.failed && collected == paths + b.paths && interp.executed == e0 + b.execs
    {
      ListingStep(fs, dirName, entries, i);
      ghost var b := ListingBatch(fs, dirName, entries[..i]);
      ghost var g := EntryBatch(fs, dirName, entries[i]);
      collected, raised := CollectEntry(interp, fs, collected, dirName, entries[i]);
      ConcatAssoc(paths, b.paths, g.paths);
      ConcatAssoc(e0, b.execs, g.execs);
      if raised {
        ListingStops(fs, dirName, entries, i + 1, |entries|);
        assert entries[..|entries|] == entries;
        return;
      }
      i := i + 1;
    }
    assert entries[..i] == entries;
  }

  /** One pass of the insertion loop of `add_site_dir`. `existing` holds the
      entries of `sys.path` and every absolute path looked at before, so a
      path is tried once; one that does not exist is recorded, then skipped. */
  method InsertOne(interp: Interpreter, fs: FileSystem, existing: set<string>, cursor: Cursor, path: string)
      returns (seen: set<string>, next: Cursor)
    requires forall x :: x in interp.sysPath ==> x in existing
    requires forall x :: x in existing && x !in interp.sysPath ==> !fs.Exists(x)
    requires cursor.At? ==> cursor.index > 0
    modifies interp`sysPath
    ensures (interp.sysPath, next) == AddOne(old(interp.sysPath), cursor, fs, path)
    ensures forall x :: x in interp.sysPath ==> x in seen
    ensures forall x :: x in seen && x !in interp.sysPath ==> !fs.Exists(x)
    ensures next.At? ==> next.index > 0
  {
    seen, next := existing, cursor;
    var p := fs.AbsPath(path);
    if p !in existing {
      seen := existing + {p};
      if fs.Exists(p) {
        match cursor {
          case At(k) =>
            interp.sysPath := PyInsert(interp.sysPath, k, p);
            next := At(k + 1);
          case Append =>
            interp.sysPath := interp.sysPath + [p];
        }
      }
    }
  }

  /** The insertion loop of `add_site_dir`: `existing` starts as the entries of
      `sys.path`. */
  method InsertCollected(interp: Interpreter, fs: FileSystem, paths: seq<string>, start: Cursor)
    requires start.At? ==> start.index > 0
    modifies interp`sysPath
    ensures interp.sysPath == AddAll(old(interp.sysPath), start, fs, paths).0
  {
    ghost var sp0 := interp.sysPath;
    var existing := set x | x in interp.sysPath;
    var cursor := start;
    var i := 0;
    while i < |paths|
      invariant 0 <= i <= |paths|
      invariant (interp.sysPath, cursor) == AddAll(sp0, start, fs, paths[..i])
      invariant forall x :: x in interp.sysPath ==> x in existing
      invariant forall x :: x in existing && x !in interp.sysPath ==> !fs.Exists(x)
      invariant cursor.At? ==> cursor.index > 0
    {
      AddAllPrefix(sp0, start, fs, paths, i);
      existing, cursor := InsertOne(interp, fs, existing, cursor, paths[i]);
      i := i + 1;
    }
    assert paths[..i] == paths;
  }

  /** The collecting half of `add_site_dir` for an existing `dir_name`. */
  method CollectDir(interp: Interpreter, fs: FileSystem, dirName: string) returns (collected: seq<string>, raised: bool)
    requires fs.Exists(dirName)
    modifies interp`executed
    ensures var b := Collect(fs, dirName);
      collected == b.paths && raised == b.failed && interp.executed == old(interp.executed) + b.execs
  {
    if !fs.Listable(dirName) {
      return [dirName], true;
    }
    ghost var lb := ListingBatch(fs, dirName, fs.Listing(dirName));
    assert Collect(fs, dirName) == Batch([dirName] + lb.paths, [] + lb.execs, lb.failed);
    assert [] + lb.execs == lb.execs;
    collected, raised := CollectListing(interp, fs, [dirName], dirName, fs.Listing(dirName));
  }

  /** `add_site_dir(dir_name, before)`: nothing for a missing directory;
      otherwise collect, then insert. An exception while collecting leaves
      `sys.path` as it was (only the `import` lines already read have run).
      Also returns whether it warned that `before` is not on `sys.path`. */
  method AddSiteDir(interp: Interpreter, fs: FileSystem, dirName: string, before: Option<string>) returns (raised: bool, warned: bool)
    modifies interp`sysPath, interp`executed
    ensures warned <==> fs.Exists(dirName) && before.Some? && before.value != "" && before.value !in old(interp.sysPath)
    ensures !fs.Exists(dirName) ==> !raised && interp.sysPath == old(interp.sysPath) && interp.executed == old(interp.executed)
    ensures fs.Exists(dirName) ==>
      var b := Collect(fs, dirName);
      raised == b.failed && interp.executed == old(interp.executed) + b.execs
      && interp.sysPath == (if b.failed then old(interp.sysPath)
                            else AddAll(old(interp.sysPath), LegacyCursor(old(interp.sysPath), before), fs, b.paths).0)
  {
    if !fs.Exists(dirName) {
      return false, false;
    }
    var start := LegacyCursor(interp.sysPath, before);
    warned := before.Some? && before.value != "" && IndexOf(interp.sysPath, before.value).None?;
    var collected;
    collected, raised := CollectDir(interp, fs, dirName);
    if !raised {
      InsertCollected(interp, fs, collected, start);
    }
  }

  /** Only insertions happen: with a non-zero index for `before` the new
      entries form one block just before it, otherwise they are appended;
      either way every existing entry keeps its place and order, and the new
      entries are the collected absolute paths that exist and are not on
      `sys.path` yet, once each, in collected order. */
  lemma InsertedAsBlock(sysPath: seq<string>, fs: FileSystem, before: Option<string>, paths: seq<string>)
    ensures var block := Fresh(sysPath, fs, paths);
      var c := LegacyCursor(sysPath, before);
      AddAll(sysPath, c, fs, paths).0 ==
        if c.At? then sysPath[..c.index] + block + sysPath[c.index..] else sysPath + block
  {
    var c := LegacyCursor(sysPath, before);
    if c.At? {
      BlockInsert(sysPath, c.index, fs, paths);
    } else {
      AppendAll(sysPath, fs, paths);
    }
  }

  /** `before` naming the FIRST entry of `sys.path` appends, just as no
      `before` at all does. */
  lemma FirstEntryAppends(sysPath: seq<string>, fs: FileSystem, paths: seq<string>)
    requires |sysPath| > 0 && sysPath[0] != ""
    ensures AddAll(sysPath, LegacyCursor(sysPath, Some(sysPath[0])), fs, paths).0 == sysPath + Fresh(sysPath, fs, paths)
  {
    AppendAll(sysPath, fs, paths);
  }
}
