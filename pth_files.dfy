/** `.pth` files and site directories as the two newer revisions of the site
    resolver read them (sitetools/sites.py and sitecustomize/sites.py). Which
    paths a site directory hands to the inserter, which `import` lines it runs
    and which `.pth` files it marks as processed depend only on the file system
    and on the set of files already processed, never on `sys.path`; so they are
    computed here as a `Feed`, and what the inserter makes of the paths is
    `PathInsertion.AddAll`. */
module PthFiles {
  import opened Strings
  import opened FileSystems

  /** What one line of a `.pth` file asks for. */
  datatype Directive = Ignore | Exec(code: string) | AddDir(relative: string)

  /** One line, stripped: blank and `#` lines are ignored; `import` lines are
      run, except the `sys.__plen` line of `easy-install.pth`; any other line
      names a directory relative to the file's base. */
  function Classify(fileName: string, raw: string): (d: Directive)
    ensures d.AddDir? ==> d.relative != [] && !StartsWith(d.relative, "#") && !StartsWith(d.relative, "import")
    ensures d.Exec? ==> d.code == Strip(raw) && StartsWith(d.code, "import")
    ensures d.AddDir? ==> d.relative == Strip(raw)
    ensures !d.Ignore? ==> (d.Exec? <==> StartsWith(Strip(raw), "import"))
    ensures d.Ignore? <==> var line := Strip(raw);
      line == [] || StartsWith(line, "#")
      || (StartsWith(line, "import") && fileName == "easy-install.pth" && Contains(line, "sys.__plen"))
  {
    var line := Strip(raw);
    if line == [] || StartsWith(line, "#") then Ignore
    else if StartsWith(line, "import") then
      if fileName == "easy-install.pth" && Contains(line, "sys.__plen") then Ignore else Exec(line)
    else AddDir(line)
  }

  /** The paths the lines of a `.pth` file add, each joined to `base`, in order. */
  function PthPaths(base: string, fileName: string, lines: seq<string>): (r: seq<string>)
    ensures |r| <= |lines|
  {
    if lines == [] then []
    else
      var init := PthPaths(base, fileName, lines[..|lines| - 1]);
      match Classify(fileName, lines[|lines| - 1])
      case AddDir(rel) => init + [PathJoin(base, rel)]
      case _ => init
  }

  /** The `import` lines of a `.pth` file that are run, in order. */
  function PthExecs(fileName: string, lines: seq<string>): (r: seq<string>)
    ensures |r| <= |lines|
  {
    if lines == [] then []
    else
      var init := PthExecs(fileName, lines[..|lines| - 1]);
      match Classify(fileName, lines[|lines| - 1])
      case Exec(code) => init + [code]
      case _ => init
  }

  /** One more line: what it contributes to each list. */
  lemma PthStep(base: string, fileName: string, lines: seq<string>, i: nat)
    requires i < |lines|
    ensures PthPaths(base, fileName, lines[..i + 1]) == PthPaths(base, fileName, lines[..i]) + Added(base, Classify(fileName, lines[i]))
    ensures PthExecs(fileName, lines[..i + 1]) == PthExecs(fileName, lines[..i]) + Run(Classify(fileName, lines[i]))
  {
    assert lines[..i + 1][..i] == lines[..i];
  }

  function Added(base: string, d: Directive): seq<string> {
    if d.AddDir? then [PathJoin(base, d.relative)] else []
  }

  function Run(d: Directive): seq<string> {
    if d.Exec? then [d.code] else []
  }

  /** A line count the two lists share: every line is ignored, run or added. */
  function Directives(fileName: string, lines: seq<string>): nat {
    if lines == [] then 0
    else Directives(fileName, lines[..|lines| - 1]) + (if Classify(fileName, lines[|lines| - 1]).Ignore? then 0 else 1)
  }

  /** Every line that is not ignored is either run or added, never both. */
  lemma {:induction false} EveryLineCounted(base: string, fileName: string, lines: seq<string>)
    ensures |PthPaths(base, fileName, lines)| + |PthExecs(fileName, lines)| == Directives(fileName, lines)
  {
    if lines != [] {
      EveryLineCounted(base, fileName, lines[..|lines| - 1]);
    }
  }

  /** What a site directory (or a part of one) hands on: the paths given to
      the inserter, the `import` lines run, the `.pth` files marked processed,
      and whether an exception ended the work early. */
  datatype Feed = Feed(paths: seq<string>, execs: seq<string>, processed: set<string>, failed: bool)

  function Nothing(processed: set<string>): Feed {
    Feed([], [], processed, false)
  }

  /** The first piece of work followed by the second; an exception in the first
      means the second never happens. */
  function Then(f: Feed, g: Feed): Feed {
    if f.failed then f else Feed(f.paths + g.paths, f.execs + g.execs, g.processed, g.failed)
  }

  /** How `open` failing on a `.pth` file is handled: sitetools/sites.py logs
      and skips it, sitecustomize/sites.py lets the `IOError` propagate. */
  datatype Unreadable = SkipUnreadable | RaiseUnreadable

  /** `_process_pth(path, base, file_name)`. The absolute path of the file is
      marked processed before it is opened, so a file is read at most once per
      process, and an unreadable file is never retried. */
  function PthFeed(fs: FileSystem, policy: Unreadable, processed: set<string>, base: string, fileName: string): (f: Feed)
    ensures f.processed == processed + {fs.AbsPath(PathJoin(base, fileName))}
    ensures fs.AbsPath(PathJoin(base, fileName)) in processed ==> f == Nothing(processed)
    ensures f.failed <==> policy == RaiseUnreadable && f.processed != processed && !fs.Readable(fs.AbsPath(PathJoin(base, fileName)))
  {
    var pth := fs.AbsPath(PathJoin(base, fileName));
    if pth in processed then Nothing(processed)
    else if !fs.Readable(pth) then Feed([], [], processed + {pth}, policy == RaiseUnreadable)
    else
      var lines := fs.Lines(pth);
      Feed(PthPaths(base, fileName, lines), PthExecs(fileName, lines), processed + {pth}, false)
  }

  /** One entry of the directory listing: a dotfile is skipped; a `*.pth` entry
      is processed against the directory; an entry holding `__site__.pth` has
      that file processed against the entry. */
  function EntryFeed(fs: FileSystem, policy: Unreadable, processed: set<string>, dirName: string, entry: string): (f: Feed)
    ensures processed <= f.processed
    ensures policy == SkipUnreadable ==> !f.failed
  {
    if StartsWith(entry, ".") then Nothing(processed)
    else
      var top := if EndsWith(entry, ".pth") then PthFeed(fs, policy, processed, dirName, entry) else Nothing(processed);
      var sub := PathJoin(dirName, entry);
      var nested :=
        if fs.Exists(PathJoin(sub, "__site__.pth")) then PthFeed(fs, policy, top.processed, sub, "__site__.pth")
        else Nothing(top.processed);
      Then(top, nested)
  }

  /** An entry that is not a dotfile: its own `.pth` (if it is one), then its
      `__site__.pth` (if any), unless the first raised. */
  lemma EntryThen(fs: FileSystem, policy: Unreadable, processed: set<string>, dirName: string, entry: string, top: Feed, nested: Feed)
    requires !StartsWith(entry, ".")
    requires top == if EndsWith(entry, ".pth") then PthFeed(fs, policy, processed, dirName, entry) else Nothing(processed)
    requires nested == if fs.Exists(PathJoin(PathJoin(dirName, entry), "__site__.pth"))
                       then PthFeed(fs, policy, top.processed, PathJoin(dirName, entry), "__site__.pth")
                       else Nothing(top.processed)
    ensures EntryFeed(fs, policy, processed, dirName, entry) == Then(top, nested)
  {
  }

  /** An entry that is not a dotfile, when unreadable files are skipped: the
      entry's own `.pth` (if it is one), then its `__site__.pth` (if any). */
  lemma EntrySplit(fs: FileSystem, processed: set<string>, dirName: string, entry: string, top: Feed, nested: Feed)
    requires !StartsWith(entry, ".")
    requires top == if EndsWith(entry, ".pth") then PthFeed(fs, SkipUnreadable, processed, dirName, entry) else Nothing(processed)
    requires nested == if fs.Exists(PathJoin(PathJoin(dirName, entry), "__site__.pth"))
                       then PthFeed(fs, SkipUnreadable, top.processed, PathJoin(dirName, entry), "__site__.pth")
                       else Nothing(top.processed)
    ensures EntryFeed(fs, SkipUnreadable, processed, dirName, entry) ==
      Feed(top.paths + nested.paths, top.execs + nested.execs, nested.processed, false)
  {
  }

  /** The entries of the listing, in listing order. */
  function ListingFeed(fs: FileSystem, policy: Unreadable, processed: set<string>, dirName: string, entries: seq<string>): (f: Feed)
    ensures processed <= f.processed
    ensures policy == SkipUnreadable ==> !f.failed
  {
    if entries == [] then Nothing(processed)
    else
      var init := ListingFeed(fs, policy, processed, dirName, entries[..|entries| - 1]);
      Then(init, EntryFeed(fs, policy, init.processed, dirName, entries[|entries| - 1]))
  }

  /** One more entry of the listing. */
  lemma ListingStep(fs: FileSystem, policy: Unreadable, processed: set<string>, dirName: string, entries: seq<string>, i: nat)
    requires i < |entries|
    ensures var init := ListingFeed(fs, policy, processed, dirName, entries[..i]);
      ListingFeed(fs, policy, processed, dirName, entries[..i + 1]) == Then(init, EntryFeed(fs, policy, init.processed, dirName, entries[i]))
  {
    assert entries[..i + 1][..i] == entries[..i];
  }

  /** Once an entry of the listing has raised, later entries change nothing. */
  lemma {:induction false} ListingFeedStops(fs: FileSystem, policy: Unreadable, processed: set<string>, dirName: string,
                                            entries: seq<string>, i: nat, j: nat)
    requires i <= j <= |entries|
    requires ListingFeed(fs, policy, processed, dirName, entries[..i]).failed
    ensures ListingFeed(fs, policy, processed, dirName, entries[..j]) == ListingFeed(fs, policy, processed, dirName, entries[..i])
    decreases j
  {
    if j > i {
      ListingFeedStops(fs, policy, processed, dirName, entries, i, j - 1);
      ListingStep(fs, policy, processed, dirName, entries, j - 1);
    }
  }

  /** `add_site_dir(dir_name)`: nothing for a missing directory; otherwise the
      directory itself first, then its listing (`os.listdir` raises when the
      path is not a directory or cannot be read). */
  function SiteDirFeed(fs: FileSystem, policy: Unreadable, processed: set<string>, dirName: string): (f: Feed)
    ensures processed <= f.processed
    ensures !fs.Exists(dirName) ==> f == Nothing(processed)
    ensures fs.Exists(dirName) ==> |f.paths| >= 1 && f.paths[0] == dirName
    ensures f.failed && policy == SkipUnreadable ==> f == Feed([dirName], [], processed, true) && !fs.Listable(dirName)
  {
    if !fs.Exists(dirName) then Nothing(processed)
    else if !fs.Listable(dirName) then Feed([dirName], [], processed, true)
    else Then(Feed([dirName], [], processed, false), ListingFeed(fs, policy, processed, dirName, fs.Listing(dirName)))
  }

  /** `add_site_dir` on a listable directory: itself, then its listing. */
  lemma SiteDirFeedOfDir(fs: FileSystem, policy: Unreadable, processed: set<string>, dirName: string)
    requires fs.Listable(dirName)
    ensures var listed := ListingFeed(fs, policy, processed, dirName, fs.Listing(dirName));
      SiteDirFeed(fs, policy, processed, dirName)
        == Feed([dirName] + listed.paths, listed.execs, listed.processed, listed.failed)
  {
  }

  /** `add_site_dir` on an existing path that is not a directory, or is one
      that cannot be read: the path goes in, then `os.listdir` raises. */
  lemma SiteDirFeedOfFile(fs: FileSystem, policy: Unreadable, processed: set<string>, dirName: string)
    requires fs.Exists(dirName) && !fs.Listable(dirName)
    ensures SiteDirFeed(fs, policy, processed, dirName) == Feed([dirName], [], processed, true)
  {
  }

  /** Processing the same site directory a second time reads no `.pth` file
      again and runs no `import` line again: every file the first pass could
      reach is already marked processed. */
  lemma {:induction false} SecondPassReadsNothing(fs: FileSystem, policy: Unreadable, processed: set<string>, dirName: string)
    requires !SiteDirFeed(fs, policy, processed, dirName).failed
    ensures var first := SiteDirFeed(fs, policy, processed, dirName);
      var second := SiteDirFeed(fs, policy, first.processed, dirName);
      second.execs == [] && second.processed == first.processed && !second.failed
      && (fs.Exists(dirName) ==> second.paths == [dirName])
  {
    var first := SiteDirFeed(fs, policy, processed, dirName);
    if fs.Exists(dirName) {
      var entries := fs.Listing(dirName);
      ListingIdle(fs, policy, processed, first.processed, dirName, entries);
    }
  }

  /** A listing whose `.pth` files are all marked processed feeds nothing. */
  lemma {:induction false} ListingIdle(fs: FileSystem, policy: Unreadable, processed: set<string>, done: set<string>,
                                       dirName: string, entries: seq<string>)
    requires ListingFeed(fs, policy, processed, dirName, entries).processed <= done
    requires !ListingFeed(fs, policy, processed, dirName, entries).failed
    ensures ListingFeed(fs, policy, done, dirName, entries) == Nothing(done)
  {
    if entries != [] {
      var init := ListingFeed(fs, policy, processed, dirName, entries[..|entries| - 1]);
      var e := entries[|entries| - 1];
      var ef := EntryFeed(fs, policy, init.processed, dirName, e);
      assert init.processed <= ef.processed;
      ListingIdle(fs, policy, processed, done, dirName, entries[..|entries| - 1]);
      EntryIdle(fs, policy, init.processed, done, dirName, e);
    }
  }

  lemma EntryIdle(fs: FileSystem, policy: Unreadable, processed: set<string>, done: set<string>, dirName: string, entry: string)
    requires EntryFeed(fs, policy, processed, dirName, entry).processed <= done
    requires !EntryFeed(fs, policy, processed, dirName, entry).failed
    ensures EntryFeed(fs, policy, done, dirName, entry) == Nothing(done)
  {
    if !StartsWith(entry, ".") {
      var top := if EndsWith(entry, ".pth") then PthFeed(fs, policy, processed, dirName, entry) else Nothing(processed);
      var sub := PathJoin(dirName, entry);
      if EndsWith(entry, ".pth") {
        assert fs.AbsPath(PathJoin(dirName, entry)) in done;
      }
      if fs.Exists(PathJoin(sub, "__site__.pth")) {
        var nested := PthFeed(fs, policy, top.processed, sub, "__site__.pth");
        assert fs.AbsPath(PathJoin(sub, "__site__.pth")) in done;
      }
    }
  }
}
