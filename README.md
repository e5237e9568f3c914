# sitetools start-up core, modelled in Dafny

sitetools (and its older `sitecustomize` form) customises a Python interpreter
at start-up. Two pieces of it are modelled and proved here, in every revision
that the repository carries:

- **Pseudo site-packages.** A directory of `KS_SITES` or `KS_PYTHON_SITES` is
  added to `sys.path`. So are the paths named by its `*.pth` files and by the
  `__site__.pth` files of its sub-directories. The current resolver is
  `sitetools/sites.py` (`Site`, `SysPathInserter`, `_process_pth`,
  `add_site_dir`, `add_site_list`, `_setup`). The older one is
  `sitecustomize/sites.py`, which makes a fresh inserter anchored at a `before`
  entry on every call. The oldest is `sites.py`, which collects first and
  inserts afterwards.
- **Environment freezes.** `freeze` records variables' current values in a diff
  stored in one environment variable. `unfreeze`, `apply_diff` and `_setup`
  later put those values back. There is a labelled form (`sitetools/environ.py`)
  and a single-variable one (`environ.py`).

Around them sit:
- the small helpers of `sitetools/utils.py`;
- the `KS_VERBOSE` / `KS_LOG_LEVELS` decisions of both logging set-ups;
- the git-output parsing and ref-chasing of `sitetools/repos.py`.

How things are represented:
- **The interpreter** is a class `PathInsertion.Interpreter`, updated in place by
  the methods. Its fields are `sys.path` as a `seq<string>`, the processed-`.pth`
  set, and the `import` lines run, in order.
- **The file system** is one immutable value (`FileSystems.FileSystem`). It holds
  the paths that exist, the paths whose `stat` fails, directory listings in
  listing order, and the lines of readable files.
- **The environment** is a class `EnvironDiffs.Environ` holding a
  `map<string, string>`. A diff is a `map<string, Option<string>>`, and `None`
  means "unset".

Every state-changing method is proved equal to a specification function, and the
properties are proved about those functions:
- **Site set-up.** A site directory yields a `Feed`: the paths handed to the
  inserter, the lines run, the `.pth` files marked processed, and whether an
  exception escaped. The effect on `sys.path` is `AddAll` of those paths through
  the inserter's cursor. `PathInsertion.BlockInsert` and `PathInsertion.AppendAll`
  show that this effect is one block of new, existing, distinct entries. In index
  mode the block goes at the cursor; otherwise it goes at the end.
- **Environment.** Applying a diff is `EnvironDiffs.Applied`, and the values it
  replaces are `EnvironDiffs.Originals`. The unfreeze/refreeze round trip is
  proved on these.
- **JSON storage.** JSON is replaced by a small encoding with the one property the
  code relies on: `Loads(Dumps(d)) == Some(d)`.

## Model

| member | source | states |
|---|---|---|
| FileSystems.DirName | sitetools/sites.py:92 | POSIX `dirname`: a prefix of the path, up to its last `/`, with trailing slashes removed unless only slashes remain |
| FileSystems.DirNameShrinks | sitetools/sites.py:91-92 | on a path that is not all slashes, each `dirname` step shortens it and keeps it absolute |
| FileSystems.DirNameOfSlashes | sitetools/sites.py:92 | `dirname` of `/`, `//`, `///`… is the path itself |
| FileSystems.DirNameDoubleSlash | sitetools/sites.py:92 | `dirname` keeps a leading `//` and never creates one |
| PathInsertion.PyInsert | sitetools/sites.py:151 | `list.insert(i, x)`: one element longer and holding `x`; for `0 <= i <= len` the element lands at `i`, past the end it is appended |
| PathInsertion.IndexOf | sitetools/sites.py:132 | `list.index(x)`: absent exactly when `x` is not in the list, otherwise the first position holding `x` |
| PathInsertion.AddOne | sitetools/sites.py:136-154 | one `add(path)`: nothing when the absolute path does not exist or is already on `sys.path`; otherwise `sys.path` grows by one and holds it; append mode stays append mode |
| PathInsertion.AddAll | sitetools/sites.py:136-154 | a series of `add` calls grows `sys.path` by at most one entry per call, never shrinks it, and keeps append mode |
| PathInsertion.AddAllSnoc | sitetools/sites.py:136-154 | a series of `add` calls followed by one more is that `add` applied to the series' result |
| PathInsertion.AbsPaths | sitetools/sites.py:215 | the absolute forms of a list, element by element, same length |
| PathInsertion.FreshNew | sitetools/sites.py:139-148 | the entries `add` really inserts exist, were not on `sys.path` before, and are pairwise distinct |
| PathInsertion.FreshFromPaths | sitetools/sites.py:139-148 | every inserted entry is the absolute form of one of the paths given |
| PathInsertion.FreshCovers | sitetools/sites.py:139-148 | every path given that exists ends up on `sys.path`: already present or inserted |
| PathInsertion.AddAllConcat | sitetools/sites.py:136-154 | two series of `add` calls on one inserter are the first followed by the second from where it left the cursor |
| PathInsertion.FreshConcat | sitetools/sites.py:139-148 | the entries inserted by two series are those of the first followed by those of the second against the grown `sys.path` |
| PathInsertion.BlockInsert | sitetools/sites.py:150-152 | in index mode the new entries land as one block, in call order, at the starting index, and the cursor advances by their number; existing entries keep their order |
| PathInsertion.AppendAll | sitetools/sites.py:153-154 | in append mode the new entries go to the end in call order |
| PathInsertion.AddAllNoDups | sitetools/sites.py:146-148 | `add` never creates a duplicate on a `sys.path` that had none |
| PathInsertion.NoDupsInsert | sitetools/sites.py:146-151 | inserting an absent entry anywhere keeps a list duplicate-free |
| PathInsertion.AddAllKeeps | sitetools/sites.py:139-154 | `add` removes nothing from `sys.path`, and every existing path given ends up on it |
| PthFiles.Classify | sitetools/sites.py:182-201 | a stripped line is ignored exactly when blank, a `#` comment, or an `import` line of `easy-install.pth` mentioning `sys.__plen`; a line not ignored is run exactly when it starts with `import`, and the code run or the directory named is the stripped line itself |
| PthFiles.PthPaths | sitetools/sites.py:199-201 | the directories a `.pth` file adds are at most one per line |
| PthFiles.PthExecs | sitetools/sites.py:189-198 | the `import` lines run are at most one per line |
| PthFiles.PthStep | sitetools/sites.py:182-201 | one more line contributes its directory (joined to `base`) or its `import` line, in line order |
| PthFiles.EveryLineCounted | sitetools/sites.py:185-201 | every line not ignored is either run or added, never both |
| PthFiles.PthFeed | sitetools/sites.py:163-180 | the absolute `.pth` path is marked processed before it is opened; an already-processed file contributes nothing; only an unreadable file under the raising policy fails |
| PthFiles.EntryFeed | sitetools/sites.py:254-266 | one listing entry only adds to the processed set, and never fails when unreadable files are skipped |
| PthFiles.EntrySplit | sitetools/sites.py:260-266 | a visible entry is its own `*.pth` file (if it is one), then the `__site__.pth` inside it (if that exists) |
| PthFiles.ListingFeed | sitetools/sites.py:254-266 | the listing only adds to the processed set and never fails when unreadable files are skipped |
| PthFiles.ListingStep | sitetools/sites.py:254-266 | the listing is worked through entry by entry, in listing order |
| PthFiles.ListingFeedStops | sitecustomize/sites.py:175-187 | once an entry has raised, later entries change nothing |
| PthFiles.SiteDirFeed | sitetools/sites.py:246-266 | a missing directory does nothing; otherwise the directory itself is the first path added; a failure with skipping is an existing path `os.listdir` cannot read |
| PthFiles.SiteDirFeedOfFile | sitetools/sites.py:250-254 | an existing path `os.listdir` cannot read (a file, or a directory without read permission) is added, then the listing raises |
| PthFiles.SecondPassReadsNothing | sitetools/sites.py:169-172 | the same site directory a second time runs no line, marks nothing new and adds only the directory |
| PthFiles.ListingIdle | sitetools/sites.py:169-172 | a listing whose `.pth` files are all processed contributes nothing |
| PthFiles.EntryIdle | sitetools/sites.py:169-172 | an entry whose `.pth` files are all processed contributes nothing |
| SitetoolsSites.SitePackagePostfix | sitetools/sites.py:71 | `lib/pythonX.Y/site-packages`, a relative path |
| SitetoolsSites.SiteOf | sitetools/sites.py:76-101 | `Site(path)`: a site made keeps the normalised path |
| SitetoolsSites.SiteOfClassifies | sitetools/sites.py:76-86 | a `stat` error other than "no such file" propagates; a missing path is `site does not exist`; an existing directory, and only that, gives a plain (non-virtualenv) site on the normalised path |
| SitetoolsSites.SiteOfBinPath | sitetools/sites.py:84-105 | a site has no `bin_path` exactly when it was built from a directory |
| SitetoolsSites.SiteOfVenv | sitetools/sites.py:88-105 | a virtualenv site comes from an interpreter named `python` or `pythonX.Y`; its prefix is an ancestor of the executable holding site-packages, so its `python_path` exists, and `bin_path` is prefix/bin |
| SitetoolsSites.FindPrefixFound | sitetools/sites.py:89-96 | a prefix found is an ancestor of the executable holding site-packages |
| SitetoolsSites.NewSite | sitetools/sites.py:76-101 | the `while`/`else` walk of `Site.__init__`, stopping once only slashes remain, computes `SiteOf` |
| SitetoolsSites.FindPrefixNone | sitetools/sites.py:91-98 | no prefix exactly when no ancestor holds site-packages (`file is not within a virtualenv`) |
| SitetoolsSites.FindPrefixNearest | sitetools/sites.py:90-96 | the prefix is the nearest ancestor holding site-packages |
| SitetoolsSites.AncestorsEndAtRoot | sitetools/sites.py:91-92 | from an absolute path the walk visits absolute directories only and ends at a run of slashes, which is `/` unless the path starts with `//` |
| SitetoolsSites.WalkAsWritten | sitetools/sites.py:90-96 | the loop exactly as written, with a step bound: a prefix it finds holds site-packages |
| SitetoolsSites.AsWrittenWalkAgrees | sitetools/sites.py:90-96 | on a path not starting with `//` the loop as written ends within `len(path)` steps and finds the nearest prefix |
| SitetoolsSites.SlashesStuck | sitetools/sites.py:90-93 | at `//` (or more slashes) the guard still holds and `dirname` returns the same path, so the loop as written never ends |
| SitetoolsSites.DoubleSlashNeverEnds | sitetools/sites.py:90-98 | from a path starting with `//` with no site-packages above it, the loop as written never ends, where the intended walk reports `file is not within a virtualenv` |
| SitetoolsSites.DoubleSlashShown | sitetools/sites.py:90-98 | the walk from `//usr/bin/python` with no site-packages anywhere never ends as written |
| SitetoolsSites.SitesEqualByNormPath | sitetools/sites.py:117-118 | two sites are equal exactly when their normalised paths are |
| SitetoolsSites.InitialCursor | sitetools/sites.py:124-134 | no index appends; an integer is the cursor; a string is located on `sys.path` (first occurrence) or, when absent, appends |
| SitetoolsSites.SysPathInserter.constructor | sitetools/sites.py:124-134 | the starting cursor, and a warning exactly when the `before` string is not on `sys.path` |
| SitetoolsSites.SysPathInserter.Add | sitetools/sites.py:136-154 | `add` updates `sys.path` and the cursor as `AddOne` |
| SitetoolsSites.PthLines | sitetools/sites.py:182-201 | the line loop runs exactly `PthExecs` and adds exactly `PthPaths` through the inserter, in line order |
| SitetoolsSites.PthLine | sitetools/sites.py:182-201 | one line runs its `import` line or adds its directory through the inserter |
| SitetoolsSites.ProcessPth | sitetools/sites.py:160-201 | `_process_pth` marks the file, skips it when processed or unreadable, and otherwise runs and adds exactly `PthFeed` |
| SitetoolsSites.SiteEntry | sitetools/sites.py:254-266 | one listing entry does exactly `EntryFeed` |
| SitetoolsSites.SiteListing | sitetools/sites.py:254-266 | the listing loop does exactly `ListingFeed` |
| SitetoolsSites.ExistingSiteDir | sitetools/sites.py:251-266 | for an existing path: the path through the inserter, then its listing, exactly `SiteDirFeed`; a path `listdir` cannot read raises |
| SitetoolsSites.SiteDirWith | sitetools/sites.py:247-266 | the body of `add_site_dir` with a chosen inserter does exactly `SiteDirFeed` |
| SitetoolsSites.AddSiteDir | sitetools/sites.py:232-266 | `add_site_dir` does nothing for a missing directory; otherwise it uses the given inserter or a fresh one at `before`, and does exactly `SiteDirFeed` through it; the `not found on sys.path` warning is given exactly when the directory exists, no inserter was given and the `before` string is not on `sys.path` |
| SitetoolsSites.DirsFeed | sitetools/sites.py:225-229 | a list of site directories only adds to the processed set |
| SitetoolsSites.DirsFeedStops | sitetools/sites.py:225-229 | after a directory raised, later directories change nothing |
| SitetoolsSites.SplitIndex | sitetools/sites.py:220-223 | the first index of our site-packages in the list, or its length when absent |
| SitetoolsSites.SiteDirs | sitetools/sites.py:225-229 | site directories in order through one inserter do exactly `DirsFeed` |
| SitetoolsSites.SiteHalves | sitetools/sites.py:225-229 | the two halves of the list through their two inserters do the first half's `DirsFeed`, then the second's |
| SitetoolsSites.AddSiteList | sitetools/sites.py:204-229 | `add_site_list` works the absolute list through the prepending inserter up to our site-packages and through the appending one from there |
| SitetoolsSites.ListPathCentered | sitetools/sites.py:207-229 | the first half's new entries form one block at the front of `sys.path`, the second half's go at the end; without our site-packages everything is prepended |
| SitetoolsSites.AddSiteDirTwice | sitetools/sites.py:169-172 | adding the same site directory again through the same cursor changes nothing |
| SitetoolsSites.SitePathsAsWritten | sitetools/sites.py:271-277 | the site list as written has one entry per `KS_SITES` entry |
| SitetoolsSites.SitePaths | sitetools/sites.py:271-277 | the intended site list has at most one entry per `KS_SITES` entry and fails only on a `stat` error |
| SitetoolsSites.SitePathsFails | sitetools/sites.py:273-276 | the site list fails exactly when `stat` fails on an entry, reporting the first such entry |
| SitetoolsSites.SitePathsFromValid | sitetools/sites.py:271-277 | every path of the site list is the `python_path` of a valid entry |
| SitetoolsSites.SitePathsAllValid | sitetools/sites.py:271-277 | with every entry valid the list is their `python_path`s, in order |
| SitetoolsSites.AsWrittenAllValid | sitetools/sites.py:271-277 | as written, with every entry valid the list is also their `python_path`s, in order |
| SitetoolsSites.AsWrittenAgreesWhenValid | sitetools/sites.py:271-277 | where every entry is valid, the code as written and the intended site list agree |
| SitetoolsSites.UnboundSiteShown | sitetools/sites.py:272-277 | an invalid first entry leaves `site` unbound as written; the intended list skips it |
| SitetoolsSites.RepeatedSiteShown | sitetools/sites.py:272-277 | an invalid later entry repeats the previous site as written; the intended list skips it |
| SitetoolsSites.SiteList | sitetools/sites.py:271-277 | the site-list loop computes `SitePaths` |
| SitetoolsSites.Setup | sitetools/sites.py:269-282 | `_setup` raises on a `stat` error and changes nothing; otherwise it does `add_site_list` and turns its exception into a warning. It uses the corrected site list `SitePaths`, which skips invalid `KS_SITES` entries, not the code as written (see "## Findings") |
| SitetoolsSites.StatErrorStops | sitetools/sites.py:272-277 | after a `stat` error the rest of `KS_SITES` does not matter |
| SitecustomizeSites.StartCursor | sitecustomize/sites.py:86-93 | append mode exactly when `before` is falsy or not on `sys.path`; otherwise the first index of `before` |
| SitecustomizeSites.SysPathInserter.constructor | sitecustomize/sites.py:86-93 | the starting cursor, and a warning exactly when a non-empty `before` is not on `sys.path` |
| SitecustomizeSites.SysPathInserter.Add | sitecustomize/sites.py:95-114 | `add` updates `sys.path` and the cursor as `AddOne` |
| SitecustomizeSites.PthLines | sitecustomize/sites.py:132-150 | the line loop runs exactly `PthExecs` and adds exactly `PthPaths` through the inserter, in line order |
| SitecustomizeSites.PthLine | sitecustomize/sites.py:132-150 | one line runs its `import` line or adds its directory through the inserter |
| SitecustomizeSites.ProcessPth | sitecustomize/sites.py:120-150 | `_process_pth` marks the file before opening it and raises on an unreadable one, doing exactly `PthFeed` |
| SitecustomizeSites.SiteEntry | sitecustomize/sites.py:175-187 | one listing entry does exactly `EntryFeed`, raising with it |
| SitecustomizeSites.NestedPth | sitecustomize/sites.py:186-187 | a child `__site__.pth` that exists is processed as `PthFeed`, raising with it; otherwise nothing happens |
| SitecustomizeSites.SiteListing | sitecustomize/sites.py:175-187 | the listing loop does exactly `ListingFeed`; the first exception ends it |
| SitecustomizeSites.ExistingSiteDir | sitecustomize/sites.py:172-187 | for an existing directory: the directory through the inserter, then its listing, exactly `SiteDirFeed` |
| SitecustomizeSites.AddSiteDir | sitecustomize/sites.py:153-187 | `add_site_dir` does nothing for a missing directory, and otherwise exactly `SiteDirFeed` through a fresh inserter at `before`; it warns exactly when the directory exists and a non-empty `before` is not on `sys.path` |
| SitecustomizeSites.StripPieces | sitecustomize/sites.py:199 | the list comprehension computes `Stripped` |
| SitecustomizeSites.Stripped | sitecustomize/sites.py:199 | the kept pieces, stripped: no leading or trailing whitespace |
| SitecustomizeSites.CandidatesShape | sitecustomize/sites.py:194-200 | the site list ends with the package's own directory, its other entries hold no `:`, and it is only that directory when `KS_PYTHON_SITES` is unset or empty |
| SitecustomizeSites.StrippedNoSep | sitecustomize/sites.py:199 | stripping introduces no separator |
| SitecustomizeSites.SetupWarnings | sitecustomize/sites.py:201-205 | one warning at most per site, each naming a site of the list |
| SitecustomizeSites.SetupSite | sitecustomize/sites.py:203 | one `add_site_dir(site, before=...)` of the loop is one `SiteStep` |
| SitecustomizeSites.TrySites | sitecustomize/sites.py:201-205 | the `try`/`except` loop tries every site in order, computing `SetupRun` |
| SitecustomizeSites.Setup | sitecustomize/sites.py:190-205 | `_setup` adds every site in order before our directory, turning each exception into a warning and going on |
| SitecustomizeSites.StepBeforeAnchor | sitecustomize/sites.py:201-203 | the new entries of one site, added by an inserter made at the anchor, go in as one block just before the anchor, and the block never holds the anchor |
| SitecustomizeSites.BlockBeforeAnchor | sitecustomize/sites.py:110-112 | after a block without the anchor is put just in front of it, the anchor is found after the block |
| SitecustomizeSites.IndexOfFirst | sitecustomize/sites.py:90 | `index` is the first occurrence |
| SitecustomizeSites.SetupAroundAnchor | sitecustomize/sites.py:201-203 | however many sites are added, the entries before the anchor and from the anchor on stay in place, and the anchor stays the first occurrence |
| SitecustomizeSites.SiteStepAroundAnchor | sitecustomize/sites.py:201-203 | one more site keeps the entries before the anchor and from the anchor on, with the anchor still the first occurrence |
| SitecustomizeSites.AroundBlock | sitecustomize/sites.py:110-112 | one more block before the anchor keeps the front and the anchored tail |
| LegacySites.LegacyClassify | sites.py:39-45 | only `#` lines are ignored, `import` lines are run, and a blank line names `base` itself; the code run or the directory named is the stripped line itself |
| LegacySites.LinePaths | sites.py:45-46 | at most one collected path per line |
| LegacySites.LineExecs | sites.py:42-44 | at most one run per line |
| LegacySites.LineStep | sites.py:38-46 | one more line appends its path or runs its `import` line |
| LegacySites.LinesAccounted | sites.py:38-46 | every non-comment line contributes exactly one path or one run |
| LegacySites.PthBatch | sites.py:36-46 | `_process_pth` raises exactly when the file cannot be opened, and then collects nothing |
| LegacySites.EntryBatch | sites.py:73-85 | a dotfile contributes nothing |
| LegacySites.ListingStep | sites.py:73-85 | the listing is collected entry by entry, in listing order |
| LegacySites.ChainFailed | sites.py:73-85 | a part that raised ends the collection |
| LegacySites.ListingStops | sites.py:73-85 | after an entry raised, later entries change nothing |
| LegacySites.Collect | sites.py:61-85 | the directory itself is collected first; a directory that cannot be listed raises with only itself collected |
| LegacySites.LegacyCursor | sites.py:66-70 | `if insert_at:` inserts only when `before` is found at a non-zero index, at its first occurrence |
| LegacySites.ReadLine | sites.py:38-46 | one line appends its path to `paths` or runs its `import` line |
| LegacySites.ProcessPth | sites.py:36-46 | the line loop collects exactly `PthBatch` |
| LegacySites.CollectEntry | sites.py:75-85 | one listing entry collects exactly `EntryBatch` |
| LegacySites.NestedPth | sites.py:84-85 | a child `__site__.pth` that exists is collected as `PthBatch`, raising with it; otherwise nothing is collected |
| LegacySites.CollectListing | sites.py:73-85 | the listing loop collects exactly `ListingBatch`; the first exception ends it |
| LegacySites.InsertOne | sites.py:90-105 | one path of the insertion loop, with its `existing` set, does what `add` does |
| LegacySites.InsertCollected | sites.py:88-105 | the insertion loop with `existing` equals `AddAll` |
| LegacySites.CollectDir | sites.py:61-85 | the collecting half of `add_site_dir` computes `Collect` |
| LegacySites.AddSiteDir | sites.py:49-105 | a missing directory changes nothing; an exception while collecting leaves `sys.path` alone; otherwise the collected paths are inserted through `LegacyCursor`; it warns exactly when the directory exists and a non-empty `before` is not on `sys.path` |
| LegacySites.InsertedAsBlock | sites.py:101-105 | only insertions happen: the new entries form one block just before `before` or at the end |
| LegacySites.FirstEntryAppends | sites.py:101-105 | `before` naming the first entry of `sys.path` appends |
| DiffCodec.DecodeEncodeString | sitetools/environ.py:47-48 | a written string reads back, with what follows it |
| DiffCodec.DecodeEncodeEntry | sitetools/environ.py:47-48 | a written diff entry reads back |
| DiffCodec.Loads | sitetools/environ.py:48 | a text that reads as a diff is at least the two braces |
| DiffCodec.Dumps | sitetools/environ.py:47 | whatever the key order, the stored text reads back as the diff |
| EnvironDiffs.DiffIn | sitetools/environ.py:105-110 | an unset or empty variable holds the empty diff; a failure names the variable |
| EnvironDiffs.RecordedContents | sitetools/environ.py:91-93 | every frozen name gets its current value (`None` when unset); other entries of the earlier diff survive |
| EnvironDiffs.Applied | sitetools/environ.py:137-140 | after a diff each of its names is set to its value or unset, and every other variable is unchanged |
| EnvironDiffs.Originals | sitetools/environ.py:120-144 | the values reported cover exactly the diff's names |
| EnvironDiffs.ApplyOriginalsRestores | sitetools/environ.py:168-178 | applying the reported originals right after a diff restores the environment exactly |
| EnvironDiffs.ReapplyReportsDiff | sitetools/environ.py:178-179 | that second application reports the diff itself |
| EnvironDiffs.RefreezeRestoresDiffNames | sitetools/environ.py:178 | after any changes, re-applying the originals restores the diff's names and keeps other changes |
| EnvironDiffs.ReplacedEqualsDiff | sitetools/environ.py:178-180 | the replaced values equal the diff exactly when nothing the diff names changed in between |
| EnvironDiffs.AppliedEmpty | sitetools/environ.py:141-144 | the empty diff changes nothing |
| EnvironDiffs.AppliedStep | sitetools/environ.py:123-140 | one more entry sets or unsets its name |
| EnvironDiffs.ApplyDiffStep | sitetools/environ.py:123-140 | one more name of the diff, taken in any order, sets or unsets it and records its earlier value |
| SitetoolsEnviron.CollapseNonWord | sitetools/environ.py:54 | `re.sub(r'\W+', '_', s)` gives only word characters, is no longer than `s`, and is empty only for empty `s` |
| SitetoolsEnviron.CollapseWordUnchanged | sitetools/environ.py:54 | a word-character string is unchanged |
| SitetoolsEnviron.VariableName | sitetools/environ.py:52-56 | a falsy label gives `KS_ENVIRON_DIFF`; otherwise `KS_<word characters>_ENVIRON_DIFF` |
| SitetoolsEnviron.NukeLabel | sitetools/environ.py:52-56 | the label `nuke` uses `KS_NUKE_ENVIRON_DIFF` |
| SitetoolsEnviron.WordLabel | sitetools/environ.py:52-56 | a word-character label keeps its upper-cased spelling |
| SitetoolsEnviron.SeparatedLabel | sitetools/environ.py:54 | a run of non-word characters becomes one `_` |
| SitetoolsEnviron.PunctuationShared | sitetools/environ.py:54 | labels differing only in punctuation share one variable |
| SitetoolsEnviron.GetDiff | sitetools/environ.py:97-110 | `_get_diff` returns the stored diff; with `pop` it removes the variable, and otherwise it leaves the environment unchanged |
| SitetoolsEnviron.Record | sitetools/environ.py:92-93 | the recording loop of `freeze` computes `Recorded` |
| SitetoolsEnviron.Freeze | sitetools/environ.py:59-94 | `freeze` writes only the label's variable, and it reads back as the earlier diff plus the current values of the names |
| SitetoolsEnviron.FreezeCumulative | sitetools/environ.py:72-73 | earlier entries survive, re-frozen names are overwritten, and absent names record `None` |
| SitetoolsEnviron.ApplyEntry | sitetools/environ.py:123-140 | one entry records the old value, then unsets or sets the name |
| SitetoolsEnviron.ApplyDiff | sitetools/environ.py:113-144 | `_apply_diff` leaves `Applied` and returns `Originals` |
| SitetoolsEnviron.Unfreeze | sitetools/environ.py:147-169 | `unfreeze` pops if asked, applies the label's diff, and hands the diff and the originals to the refreezer |
| SitetoolsEnviron.Refreeze | sitetools/environ.py:172-180 | on exit the originals are re-applied, with a warning (never an exception) exactly when the replaced values differ from the diff |
| SitetoolsEnviron.UnfreezeRefreeze | sitetools/environ.py:166-180 | with nothing changed inside, unfreeze then refreeze restores the environment without a warning |
| SitetoolsEnviron.Setup | sitetools/environ.py:183-184 | `_setup` removes `KS_ENVIRON_DIFF` and applies the diff it held |
| SitetoolsEnviron.FreezeForStartup | tests/test_environ.py:10-24 | freeze `X`, change it, unfreeze with `pop`: `X` is back and `KS_ENVIRON_DIFF` is gone |
| LegacyEnviron.ExistingDiff | environ.py:12-14 | no diff variable means the empty diff |
| LegacyEnviron.Freeze | environ.py:16-31 | `freeze` writes only `KS_PYTHON_ENVIRON_DIFF`, and it reads back as the earlier diff plus the current values of the names |
| LegacyEnviron.SetOrUnset | environ.py:39-42 | `None` unsets (absent is fine), a string sets |
| LegacyEnviron.ApplyDiff | environ.py:33-42 | `apply_diff` always pops the diff variable, then applies the diff it held |
| LegacyEnviron.DiffVariableConsumed | environ.py:34 | the diff variable is gone afterwards unless the diff itself sets it |
| LegacyEnviron.ApplyTwice | environ.py:34-35 | a second `apply_diff` right after the first changes nothing |
| LegacyEnviron.FreezeChangeApply | environ.py:28-42 | freeze, change, apply: each frozen name is back to its frozen value; other changes stay |
| SitetoolsUtils.GetEnvironList | sitetools/utils.py:45-52 | `[]` when unset; otherwise pieces without `:` that join back to the value |
| SitetoolsUtils.UniqueList | sitetools/utils.py:33-42 | the loop with `seen` and `output` computes `UniqueBy` |
| SitetoolsUtils.UniqueKeys | sitetools/utils.py:35-41 | the output's keys are pairwise distinct and are exactly the input's keys |
| SitetoolsUtils.UniqueIsSubsequence | sitetools/utils.py:36-42 | the output is a subsequence of the input |
| SitetoolsUtils.UniqueKeepsFirst | sitetools/utils.py:37-41 | the element kept for a key is the input's first with that key |
| SitetoolsUtils.UniqueIdempotent | sitetools/utils.py:33-42 | de-duplicating twice is de-duplicating once |
| SitetoolsUtils.DistinctKeysUnchanged | sitetools/utils.py:33-42 | an input with distinct keys is returned as it is |
| LogLevels.VerbosityLevel | sitetools/logging.py:223-229 | `'0'` or unset is INFO, `'2'` TRACE (5), `'3'` BLATHER (1), anything else DEBUG |
| LogLevels.IgnoresDeprecations | sitetools/logging.py:232-233 | deprecation warnings are ignored exactly when no verbosity was asked for |
| LogLevels.RequestedSpecs | sitetools/logging.py:252-255 | the items are non-empty and hold no whitespace or comma; none when unset |
| LogLevels.ParseIntOfDigits | sitetools/logging.py:267 | `int` of a digit string is its decimal value |
| LogLevels.ParseIntOfPrinted | sitetools/logging.py:267 | `int` reads back every printed integer |
| LogLevels.ParseLevel | sitetools/logging.py:266-271 | an integer is used when it fits a 64-bit `int` and rejected when `int()` gives a `long`; otherwise the upper-cased name of a level attribute (TRACE and BLATHER included); every level returned is a plain `int` |
| LogLevels.ParseLevelOfPrinted | sitetools/logging.py:266-271 | a printed integer reads back as that level exactly when it fits a 64-bit `int`; a larger one is no level |
| LogLevels.ParseSpec | sitetools/logging.py:259-272 | a spec without exactly one `:` is rejected; a named target is non-empty |
| LogLevels.ParseSpecOf | sitetools/logging.py:259-275 | for `name:level` with one colon: the target is the root logger when `name` strips to nothing, else the logger of the stripped name; the level is `ParseLevel` of the text after the colon, and the item is rejected as a bad level exactly when that is none |
| LogLevels.SpecHalves | sitetools/logging.py:259-264 | every item with exactly one colon is its two `split(':')` parts joined by the colon, so `ParseSpecOf` covers every item that is not rejected as malformed |
| LogLevels.ParseLevelOfLetters | sitetools/logging.py:266-270 | a level written in letters, in any case, is the `logging` attribute of its upper-case name |
| LogLevels.TwoSpecs | sitetools/logging.py:252-255 | two comma-separated items of letters and colons are the two requests |
| LogLevels.TwoRequests | sitetools/logging.py:257-275 | two requests are granted one after the other |
| LogLevelExample.WarningButMayatoolsDebug | sitetools/logging.py:47-54 | `KS_LOG_LEVELS=:WARNING,mayatools:DEBUG` leaves the root logger at WARNING and `mayatools` at DEBUG |
| LogLevels.Rejected | sitetools/logging.py:257-272 | one logged error at most per item, never an accepted request |
| LogLevels.ApplyRequest | sitetools/logging.py:257-276 | one item sets its logger's level when accepted, and otherwise changes nothing |
| LogLevels.ApplyRequests | sitetools/logging.py:257-276 | the spec loop computes `AppliedRequests` and logs the `Rejected` items |
| LogLevels.Setup | sitetools/logging.py:222-276 | root at the `KS_VERBOSE` level, pymel and paramiko.transport at WARNING, then the requests in order |
| LogLevels.LastRequestWins | sitetools/logging.py:257-276 | a logger's final level is that of the last accepted request naming it |
| LogLevels.UnrequestedKept | sitetools/logging.py:257-276 | a logger no accepted request names keeps its level |
| LogLevels.RequestsPointwise | sitetools/logging.py:245-276 | requests act logger by logger |
| LogLevels.RootHundred | sitetools/logging.py:56-60 | `:100` asks for level 100 on the root logger |
| LogLevels.SilenceEverything | sitetools/logging.py:56-60 | `KS_LOG_LEVELS=:100` puts the root logger at 100 |
| LegacyLogging.LegacyStartingLevels | logging.py:119-123 | `basicConfig` sets the root threshold only when the root logger has no handler, and touches no other logger |
| LegacyLogging.Setup | logging.py:109-151 | the same table and requests, with only the root level set beforehand, and that only when the root logger has no handler |
| LegacyLogging.AgreesWithNewer | logging.py:109-151 | the older and newer set-ups agree on every logger but the two the newer one quiets, and on the root too unless it already had a handler |
| LegacyLogging.HandledRootKept | logging.py:119-123 | with a handler already on the root logger and no request naming it, the older set-up leaves the root threshold as it was |
| Repos.RemoteEntry | sitetools/repos.py:28-32 | a line gives nothing exactly when it is blank |
| Repos.RemoteOfPrinted | sitetools/repos.py:25-33 | a line printed as `name<TAB>url (fetch)` maps the first field to the second |
| Repos.RemoteMissingUrl | sitetools/repos.py:30-32 | a line with a single field raises, as `parts[1]` does |
| Repos.RemotesStops | sitetools/repos.py:27-32 | a line that raised ends the loop |
| Repos.GitRemotes | sitetools/repos.py:25-33 | the loop computes `Remotes` |
| Repos.LastRemoteWins | sitetools/repos.py:32 | a remote's URL is the one on the last line naming it |
| Repos.RemoteNames | sitetools/repos.py:27-33 | the remotes are exactly the names of the non-blank lines |
| Repos.LineStatus | sitetools/repos.py:39-42 | a line has no status exactly when it is blank |
| Repos.StatusOfPrinted | sitetools/repos.py:36-44 | a porcelain line, with any leading space, counts under its first field |
| Repos.Statuses | sitetools/repos.py:38-43 | at most one status per line |
| Repos.CountOneMore | sitetools/repos.py:43 | `counts.get(status, 0) + 1` counts one more occurrence |
| Repos.CountsAreMultiplicities | sitetools/repos.py:36-44 | each status maps to the number of lines carrying it, and only statuses that occur are keys |
| Repos.StatusesSize | sitetools/repos.py:36-44 | the counts add up to the number of non-blank lines |
| Repos.StatusCounted | sitetools/repos.py:36-44 | a status is a key exactly when some line carries it |
| Repos.CountsSnoc | sitetools/repos.py:43 | one more line is counted |
| Repos.GitStatusCounts | sitetools/repos.py:36-44 | the loop computes `Counts` |
| Repos.Candidates | sitetools/repos.py:61-65 | three candidate files, the bare name first |
| Repos.FirstExisting | sitetools/repos.py:66-69 | the first existing candidate, or none exists |
| Repos.Lookup | sitetools/repos.py:61-72 | a lookup gives a stripped file or git's stripped answer |
| Repos.Resolve | sitetools/repos.py:52-72 | the `while` loop ends only on a 40-character lower-case hex text |
| Repos.RevParse | sitetools/repos.py:47-74 | a result is always a SHA |
| Repos.LookupRef | sitetools/repos.py:61-72 | the candidate loop computes `Lookup` |
| Repos.GitRevParse | sitetools/repos.py:47-74 | the loop computes `RevParse` |
| Repos.FirstPass | sitetools/repos.py:52-59 | the first pass looks the original name up |
| Repos.NotDone | sitetools/repos.py:52-59 | a non-SHA sends the loop round with the next name |
| Repos.Done | sitetools/repos.py:52 | a SHA ends the loop |
| Repos.RefText | sitetools/repos.py:54-55 | a `ref:` text is not a SHA and names its target |
| Repos.DirectSha | sitetools/repos.py:61-69 | a name whose first candidate holds a SHA resolves to it |
| Repos.FollowsSymbolicRef | sitetools/repos.py:54-55 | a `ref:` redirects to the named ref |
| Repos.SelfReference | sitetools/repos.py:57-58 | a ref naming itself raises the recursion error |
| Repos.NotARef | sitetools/repos.py:52-58 | text that is neither a SHA nor a `ref:` raises the recursion error |
| Repos.AsksGit | sitetools/repos.py:70-72 | with no candidate file the answer is git's, and a failing git is an error |
| Repos.DigitRun | sitetools/repos.py:82 | the greedy `\d+` at the front |
| Repos.DigitRunOf | sitetools/repos.py:82 | digits followed by a non-digit are the whole run |
| Repos.CountGroups | sitetools/repos.py:82 | both groups are non-empty digit strings |
| Repos.GitDistance | sitetools/repos.py:77-86 | `None` exactly when the command failed |
| Repos.CountGroupsOfShape | sitetools/repos.py:82-86 | whitespace, digits, whitespace, digits, whitespace always matches, with the two runs as groups |
| Repos.CountGroupsShape | sitetools/repos.py:82 | and the regex matches nothing else |
| Repos.DistanceOfPrinted | sitetools/repos.py:79-86 | what `rev-list --count` prints reads back as the two counts |
| Repos.LexReflexive | sitetools/repos.py:93 | string order is reflexive |
| Repos.LexTotal | sitetools/repos.py:93 | string order is total |
| Repos.LexTransitive | sitetools/repos.py:93 | string order is transitive |
| Repos.InsertByKey | sitetools/repos.py:93 | insertion adds exactly the element |
| Repos.SortByKey | sitetools/repos.py:93 | sorting is a permutation |
| Repos.InsertKeepsSorted | sitetools/repos.py:93 | insertion keeps key order |
| Repos.SortIsSorted | sitetools/repos.py:93 | the sorted listing is in `str.lower` order |
| Repos.InsertIsStable | sitetools/repos.py:93 | insertion goes ahead of equal keys |
| Repos.SortIsStable | sitetools/repos.py:93 | entries with equal keys keep their listing order |
| Repos.PackageOf | sitetools/repos.py:96-100 | the name is the entry less `.git`, and the repo URL is built from it |
| Repos.AvailablePackages | sitetools/repos.py:89-100 | the generator yields exactly the packages of the sorted listing |
| Repos.PackagesFromEntries | sitetools/repos.py:94-100 | a package comes from exactly a visible `.git` entry |
| Repos.AvailableMembership | sitetools/repos.py:93-100 | a package is yielded exactly when its entry is in the listing |
| Repos.PackagesInOrder | sitetools/repos.py:93-100 | packages of a sorted listing are in key order |
| Repos.AvailableInOrder | sitetools/repos.py:93-100 | the packages yielded are in case-insensitive order |

## Left out

- Running the `import` lines of `.pth` files: each is recorded in `Interpreter.executed` in order and assumed not to raise. What they do is arbitrary code.
- The `sitedir` variable `_process_pth` prepares for those lines (sitetools/sites.py:167): it is used only by the lines run.
- The real file system: `stat`, `exists`, `listdir` and `open` read one immutable value. A directory carries whether `listdir` may read it, and a file whether `open` may. Lookups use the string handed to the call. `normpath` is an abstract function, and `abspath` joins the current directory and normalises. `join` and `dirname` follow `posixpath`; the rest of POSIX path semantics is not modelled.
- The file is not re-read between the `open` that checks readability and the `open` that iterates (sitetools/sites.py:177,182). Both see one readability flag.
- JSON: `dumps`/`loads` are replaced by an encoding with the round trip `Loads(Dumps(d)) == Some(d)`. A hand-edited blob with non-string values is not modelled; it reads as a malformed diff.
- Logging and warnings output (`log.log`, `log.error`, `warnings.warn`): the messages are not modelled. The errors of `KS_LOG_LEVELS`, the exceptions `_setup` turns into warnings, and the `not found on sys.path` warning of each `add_site_dir` are results of the methods.
- SitecustomizeSites.Setup: its `warnings` result lists the sites whose exception became a warning; the `not found on sys.path` warnings of the inner `add_site_dir` calls are not collected there.
- The logging handlers and formats, `_show_warning`, `_patch_file_handler`, `PatternedFileHandler`, `KS_PYTHON_LOG_FILE`, the Graylog handler and `_setup_maya`. These are I/O, sockets, `pwd` and foreign APIs.
- `addLevelName` and `basicConfig`'s handler: only the levels given to loggers are modelled.
- The monkeypatching modules and the import orchestration (`__init__.py`, `sitecustomize/__init__.py`, `sitetools/_startup.py`). These include the order of site set-up and environment restoring at start-up. They work by dynamic imports and runtime patching.
- `sitetools/venv_hook`, `sitetools/platform.py`, `sitetools/hooks.py`, `setup.py`, `utils.py` and `verbose`: platform and packaging glue, or printing.
- `expand_user` (sitetools/utils.py:23-30): it needs the `pwd` user database.
- `git_call` and `git_output`: what git prints is an input, and a failing git is `None`. The `GIT` variable and the directory listing of `iter_available_packages` are an input listing.
- `sys.version_info` and `sys.prefix` are parameters.
- The `_add_to_sys_path` stub of sites.py has no behaviour.
- SitetoolsSites.SysPathInserter.constructor: `isinstance(index, int)` also accepts `True`/`False`. The model takes an integer, a string or nothing.
- Repos.RevParse: the final `res or None` is not modelled separately. The loop only ends on a 40-character SHA, so it never applies.
- LogLevels.ParseLevel: `sys.maxint` is taken to be that of a 64-bit build. The attributes of the `logging` module are the standard level names plus TRACE and BLATHER. Other upper-case integer attributes are not modelled.
- Python 2 `str.upper`, `str.lower`, `strip` and `split` are modelled on ASCII (the C locale), which is what those start-up variables hold.

## Findings

| source | as written | input that shows it | evidently intended | confidence | as-written member | corrected member |
|---|---|---|---|---|---|---|
| sitetools/sites.py:272-277 | `sites.append(site.python_path)` follows the `try`/`except ValueError`, so it also runs for an invalid entry; on the first entry `site` is unbound and `_setup` raises | `KS_SITES=/nope:/d` with only the directory `/d` existing | an invalid entry is logged and skipped, giving `["/d"]` | not executed | SitetoolsSites.UnboundSiteShown | SitetoolsSites.SitePaths |
| sitetools/sites.py:272-277 | for a later invalid entry the previous entry's site is appended a second time | `KS_SITES=/d:/nope` with only the directory `/d` existing gives `["/d", "/d"]` | `["/d"]` | not executed | SitetoolsSites.RepeatedSiteShown | SitetoolsSites.SitePaths |
| sitetools/sites.py:90-92 | `while prefix and prefix != '/'` steps with `dirname`; `abspath` and `dirname` keep two leading slashes, and `dirname('//')` is `'//'`, so from a path starting with `//` the guard never fails | `KS_SITES=//usr/bin/python`, an interpreter with no site-packages above it | the walk stops at the root and reports `file is not within a virtualenv` | not executed | SitetoolsSites.DoubleSlashShown | SitetoolsSites.FindPrefixNone |
