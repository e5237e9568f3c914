/** sitetools/repos.py: reading what git prints and what ref files hold. The
    output of a git command and the contents of the repository are inputs
    here; running git and reading files are not modelled. */
module Repos {
  import opened Wrappers
  import opened Strings
  import opened FileSystems

  // ------------------------------------------------------------ git_remotes

  /** A non-blank line of `git remote -v` with a single field: `parts[1]`
      raises `IndexError`. */
  datatype RemoteError = MissingUrl(line: string)

  /** One line of `git remote -v`: nothing for a blank line, else its first
      two fields, or the error when it has only one. */
  function RemoteEntry(raw: string): (r: Result<Option<(string, string)>, RemoteError>)
    ensures r == Ok(None) <==> Strip(raw) == ""
  {
    var line := Strip(raw);
    if line == "" then Ok(None)
    else
      var parts := Fields(line, Whitespace);
      if |parts| < 2 then Err(MissingUrl(line)) else Ok(Some((parts[0], parts[1])))
  }

  /** A whitespace-separated field: non-empty, holding no whitespace. */
  predicate IsField(w: string) {
    w != [] && forall i :: 0 <= i < |w| ==> w[i] !in Whitespace
  }

  /** A line as `git remote -v` prints it, `name<TAB>url (fetch)`, maps the
      remote's name to its URL. */
  lemma RemoteOfPrinted(name: string, url: string, kind: string)
    requires IsField(name) && IsField(url) && IsField(kind)
    ensures RemoteEntry(name + "\t" + url + " " + kind) == Ok(Some((name, url)))
  {
    PrintedRemoteUnpadded(name, url, kind);
    PrintedRemoteFields(name, url, kind);
  }

  /** A printed remote line has no surrounding whitespace to strip. */
  lemma PrintedRemoteUnpadded(name: string, url: string, kind: string)
    requires IsField(name) && IsField(url) && IsField(kind)
    ensures var line := name + "\t" + url + " " + kind; Strip(line) == line
  {
    var line := name + "\t" + url + " " + kind;
    assert line[0] == name[0] && line[|line| - 1] == kind[|kind| - 1];
    assert [] + line == line;
    StripPadded([], line);
  }

  /** The three fields of a printed remote line. */
  lemma PrintedRemoteFields(name: string, url: string, kind: string)
    requires IsField(name) && IsField(url) && IsField(kind)
    ensures Fields(name + "\t" + url + " " + kind, Whitespace) == [name, url, kind]
  {
    var rest := url + " " + kind;
    assert name + "\t" + url + " " + kind == name + ['\t'] + rest;
    TwoFields(url, kind, ' ');
    FieldsAround(name, rest, '\t', Whitespace);
    FieldsOfFree(name, Whitespace);
  }

  /** Two fields with one whitespace character between them. */
  lemma TwoFields(a: string, b: string, c: char)
    requires IsField(a) && IsField(b) && c in Whitespace
    ensures Fields(a + [c] + b, Whitespace) == [a, b]
  {
    FieldsAround(a, b, c, Whitespace);
    FieldsOfFree(a, Whitespace);
    FieldsOfFree(b, Whitespace);
  }

  /** A line holding a single field, whatever whitespace precedes it, has no
      second field: `parts[1]` raises. */
  lemma RemoteMissingUrl(pad: string, name: string)
    requires AllSpace(pad) && IsField(name)
    ensures RemoteEntry(pad + name) == Err(MissingUrl(name))
  {
    StripPadded(pad, name);
    FieldsOfFree(name, Whitespace);
  }

  /** The `remotes` dictionary after the given lines of `git remote -v`: a
      blank line is skipped, any other maps its first field to its second. */
  function Remotes(lines: seq<string>): Result<map<string, string>, RemoteError> {
    if lines == [] then Ok(map[])
    else match Remotes(lines[..|lines| - 1])
      case Err(e) => Err(e)
      case Ok(m) =>
        match RemoteEntry(lines[|lines| - 1])
        case Err(e) => Err(e)
        case Ok(None) => Ok(m)
        case Ok(Some((name, url))) => Ok(m[name := url])
  }

  /** Once a line has raised, the later lines are never read. */
  lemma {:induction false} RemotesStops(lines: seq<string>, i: nat)
    requires i <= |lines| && Remotes(lines[..i]).Err?
    ensures Remotes(lines) == Remotes(lines[..i])
    decreases |lines|
  {
    if i < |lines| {
      var init := lines[..|lines| - 1];
      assert init[..i] == lines[..i];
      RemotesStops(init, i);
    } else {
      assert lines[..i] == lines;
    }
  }

  /** One more line read. */
  lemma RemotesStep(lines: seq<string>, i: nat)
    requires i < |lines|
    ensures Remotes(lines[..i + 1]) == match Remotes(lines[..i])
      case Err(e) => Err(e)
      case Ok(m) =>
        match RemoteEntry(lines[i])
        case Err(e) => Err(e)
        case Ok(None) => Ok(m)
        case Ok(Some((name, url))) => Ok(m[name := url])
  {
    assert lines[..i + 1][..i] == lines[..i];
  }

  /** `git_remotes(deployed_repo)`, on the lines git printed. */
  method GitRemotes(lines: seq<string>) returns (r: Result<map<string, string>, RemoteError>)
    ensures r == Remotes(lines)
  {
    r := Ok(map[]);
    var i := 0;
    while i < |lines| && r.Ok?
      invariant 0 <= i <= |lines|
      invariant r == Remotes(lines[..i])
    {
      RemotesStep(lines, i);
      match RemoteEntry(lines[i]) {
        case Err(e) =>
          r := Err(e);
        case Ok(None) =>
        case Ok(Some((name, url))) =>
          r := Ok(r.value[name := url]);
      }
      i := i + 1;
    }
    if r.Err? {
      RemotesStops(lines, i);
    } else {
      assert lines[..i] == lines;
    }
  }

  /** The remote a line names, if it is a well-formed non-blank line. */
  function LineRemote(raw: string): Option<string> {
    match RemoteEntry(raw)
    case Ok(Some((name, _))) => Some(name)
    case _ => None
  }

  /** A remote's URL is the one on the last line naming it. */
  lemma {:induction false} LastRemoteWins(lines: seq<string>, i: nat, name: string, url: string)
    requires i < |lines| && Remotes(lines).Ok?
    requires RemoteEntry(lines[i]) == Ok(Some((name, url)))
    requires forall j :: i < j < |lines| ==> LineRemote(lines[j]) != Some(name)
    ensures name in Remotes(lines).value && Remotes(lines).value[name] == url
  {
    if i == |lines| - 1 {
      LastLineWins(lines, name, url);
    } else {
      var init := lines[..|lines| - 1];
      LaterRemotesOfInit(lines, i, name);
      OtherLineKeeps(lines, name);
      LastRemoteWins(init, i, name, url);
    }
  }

  /** The last line sets the URL of the remote it names. */
  lemma LastLineWins(lines: seq<string>, name: string, url: string)
    requires lines != [] && Remotes(lines).Ok?
    requires RemoteEntry(lines[|lines| - 1]) == Ok(Some((name, url)))
    ensures name in Remotes(lines).value && Remotes(lines).value[name] == url
  {
    assert Remotes(lines[..|lines| - 1]).Ok?;
  }

  /** A last line naming another remote leaves this one's URL alone. */
  lemma OtherLineKeeps(lines: seq<string>, name: string)
    requires lines != [] && Remotes(lines).Ok?
    requires LineRemote(lines[|lines| - 1]) != Some(name)
    ensures var init := Remotes(lines[..|lines| - 1]);
      init.Ok? && (name in init.value ==> name in Remotes(lines).value && Remotes(lines).value[name] == init.value[name])
  {
    assert Remotes(lines[..|lines| - 1]).Ok?;
  }

  /** The condition on later lines, for all but the last line. */
  lemma LaterRemotesOfInit(lines: seq<string>, i: nat, name: string)
    requires i < |lines| - 1
    requires forall j :: i < j < |lines| ==> LineRemote(lines[j]) != Some(name)
    ensures var init := lines[..|lines| - 1];
      init[i] == lines[i] && forall j :: i < j < |init| ==> LineRemote(init[j]) != Some(name)
  {
    var init := lines[..|lines| - 1];
    forall j | i < j < |init|
      ensures LineRemote(init[j]) != Some(name)
    {
      assert init[j] == lines[j];
    }
  }

  /** The names are exactly those of the non-blank lines. */
  lemma {:induction false} RemoteNames(lines: seq<string>, name: string)
    requires Remotes(lines).Ok?
    ensures name in Remotes(lines).value <==> exists j :: 0 <= j < |lines| && LineRemote(lines[j]) == Some(name)
  {
    if lines != [] {
      var init := lines[..|lines| - 1];
      assert Remotes(init).Ok?;
      RemoteNames(init, name);
      SomeLineSnoc(lines, LineRemote, Some(name));
    }
  }

  /** Some line of `lines` that `f` maps to `v`. */
  predicate SomeLineGives(lines: seq<string>, f: string -> Option<string>, v: Option<string>) {
    exists j :: 0 <= j < |lines| && f(lines[j]) == v
  }

  /** Some line gives `v` when an earlier one or the last one does. */
  lemma SomeLineSnoc(lines: seq<string>, f: string -> Option<string>, v: Option<string>)
    requires lines != []
    ensures SomeLineGives(lines, f, v) <==> SomeLineGives(lines[..|lines| - 1], f, v) || f(lines[|lines| - 1]) == v
  {
    var init := lines[..|lines| - 1];
    if SomeLineGives(lines, f, v) {
      var j :| 0 <= j < |lines| && f(lines[j]) == v;
      if j < |lines| - 1 {
        assert init[j] == lines[j];
      }
    }
    if SomeLineGives(init, f, v) {
      var j :| 0 <= j < |init| && f(init[j]) == v;
      assert lines[j] == init[j];
    }
  }

  // ------------------------------------------------------ git_status_counts

  /** The status code of a line of `git status --porcelain`: its first field,
      or nothing for a blank line. */
  function LineStatus(raw: string): (r: Option<string>)
    ensures r.None? <==> Strip(raw) == ""
  {
    var line := Strip(raw);
    if line == "" then None else Some(Fields(line, Whitespace)[0])
  }

  /** A line as `git status --porcelain` prints it, its status code (after
      any leading space), a space and the path, counts under that code. */
  lemma StatusOfPrinted(pad: string, status: string, path: string)
    requires AllSpace(pad) && IsField(status)
    requires path != [] && !IsSpace(path[|path| - 1])
    ensures LineStatus(pad + status + " " + path) == Some(status)
  {
    var line := status + " " + path;
    assert pad + status + " " + path == pad + line;
    assert line[0] == status[0] && line[|line| - 1] == path[|path| - 1];
    StripPadded(pad, line);
    FieldsAround(status, path, ' ', Whitespace);
    FieldsOfFree(status, Whitespace);
  }

  /** `counts[status] = counts.get(status, 0) + 1`, for a non-blank line. */
  function Bump(counts: map<string, nat>, status: Option<string>): map<string, nat> {
    match status
    case None => counts
    case Some(s) => counts[s := (if s in counts then counts[s] else 0) + 1]
  }

  /** The `counts` dictionary after the given lines. */
  function Counts(lines: seq<string>): map<string, nat> {
    if lines == [] then map[] else Bump(Counts(lines[..|lines| - 1]), LineStatus(lines[|lines| - 1]))
  }

  /** The status codes of all non-blank lines, with repetitions. */
  function Statuses(lines: seq<string>): (r: multiset<string>)
    ensures |r| <= |lines|
  {
    if lines == [] then multiset{}
    else
      var prev := Statuses(lines[..|lines| - 1]);
      match LineStatus(lines[|lines| - 1])
      case None => prev
      case Some(status) => prev + multiset{status}
  }

  /** `counts` holds, for each status, its number of occurrences in `bag`,
      and holds nothing else. */
  ghost predicate CountsOf(counts: map<string, nat>, bag: multiset<string>) {
    (forall s :: s in counts <==> bag[s] > 0)
    && (forall s :: s in counts ==> counts[s] == bag[s])
  }

  /** Counting one more occurrence. */
  lemma CountOneMore(counts: map<string, nat>, bag: multiset<string>, status: string)
    requires CountsOf(counts, bag)
    ensures CountsOf(Bump(counts, Some(status)), bag + multiset{status})
  {
  }

  /** Each status maps to the number of lines carrying it, and only statuses
      that occur are keys. */
  lemma {:induction false} CountsAreMultiplicities(lines: seq<string>)
    ensures CountsOf(Counts(lines), Statuses(lines))
  {
    if lines != [] {
      var init := lines[..|lines| - 1];
      CountsAreMultiplicities(init);
      var status := LineStatus(lines[|lines| - 1]);
      if status.Some? {
        CountOneMore(Counts(init), Statuses(init), status.value);
      }
    }
  }

  /** The number of non-blank lines. */
  function NonBlankLines(lines: seq<string>): nat {
    if lines == [] then 0
    else NonBlankLines(lines[..|lines| - 1]) + if Strip(lines[|lines| - 1]) == "" then 0 else 1
  }

  /** The counted occurrences add up to the number of non-blank lines. */
  lemma {:induction false} StatusesSize(lines: seq<string>)
    ensures |Statuses(lines)| == NonBlankLines(lines)
  {
    if lines != [] {
      StatusesSize(lines[..|lines| - 1]);
    }
  }

  /** A status is a key exactly when some line carries it. */
  lemma {:induction false} StatusCounted(lines: seq<string>, status: string)
    ensures status in Counts(lines) <==> exists j :: 0 <= j < |lines| && LineStatus(lines[j]) == Some(status)
  {
    if lines != [] {
      StatusCounted(lines[..|lines| - 1], status);
      SomeLineSnoc(lines, LineStatus, Some(status));
    }
  }

  /** One more line counted. */
  lemma CountsSnoc(lines: seq<string>, i: nat)
    requires i < |lines|
    ensures Counts(lines[..i + 1]) == Bump(Counts(lines[..i]), LineStatus(lines[i]))
  {
    assert lines[..i + 1][..i] == lines[..i];
  }

  /** `git_status_counts(repo)`, on the lines git printed. */
  method GitStatusCounts(lines: seq<string>) returns (counts: map<string, nat>)
    ensures counts == Counts(lines)
  {
    counts := map[];
    var i := 0;
    while i < |lines|
      invariant 0 <= i <= |lines|
      invariant counts == Counts(lines[..i])
    {
      CountsSnoc(lines, i);
      counts := Bump(counts, LineStatus(lines[i]));
      i := i + 1;
    }
    assert lines[..i] == lines;
  }

  // ---------------------------------------------------------- git_rev_parse

  /** What `git_rev_parse` can see: the repository path, the files that exist
      (path to contents; `None` for one that exists but cannot be read), and
      what `git rev-parse --verify` prints for the original name (`None`
      when it fails). */
  datatype RevSources = RevSources(repo: string, files: map<string, Option<string>>, verified: Option<string>)

  /** `ValueError('recursion in refs')`, an unreadable file, or a failing git. */
  datatype RevError = Recursion(name: string, res: Option<string>) | Unreadable(path: string) | GitFailed

  predicate IsHexDigit(c: char) {
    '0' <= c <= '9' || 'a' <= c <= 'f'
  }

  /** `re.match(r'^[0-9a-f]{40}$', res)` on a stripped string. */
  predicate IsSha(s: string) {
    |s| == 40 && forall i :: 0 <= i < |s| ==> IsHexDigit(s[i])
  }

  /** Where a name is looked for, in order. */
  function Candidates(repo: string, name: string): (r: seq<string>)
    ensures |r| == 3 && r[0] == PathJoin(repo, name)
  {
    [PathJoin(repo, name), PathJoin(PathJoin(repo, "refs/heads"), name), PathJoin(PathJoin(repo, "refs/remotes"), name)]
  }

  /** The first of `paths` that exists. */
  function FirstExisting(files: map<string, Option<string>>, paths: seq<string>): (r: Option<string>)
    ensures r.Some? ==> r.value in files && r.value in paths
    ensures r.None? ==> forall i :: 0 <= i < |paths| ==> paths[i] !in files
  {
    if paths == [] then None
    else if paths[0] in files then Some(paths[0])
    else FirstExisting(files, paths[1..])
  }

  /** Every text a lookup can produce: a stripped file, or git's stripped
      answer. */
  function Texts(src: RevSources): set<string> {
    (set p | p in src.files && src.files[p].Some? :: Strip(src.files[p].value))
    + (if src.verified.Some? then {Strip(src.verified.value)} else {})
  }

  /** One pass of the `for args in [...]` loop and its `else`: the stripped
      contents of the first candidate that exists, else git's stripped answer
      about the original name. */
  function Lookup(src: RevSources, name: string): (r: Result<string, RevError>)
    ensures r.Ok? ==> r.value in Texts(src)
  {
    match FirstExisting(src.files, Candidates(src.repo, name))
    case Some(path) =>
      if src.files[path].Some? then Ok(Strip(src.files[path].value)) else Err(Unreadable(path))
    case None =>
      if src.verified.Some? then Ok(Strip(src.verified.value)) else Err(GitFailed)
  }

  /** The name the next pass looks up: the target of a `ref:` text, else the
      same name again. */
  function NextName(name: string, res: Option<string>): string {
    if res.Some? && StartsWith(res.value, "ref:") then Strip(res.value[4..]) else name
  }

  /** Every name a resolution can look up. */
  function Names(src: RevSources, original: string): set<string> {
    {original} + set t | t in Texts(src) && StartsWith(t, "ref:") :: Strip(t[4..])
  }

  lemma OneMoreVisited(names: set<string>, visited: set<string>, name: string)
    requires visited <= names && name in names && name !in visited
    ensures |names - (visited + {name})| < |names - visited|
  {
    assert names - visited == (names - (visited + {name})) + {name};
  }

  /** The `while` loop of `git_rev_parse` from a given state: stop at a SHA,
      else follow a `ref:`, refuse a name seen before, and look the name up. */
  function Resolve(src: RevSources, original: string, name: string, res: Option<string>, visited: set<string>)
    : (r: Result<string, RevError>)
    requires visited <= Names(src, original) && name in Names(src, original)
    requires res.Some? ==> res.value in Texts(src)
    ensures r.Ok? ==> IsSha(r.value) && r.value in Texts(src)
    decreases |Names(src, original) - visited|
  {
    if res.Some? && IsSha(res.value) then Ok(res.value)
    else
      var next := NextName(name, res);
      if next in visited then Err(Recursion(next, res))
      else
        OneMoreVisited(Names(src, original), visited, next);
        match Lookup(src, next)
        case Err(e) => Err(e)
        case Ok(t) => Resolve(src, original, next, Some(t), visited + {next})
  }

  /** `git_rev_parse(deployed_repo, original_name)`. */
  function RevParse(src: RevSources, original: string): (r: Result<string, RevError>)
    ensures r.Ok? ==> IsSha(r.value)
  {
    Resolve(src, original, original, None, {})
  }

  /** The candidate loop, as a method. */
  method LookupRef(src: RevSources, name: string) returns (r: Result<string, RevError>)
    ensures r == Lookup(src, name)
  {
    var candidates := Candidates(src.repo, name);
    var k := 0;
    while k < |candidates|
      invariant 0 <= k <= |candidates|
      invariant FirstExisting(src.files, candidates) == FirstExisting(src.files, candidates[k..])
    {
      if candidates[k] in src.files {
        var contents := src.files[candidates[k]];
        if contents.None? {
          return Err(Unreadable(candidates[k]));
        }
        return Ok(Strip(contents.value));
      }
      assert candidates[k..][1..] == candidates[k + 1..];
      k := k + 1;
    }
    if src.verified.None? {
      return Err(GitFailed);
    }
    r := Ok(Strip(src.verified.value));
  }

  /** `git_rev_parse`, following the source's loop. */
  method GitRevParse(src: RevSources, original: string) returns (r: Result<string, RevError>)
    ensures r == RevParse(src, original)
  {
    var name := original;
    var res: Option<string> := None;
    var visited: set<string> := {};
    while !(res.Some? && IsSha(res.value))
      invariant visited <= Names(src, original) && name in Names(src, original)
      invariant res.Some? ==> res.value in Texts(src)
      invariant Resolve(src, original, name, res, visited) == RevParse(src, original)
      decreases |Names(src, original) - visited|
    {
      if res.Some? && StartsWith(res.value, "ref:") {
        name := Strip(res.value[4..]);
      }
      if name in visited {
        return Err(Recursion(name, res));
      }
      OneMoreVisited(Names(src, original), visited, name);
      visited := visited + {name};
      var found := LookupRef(src, name);
      if found.Err? {
        return Err(found.error);
      }
      res := Some(found.value);
    }
    r := Ok(res.value);
  }

  /** The first pass of the loop looks the original name up. */
  lemma FirstPass(src: RevSources, original: string, text: string)
    requires Lookup(src, original) == Ok(text)
    ensures {original} <= Names(src, original)
    ensures RevParse(src, original) == Resolve(src, original, original, Some(text), {original})
  {
    OneMoreVisited(Names(src, original), {}, original);
  }

  /** A text that is not a SHA sends the loop round again with the next name. */
  lemma NotDone(src: RevSources, original: string, name: string, text: string, visited: set<string>)
    requires visited <= Names(src, original) && name in Names(src, original) && text in Texts(src)
    requires !IsSha(text)
    ensures var next := NextName(name, Some(text));
      next in Names(src, original)
      && Resolve(src, original, name, Some(text), visited) ==
        if next in visited then Err(Recursion(next, Some(text)))
        else match Lookup(src, next)
          case Err(e) => Err(e)
          case Ok(t) => Resolve(src, original, next, Some(t), visited + {next})
  {
  }

  /** A SHA ends the loop. */
  lemma Done(src: RevSources, original: string, name: string, sha: string, visited: set<string>)
    requires visited <= Names(src, original) && name in Names(src, original) && sha in Texts(src)
    requires IsSha(sha)
    ensures Resolve(src, original, name, Some(sha), visited) == Ok(sha)
  {
  }

  /** A `ref:` text is not a SHA, and names its target. */
  lemma RefText(name: string, text: string)
    requires StartsWith(text, "ref:")
    ensures !IsSha(text) && NextName(name, Some(text)) == Strip(text[4..])
  {
    assert text[0] == 'r';
  }

  /** A name whose first candidate file holds a SHA resolves to it. */
  lemma DirectSha(src: RevSources, original: string, contents: string)
    requires PathJoin(src.repo, original) in src.files
    requires src.files[PathJoin(src.repo, original)] == Some(contents) && IsSha(Strip(contents))
    ensures RevParse(src, original) == Ok(Strip(contents))
  {
    assert Lookup(src, original) == Ok(Strip(contents));
    FirstPass(src, original, Strip(contents));
  }

  /** A symbolic ref (`HEAD` holding `ref: refs/heads/master`) resolves to
      what its target holds. */
  lemma FollowsSymbolicRef(src: RevSources, original: string, text: string, sha: string)
    requires Lookup(src, original) == Ok(text) && StartsWith(text, "ref:")
    requires Strip(text[4..]) != original
    requires Lookup(src, Strip(text[4..])) == Ok(sha) && IsSha(sha)
    ensures RevParse(src, original) == Ok(sha)
  {
    FirstPass(src, original, text);
    RefText(original, text);
    NotDone(src, original, original, text, {original});
    Done(src, original, Strip(text[4..]), sha, {original, Strip(text[4..])});
  }

  /** A ref naming itself raises the recursion error. */
  lemma SelfReference(src: RevSources, original: string, text: string)
    requires Lookup(src, original) == Ok(text) && StartsWith(text, "ref:")
    requires Strip(text[4..]) == original
    ensures RevParse(src, original) == Err(Recursion(original, Some(text)))
  {
    FirstPass(src, original, text);
    RefText(original, text);
    NotDone(src, original, original, text, {original});
  }

  /** Text that is neither a SHA nor a `ref:` (an empty ref file, say) is also
      reported as recursion: the name does not change, and was seen. */
  lemma NotARef(src: RevSources, original: string, text: string)
    requires Lookup(src, original) == Ok(text) && !IsSha(text) && !StartsWith(text, "ref:")
    ensures RevParse(src, original) == Err(Recursion(original, Some(text)))
  {
    FirstPass(src, original, text);
    NotDone(src, original, original, text, {original});
  }

  /** With no candidate file, the answer is git's, and a failing git is an
      error. */
  lemma AsksGit(src: RevSources, original: string)
    requires forall p :: p in Candidates(src.repo, original) ==> p !in src.files
    ensures src.verified.None? ==> RevParse(src, original) == Err(GitFailed)
    ensures src.verified.Some? && IsSha(Strip(src.verified.value)) ==>
      RevParse(src, original) == Ok(Strip(src.verified.value))
  {
    NoCandidateFile(src, original);
    if src.verified.Some? {
      FirstPass(src, original, Strip(src.verified.value));
    } else {
      OneMoreVisited(Names(src, original), {}, original);
    }
  }

  /** Without candidate files the lookup falls through to git. */
  lemma NoCandidateFile(src: RevSources, original: string)
    requires forall p :: p in Candidates(src.repo, original) ==> p !in src.files
    ensures Lookup(src, original) == if src.verified.Some? then Ok(Strip(src.verified.value)) else Err(GitFailed)
  {
    var c := Candidates(src.repo, original);
    assert FirstExisting(src.files, c[2..]) == None by {
      assert c[2..][1..] == [];
    }
    assert FirstExisting(src.files, c[1..]) == None by {
      assert c[1..][1..] == c[2..];
    }
    assert FirstExisting(src.files, c) == None;
  }

  // ----------------------------------------------------------- git_distance

  /** The longest run of decimal digits at the front of `s` (the greedy `\d+`). */
  function DigitRun(s: string): (d: string)
    ensures |d| <= |s| && d == s[..|d|] && AllDigits(d)
    ensures |d| < |s| ==> !IsDigit(s[|d|])
  {
    if s == [] || !IsDigit(s[0]) then [] else [s[0]] + DigitRun(s[1..])
  }

  /** A run of digits followed by something that is not a digit. */
  lemma {:induction false} DigitRunOf(a: string, y: string)
    requires AllDigits(a) && (y == [] || !IsDigit(y[0]))
    ensures DigitRun(a + y) == a
  {
    if a == [] {
      assert a + y == y;
    } else {
      assert (a + y)[1..] == a[1..] + y;
      DigitRunOf(a[1..], y);
    }
  }

  /** The two groups of `re.match(r'^\s*(\d+)\s+(\d+)\s*$', out)`, or
      nothing when it does not match. Whitespace and digits are disjoint, so
      the greedy reading is the only one. */
  function CountGroups(out: string): (r: Option<(string, string)>)
    ensures r.Some? ==> r.value.0 != [] && AllDigits(r.value.0) && r.value.1 != [] && AllDigits(r.value.1)
  {
    var s1 := LStrip(out);
    var a := DigitRun(s1);
    var r1 := s1[|a|..];
    var s2 := LStrip(r1);
    var b := DigitRun(s2);
    if a != [] && |s2| < |r1| && b != [] && AllSpace(s2[|b|..]) then Some((a, b)) else None
  }

  /** `git_distance(deployed_repo, left, right)`, on what `git rev-list` prints
      (`None` when it fails, where the source returns `None`). Output that
      does not match reads as `(0, 0)`. */
  function GitDistance(out: Option<string>): (r: Option<(nat, nat)>)
    ensures out.None? <==> r.None?
  {
    match out
    case None => None
    case Some(o) =>
      match CountGroups(o)
      case None => Some((0, 0))
      case Some((a, b)) => Some((DigitsValue(a), DigitsValue(b)))
  }

  /** A sequence is its two halves around any index. */
  lemma SplitAt<T>(s: seq<T>, k: nat)
    requires k <= |s|
    ensures s == s[..k] + s[k..]
  {
  }

  /** The regex's steps, one by one. */
  lemma CountGroupsSteps(out: string, s1: string, a: string, r1: string, s2: string, b: string)
    requires LStrip(out) == s1 && DigitRun(s1) == a && s1[|a|..] == r1 && LStrip(r1) == s2
    requires DigitRun(s2) == b && AllSpace(s2[|b|..]) && a != [] && b != [] && |s2| < |r1|
    ensures CountGroups(out) == Some((a, b))
  {
  }

  /** Whitespace, then digits, then text starting with whitespace: the
      whitespace is skipped and the run of digits is exactly `a`. */
  lemma SpaceThenDigits(p: string, a: string, rest: string)
    requires AllSpace(p) && a != [] && AllDigits(a)
    requires rest == [] || IsSpace(rest[0])
    ensures LStrip(p + (a + rest)) == a + rest
    ensures DigitRun(a + rest) == a && (a + rest)[|a|..] == rest
  {
    LStripSpacePrefix(p, a + rest);
    DigitRunOf(a, rest);
  }

  /** The regex on whitespace, digits, whitespace, digits, whitespace. */
  lemma CountGroupsOfPieces(p: string, a: string, q: string, b: string, t: string)
    requires AllSpace(p) && AllSpace(q) && q != [] && AllSpace(t)
    requires a != [] && AllDigits(a) && b != [] && AllDigits(b)
    ensures CountGroups(p + (a + (q + (b + t)))) == Some((a, b))
  {
    SpaceThenDigits(p, a, q + (b + t));
    SpaceThenDigits(q, b, t);
    CountGroupsSteps(p + (a + (q + (b + t))), a + (q + (b + t)), a, q + (b + t), b + t, b);
  }

  /** The regex accepts every text made of optional whitespace, digits,
      whitespace, digits and optional whitespace, and its groups are the two
      runs of digits. */
  lemma CountGroupsOfShape(p: string, a: string, q: string, b: string, t: string)
    requires AllSpace(p) && AllSpace(q) && q != [] && AllSpace(t)
    requires a != [] && AllDigits(a) && b != [] && AllDigits(b)
    ensures CountGroups(p + a + q + b + t) == Some((a, b))
  {
    ConcatAssoc(p, a, q);
    ConcatAssoc(p + a, q, b);
    ConcatAssoc(p + a + q, b, t);
    ConcatAssoc(p + a, q, b + t);
    ConcatAssoc(p, a, q + (b + t));
    CountGroupsOfPieces(p, a, q, b, t);
  }

  /** `lstrip()` splits a text into leading whitespace and the rest. */
  lemma LStripSplits(s: string)
    ensures var k := |s| - |LStrip(s)|; AllSpace(s[..k]) && s == s[..k] + LStrip(s)
  {
    LStripRemovesSpace(s);
    var k := |s| - |LStrip(s)|;
    assert LStrip(s) == s[k..];
    assert s == s[..k] + s[k..];
  }

  /** Four nested pieces, regrouped. */
  lemma Regroup(out: string, p: string, s1: string, a: string, r1: string, q: string, s2: string, b: string, t: string)
    requires out == p + s1 && s1 == a + r1 && r1 == q + s2 && s2 == b + t
    ensures out == p + a + q + b + t
  {
    ConcatAssoc(p, a, q + (b + t));
    ConcatAssoc(p + a, q, b + t);
    ConcatAssoc(p + a + q, b, t);
  }

  /** What an accepted text's two groups are, in terms of its stripped
      remainders. */
  lemma GroupsOfMatch(out: string, a: string, b: string)
    requires CountGroups(out) == Some((a, b))
    ensures var s1 := LStrip(out);
      |a| <= |s1| && a == s1[..|a|]
      && var s2 := LStrip(s1[|a|..]);
      |b| <= |s2| && b == s2[..|b|] && |s2| < |s1[|a|..]| && AllSpace(s2[|b|..])
  {
  }

  /** The pieces of a text the regex accepts. */
  lemma MatchedPieces(out: string, a: string, b: string) returns (p: string, q: string, t: string)
    requires CountGroups(out) == Some((a, b))
    ensures AllSpace(p) && AllSpace(q) && q != [] && AllSpace(t) && out == p + a + q + b + t
  {
    GroupsOfMatch(out, a, b);
    var s1 := LStrip(out);
    var r1 := s1[|a|..];
    var s2 := LStrip(r1);
    t := s2[|b|..];
    LStripSplits(out);
    LStripSplits(r1);
    p := out[..|out| - |s1|];
    q := r1[..|r1| - |s2|];
    SplitAt(s1, |a|);
    SplitAt(s2, |b|);
    Regroup(out, p, s1, a, r1, q, s2, b, t);
  }

  /** ... and it accepts nothing else. */
  lemma CountGroupsShape(out: string, a: string, b: string)
    requires CountGroups(out) == Some((a, b))
    ensures exists p, q, t :: AllSpace(p) && AllSpace(q) && q != [] && AllSpace(t) && out == p + a + q + b + t
  {
    var p, q, t := MatchedPieces(out, a, b);
  }

  /** What `git rev-list --left-right --count` prints, `"<left>\t<right>\n"`,
      reads back as the two counts. */
  lemma DistanceOfPrinted(left: nat, right: nat)
    ensures GitDistance(Some(NatToString(left) + "\t" + NatToString(right) + "\n")) == Some((left, right))
  {
    var a := NatToString(left);
    var b := NatToString(right);
    PrintedGroups(a, b);
    DigitsValueOfNatToString(left);
    DigitsValueOfNatToString(right);
  }

  /** Two runs of digits separated by a tab and closed by a newline match
      the regex as those two runs. */
  lemma PrintedGroups(a: string, b: string)
    requires a != [] && AllDigits(a) && b != [] && AllDigits(b)
    ensures CountGroups(a + "\t" + b + "\n") == Some((a, b))
  {
    assert a + "\t" + b + "\n" == [] + a + "\t" + b + "\n";
    assert AllSpace("\t") && AllSpace("\n");
    CountGroupsOfShape([], a, "\t", b, "\n");
  }

  // ------------------------------------------------ iter_available_packages

  /** Python's `a <= b` on strings: lexicographic, character by character. */
  predicate LexLe(a: string, b: string)
    decreases |a|
  {
    a == [] || (b != [] && (a[0] < b[0] || (a[0] == b[0] && LexLe(a[1..], b[1..]))))
  }

  lemma {:induction false} LexReflexive(a: string)
    ensures LexLe(a, a)
    decreases |a|
  {
    if a != [] {
      LexReflexive(a[1..]);
    }
  }

  lemma {:induction false} LexTotal(a: string, b: string)
    ensures LexLe(a, b) || LexLe(b, a)
    decreases |a|
  {
    if a != [] && b != [] && a[0] == b[0] {
      LexTotal(a[1..], b[1..]);
    }
  }

  lemma {:induction false} LexTransitive(a: string, b: string, c: string)
    requires LexLe(a, b) && LexLe(b, c)
    ensures LexLe(a, c)
    decreases |a|
  {
    if a != [] && a[0] == b[0] && b[0] == c[0] {
      LexTransitive(a[1..], b[1..], c[1..]);
    }
  }

  /** The sort key, `str.lower`. */
  function Key(entry: string): string {
    Lower(entry)
  }

  /** Every entry's key is at most every later entry's key. */
  ghost predicate SortedByKey(s: seq<string>) {
    forall i, j :: 0 <= i < j < |s| ==> LexLe(Key(s[i]), Key(s[j]))
  }

  /** `x` placed in front of the first entry whose key is not smaller. */
  function InsertByKey(x: string, s: seq<string>): (r: seq<string>)
    ensures multiset(r) == multiset(s) + multiset{x}
  {
    if s == [] || LexLe(Key(x), Key(s[0])) then [x] + s
    else
      assert s == [s[0]] + s[1..];
      [s[0]] + InsertByKey(x, s[1..])
  }

  /** `sorted(entries, key=str.lower)`. */
  function SortByKey(s: seq<string>): (r: seq<string>)
    ensures multiset(r) == multiset(s)
  {
    if s == [] then []
    else
      assert s == [s[0]] + s[1..];
      InsertByKey(s[0], SortByKey(s[1..]))
  }

  lemma {:induction false} InsertKeepsSorted(x: string, s: seq<string>)
    requires SortedByKey(s)
    ensures SortedByKey(InsertByKey(x, s))
  {
    if s == [] || LexLe(Key(x), Key(s[0])) {
      InsertInFront(x, s);
    } else {
      InsertKeepsSorted(x, s[1..]);
      LexTotal(Key(x), Key(s[0]));
      HeadBelowInserted(x, s);
      HeadThenSorted(s[0], InsertByKey(x, s[1..]));
    }
  }

  /** An entry no larger than a sorted list's head goes in front of it. */
  lemma InsertInFront(x: string, s: seq<string>)
    requires SortedByKey(s) && (s == [] || LexLe(Key(x), Key(s[0])))
    ensures SortedByKey([x] + s)
  {
    var r := [x] + s;
    forall i, j | 0 <= i < j < |r| ensures LexLe(Key(r[i]), Key(r[j])) {
      if i == 0 && j > 1 {
        LexTransitive(Key(x), Key(s[0]), Key(s[j - 1]));
      }
    }
  }

  /** The head of a sorted list is no larger than anything of its tail with
      one more entry above the head inserted. */
  lemma HeadBelowInserted(x: string, s: seq<string>)
    requires SortedByKey(s) && s != [] && LexLe(Key(s[0]), Key(x))
    ensures forall k :: 0 <= k < |InsertByKey(x, s[1..])| ==> LexLe(Key(s[0]), Key(InsertByKey(x, s[1..])[k]))
  {
    var rest := InsertByKey(x, s[1..]);
    forall k | 0 <= k < |rest| ensures LexLe(Key(s[0]), Key(rest[k])) {
      assert rest[k] in multiset(rest);
      if rest[k] != x {
        var j :| 1 <= j < |s| && s[j] == rest[k] by {
          assert rest[k] in multiset(s[1..]);
          var j' :| 0 <= j' < |s[1..]| && s[1..][j'] == rest[k];
          assert s[j' + 1] == rest[k];
        }
      }
    }
  }

  /** A sorted list with a head no larger than all of it stays sorted. */
  lemma HeadThenSorted(h: string, rest: seq<string>)
    requires SortedByKey(rest)
    requires forall k :: 0 <= k < |rest| ==> LexLe(Key(h), Key(rest[k]))
    ensures SortedByKey([h] + rest)
  {
    var r := [h] + rest;
    forall i, j | 0 <= i < j < |r| ensures LexLe(Key(r[i]), Key(r[j])) {
      if i == 0 {
        assert r[j] == rest[j - 1];
      } else {
        assert r[i] == rest[i - 1] && r[j] == rest[j - 1];
      }
    }
  }

  /** The sorted entries are in key order. */
  lemma {:induction false} SortIsSorted(s: seq<string>)
    ensures SortedByKey(SortByKey(s))
  {
    if s != [] {
      SortIsSorted(s[1..]);
      InsertKeepsSorted(s[0], SortByKey(s[1..]));
    }
  }

  /** The entries of `s` whose key is `k`, in order. */
  function WithKey(s: seq<string>, k: string): seq<string> {
    if s == [] then [] else (if Key(s[0]) == k then [s[0]] else []) + WithKey(s[1..], k)
  }

  /** Inserting puts `x` ahead of every entry with the same key. */
  lemma {:induction false} InsertIsStable(x: string, s: seq<string>, k: string)
    ensures WithKey(InsertByKey(x, s), k) == (if Key(x) == k then [x] else []) + WithKey(s, k)
  {
    var r := InsertByKey(x, s);
    if s == [] || LexLe(Key(x), Key(s[0])) {
      assert r[0] == x && r[1..] == s;
    } else {
      var rest := InsertByKey(x, s[1..]);
      assert r[0] == s[0] && r[1..] == rest;
      InsertIsStable(x, s[1..], k);
      if Key(x) == k {
        LexReflexive(Key(x));
        assert Key(s[0]) != k;
        assert WithKey(r, k) == [x] + WithKey(s[1..], k);
      } else {
        assert WithKey(r, k) == (if Key(s[0]) == k then [s[0]] else []) + WithKey(s[1..], k);
      }
    }
  }

  /** `sorted` is stable: entries with equal keys keep their order. */
  lemma {:induction false} SortIsStable(s: seq<string>, k: string)
    ensures WithKey(SortByKey(s), k) == WithKey(s, k)
  {
    if s != [] {
      SortIsStable(s[1..], k);
      InsertIsStable(s[0], SortByKey(s[1..]), k);
    }
  }

  /** One dictionary yielded by `iter_available_packages`. */
  datatype Package = Package(name: string, repo: string)

  /** A bare repository the loop keeps: not hidden, ending in `.git`. */
  predicate IsRepoEntry(entry: string) {
    !StartsWith(entry, ".") && EndsWith(entry, ".git")
  }

  /** The package of a kept entry: `.git` dropped, the repo URL built. */
  function PackageOf(entry: string): (p: Package)
    requires EndsWith(entry, ".git")
    ensures p.name + ".git" == entry
    ensures p.repo == "git@git.westernx:westernx/" + p.name
  {
    var name := entry[..|entry| - 4];
    assert name + ".git" == entry;
    Package(name, "git@git.westernx:westernx/" + name)
  }

  /** What the loop yields, over entries in the given order. */
  function PackagesIn(entries: seq<string>): seq<Package> {
    if entries == [] then []
    else
      var last := entries[|entries| - 1];
      PackagesIn(entries[..|entries| - 1]) + if IsRepoEntry(last) then [PackageOf(last)] else []
  }

  /** `iter_available_packages()` on the listing of the `$GIT` directory,
      collected into a list. */
  method AvailablePackages(listing: seq<string>) returns (packages: seq<Package>)
    ensures packages == PackagesIn(SortByKey(listing))
  {
    var entries := SortByKey(listing);
    packages := [];
    for i := 0 to |entries|
      invariant packages == PackagesIn(entries[..i])
    {
      assert entries[..i + 1][..i] == entries[..i];
      if IsRepoEntry(entries[i]) {
        packages := packages + [PackageOf(entries[i])];
      }
    }
    assert entries[..|entries|] == entries;
  }

  /** Every package comes from a kept entry, and every kept entry gives one. */
  lemma {:induction false} PackagesFromEntries(entries: seq<string>, p: Package)
    ensures p in PackagesIn(entries) <==> exists e :: e in entries && IsRepoEntry(e) && p == PackageOf(e)
  {
    if entries != [] {
      var init := entries[..|entries| - 1];
      PackagesFromEntries(init, p);
      assert entries == init + [entries[|entries| - 1]];
      if exists e :: e in entries && IsRepoEntry(e) && p == PackageOf(e) {
        var e :| e in entries && IsRepoEntry(e) && p == PackageOf(e);
        if e != entries[|entries| - 1] {
          assert e in init;
        }
      }
    }
  }

  /** A listing entry yields a package exactly when it is a visible `.git`
      directory; the package's name is the entry without `.git`. */
  lemma AvailableMembership(listing: seq<string>, p: Package)
    ensures p in PackagesIn(SortByKey(listing)) <==> exists e :: e in listing && IsRepoEntry(e) && p == PackageOf(e)
  {
    var sorted := SortByKey(listing);
    PackagesFromEntries(sorted, p);
    assert forall e :: e in sorted <==> e in listing by {
      forall e ensures e in sorted <==> e in listing {
        assert e in sorted <==> e in multiset(sorted);
        assert e in listing <==> e in multiset(listing);
      }
    }
  }

  /** Packages in the order of the keys of their directory names. */
  ghost predicate PackagesSorted(ps: seq<Package>) {
    forall i, j :: 0 <= i < j < |ps| ==> LexLe(Key(ps[i].name + ".git"), Key(ps[j].name + ".git"))
  }

  /** The packages come out in the order of their lower-cased directory
      names (so `foo-bar` comes before `foo`, since `-` sorts before `.`). */
  lemma {:induction false} PackagesInOrder(entries: seq<string>)
    requires SortedByKey(entries)
    ensures PackagesSorted(PackagesIn(entries))
  {
    if entries != [] {
      var init := entries[..|entries| - 1];
      var last := entries[|entries| - 1];
      PackagesInOrder(init);
      var ps := PackagesIn(entries);
      var before := PackagesIn(init);
      if IsRepoEntry(last) {
        forall i | 0 <= i < |before| ensures LexLe(Key(before[i].name + ".git"), Key(last)) {
          PackagesFromEntries(init, before[i]);
          assert before[i] in before;
          var e :| e in init && IsRepoEntry(e) && before[i] == PackageOf(e);
          var j :| 0 <= j < |init| && init[j] == e;
          assert entries[j] == e;
          assert LexLe(Key(entries[j]), Key(entries[|entries| - 1]));
        }
        assert ps == before + [PackageOf(last)];
        assert PackageOf(last).name + ".git" == last;
        forall i, j | 0 <= i < j < |ps| ensures LexLe(Key(ps[i].name + ".git"), Key(ps[j].name + ".git")) {
          if j < |before| {
            assert ps[i] == before[i] && ps[j] == before[j];
            assert LexLe(Key(before[i].name + ".git"), Key(before[j].name + ".git"));
          } else {
            assert ps[i] == before[i] && ps[j] == PackageOf(last);
            assert LexLe(Key(before[i].name + ".git"), Key(last));
          }
        }
      } else {
        assert ps == before;
      }
    }
  }

  /** What `iter_available_packages` yields is in key order. */
  lemma AvailableInOrder(listing: seq<string>)
    ensures PackagesSorted(PackagesIn(SortByKey(listing)))
  {
    SortIsSorted(listing);
    PackagesInOrder(SortByKey(listing));
  }
}
