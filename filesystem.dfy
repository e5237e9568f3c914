/** The file system as the start-up code sees it, as one immutable value: which
    paths exist, whether `os.listdir` may read a directory and what it returns
    (in listing order),
    and the lines of each readable file. Nothing is resolved: a path is looked
    up exactly as the string handed to the OS call. `os.path.normpath` is left
    abstract (a function carried by the value); `abspath` joins the current
    directory and normalises, as posixpath does. */
module FileSystems {
  import opened Strings

  datatype Node =
    | Dir(listable: bool, listing: seq<string>)
    | File(readable: bool, lines: seq<string>)

  datatype FileSystem = FileSystem(
    nodes: map<string, Node>,
    /** Paths whose `os.stat` fails with an error other than "no such file". */
    denied: set<string>,
    cwd: string,
    normPath: string -> string)
  {
    /** `os.path.exists`: false for a missing path and for one `stat` cannot reach. */
    predicate Exists(p: string) {
      p in nodes && p !in denied
    }

    predicate IsDir(p: string) {
      Exists(p) && nodes[p].Dir?
    }

    /** `open(p)` succeeds. */
    predicate Readable(p: string) {
      Exists(p) && nodes[p].File? && nodes[p].readable
    }

    function Lines(p: string): seq<string>
      requires Readable(p)
    {
      nodes[p].lines
    }

    /** `os.listdir(p)` succeeds: an existing directory whose entries may be
        read (a directory without read permission `stat`s fine but is not
        listable). */
    predicate Listable(p: string) {
      IsDir(p) && nodes[p].listable
    }

    function Listing(p: string): seq<string>
      requires Listable(p)
    {
      nodes[p].listing
    }

    /** `os.path.abspath(p)`. */
    function AbsPath(p: string): string {
      normPath(PathJoin(cwd, p))
    }
  }

  /** `os.path.join(a, b)` on POSIX: an absolute `b` replaces `a`. */
  function PathJoin(a: string, b: string): (r: string)
    ensures StartsWith(b, "/") ==> r == b
    ensures !StartsWith(b, "/") ==> EndsWith(r, b)
  {
    if StartsWith(b, "/") then b
    else if a == "" || EndsWith(a, "/") then a + b
    else a + "/" + b
  }

  /** The index of the last '/' in `p`, or -1. */
  function LastSlash(p: string): (i: int)
    ensures -1 <= i < |p|
    ensures i >= 0 ==> p[i] == '/'
    ensures forall j :: i < j < |p| ==> p[j] != '/'
  {
    if p == [] then -1
    else if p[|p| - 1] == '/' then |p| - 1
    else LastSlash(p[..|p| - 1])
  }

  /** Every character is '/' (vacuously true of ""). */
  predicate AllSlashes(s: string) {
    forall i :: 0 <= i < |s| ==> s[i] == '/'
  }

  /** `s.rstrip('/')`: never removes a character that is not '/'. */
  function RStripSlashes(s: string): (r: string)
    ensures |r| <= |s| && r == s[..|r|]
    ensures forall j :: 0 <= j < |s| && s[j] != '/' ==> j < |r|
  {
    if s != [] && s[|s| - 1] == '/' then RStripSlashes(s[..|s| - 1]) else s
  }

  /** `os.path.dirname` (posixpath): the head up to and including the last
      '/', with its trailing slashes stripped unless it is nothing but
      slashes. So "/usr" gives "/", "//usr" gives "//" and a bare name "".
      The result is always a prefix of `p`. */
  function DirName(p: string): (r: string)
    ensures |r| <= |p| && r == p[..|r|]
  {
    var head := p[..LastSlash(p) + 1];
    if AllSlashes(head) then head else RStripSlashes(head)
  }

  /** `os.path.basename`: everything after the last '/'. */
  function BaseName(p: string): (b: string)
    ensures forall j :: 0 <= j < |b| ==> b[j] != '/'
  {
    p[LastSlash(p) + 1..]
  }

  /** Walking up with `DirName` makes progress until the path is nothing
      but slashes (or empty), and an absolute path stays absolute. */
  lemma DirNameShrinks(p: string)
    requires !AllSlashes(p)
    ensures |DirName(p)| < |p|
    ensures StartsWith(p, "/") ==> StartsWith(DirName(p), "/")
  {
    var i := LastSlash(p);
    var head := p[..i + 1];
    if StartsWith(p, "/") {
      assert p[0] == "/"[0];
      assert i >= 0 && |head| > 0;
    }
    if !AllSlashes(head) {
      var j :| 0 <= j < |head| && head[j] != '/';
      assert |RStripSlashes(head)| > j;
    } else {
      var j :| 0 <= j < |p| && p[j] != '/';
      assert j > i;
    }
  }

  /** A path of slashes only is its own `dirname`: the upward walk goes no
      further from it. */
  lemma DirNameOfSlashes(p: string)
    requires AllSlashes(p)
    ensures DirName(p) == p
  {
    if p != [] {
      assert LastSlash(p) == |p| - 1;
      assert p[..|p|] == p;
    }
  }

  /** `dirname` keeps a leading "//", and only a path starting with "//"
      gives a result that does. */
  lemma DirNameDoubleSlash(p: string)
    ensures StartsWith(DirName(p), "//") <==> StartsWith(p, "//")
  {
    var r := DirName(p);
    if StartsWith(p, "//") {
      var i := LastSlash(p);
      assert p[1] == "//"[1];
      assert i >= 1;
      var head := p[..i + 1];
      if !AllSlashes(head) {
        var j :| 0 <= j < |head| && head[j] != '/';
        assert p[0] == "//"[0];
        assert j >= 2 && |RStripSlashes(head)| > j;
      }
      assert r[..2] == p[..2];
    }
    if StartsWith(r, "//") {
      assert p[..2] == r[..2];
    }
  }

  /** Two or more slashes start with "//". */
  lemma SlashesStartDouble(p: string)
    ensures AllSlashes(p) && |p| >= 2 ==> StartsWith(p, "//")
  {
    if AllSlashes(p) && |p| >= 2 {
      assert p[..2] == "//";
    }
  }
}
