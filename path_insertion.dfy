/** What inserting a series of directories into `sys.path` does, shared by the
    three revisions of the site resolver. An insertion cursor is either an
    index (insert there, then move one to the right) or append mode. A path is
    made absolute first and skipped when it does not exist or is already on
    `sys.path`, so no entry is ever duplicated. */
module PathInsertion {
  import opened Wrappers
  import opened FileSystems

  /** `SysPathInserter.index` / `_SysPathInserter.insert_at`: `None` is append mode. */
  datatype Cursor = Append | At(index: int)

  /** The state of the running interpreter that site set-up touches: the module
      search list, the `.pth` files already processed in this process, and the
      `import` lines of `.pth` files handed to `exec`, in order (their effect
      is not modelled). */
  class Interpreter {
    var sysPath: seq<string>
    var processedPths: set<string>
    var executed: seq<string>

    constructor (sysPath: seq<string>)
      ensures this.sysPath == sysPath && processedPths == {} && executed == []
    {
      this.sysPath := sysPath;
      processedPths := {};
      executed := [];
    }
  }

  /** No entry occurs twice. */
  ghost predicate NoDups(s: seq<string>) {
    forall i, j :: 0 <= i < j < |s| ==> s[i] != s[j]
  }

  /** Python's `list.insert(i, x)`: a negative index counts from the end, and
      the position is clamped to the list. */
  function PyInsert(s: seq<string>, i: int, x: string): (r: seq<string>)
    ensures |r| == |s| + 1
    ensures 0 <= i <= |s| ==> r == s[..i] + [x] + s[i..]
    ensures i > |s| ==> r == s + [x]
    ensures x in r
  {
    var j := if i < 0 then (if i + |s| < 0 then 0 else i + |s|) else if i > |s| then |s| else i;
    assert j == |s| ==> s[j..] == [];
    assert (s[..j] + [x] + s[j..])[j] == x;
    s[..j] + [x] + s[j..]
  }

  /** Python's `list.index(x)` as an option: the first position of `x`, or
      `None` where Python raises `ValueError`. */
  function IndexOf(s: seq<string>, x: string): (r: Option<nat>)
    ensures r.None? <==> x !in s
    ensures r.Some? ==> r.value < |s| && s[r.value] == x && x !in s[..r.value]
  {
    if s == [] then None
    else if s[0] == x then Some(0)
    else match IndexOf(s[1..], x)
      case None => None
      case Some(k) =>
        assert s[..k + 1] == [s[0]] + s[1..][..k];
        Some(k + 1)
  }

  /** One call of the inserter's `add(path)`: the new `sys.path` and cursor. */
  function AddOne(sysPath: seq<string>, c: Cursor, fs: FileSystem, path: string): (r: (seq<string>, Cursor))
    ensures var p := fs.AbsPath(path);
      if !fs.Exists(p) || p in sysPath then r == (sysPath, c) else |r.0| == |sysPath| + 1 && p in r.0
    ensures c.Append? ==> r.1 == Append
  {
    var p := fs.AbsPath(path);
    if !fs.Exists(p) || p in sysPath then (sysPath, c)
    else match c
      case Append => (sysPath + [p], Append)
      case At(i) => (PyInsert(sysPath, i, p), At(i + 1))
  }

  /** A series of `add` calls on one inserter, in order. */
  function AddAll(sysPath: seq<string>, c: Cursor, fs: FileSystem, paths: seq<string>): (r: (seq<string>, Cursor))
    ensures |sysPath| <= |r.0| <= |sysPath| + |paths|
    ensures c.Append? ==> r.1 == Append
  {
    if paths == [] then (sysPath, c)
    else
      var r := AddAll(sysPath, c, fs, paths[..|paths| - 1]);
      AddOne(r.0, r.1, fs, paths[|paths| - 1])
  }

  /** The first `i + 1` calls are the first `i` and one more. */
  lemma AddAllPrefix(sysPath: seq<string>, c: Cursor, fs: FileSystem, paths: seq<string>, i: nat)
    requires i < |paths|
    ensures AddAll(sysPath, c, fs, paths[..i + 1]) ==
      (var r := AddAll(sysPath, c, fs, paths[..i]); AddOne(r.0, r.1, fs, paths[i]))
  {
    assert paths[..i + 1][..i] == paths[..i];
  }

  /** One more call after a series. */
  lemma AddAllSnoc(sysPath: seq<string>, c: Cursor, fs: FileSystem, paths: seq<string>, path: string)
    ensures AddAll(sysPath, c, fs, paths + [path]) ==
      (var r := AddAll(sysPath, c, fs, paths); AddOne(r.0, r.1, fs, path))
  {
    assert (paths + [path])[..|paths|] == paths;
  }

  /** The absolute forms of the paths. */
  function AbsPaths(fs: FileSystem, paths: seq<string>): (r: seq<string>)
    ensures |r| == |paths|
    ensures forall i :: 0 <= i < |paths| ==> r[i] == fs.AbsPath(paths[i])
  {
    seq(|paths|, i requires 0 <= i < |paths| => fs.AbsPath(paths[i]))
  }

  /** The entries a series of `add` calls really inserts, in call order: the
      absolute paths that exist, are not in `present`, and were not already
      inserted by an earlier call. */
  function Fresh(present: seq<string>, fs: FileSystem, paths: seq<string>): seq<string> {
    if paths == [] then []
    else
      var f := Fresh(present, fs, paths[..|paths| - 1]);
      var p := fs.AbsPath(paths[|paths| - 1]);
      if fs.Exists(p) && p !in present && p !in f then f + [p] else f
  }

  /** The inserted entries exist, were not present before, and are pairwise
      distinct. */
  lemma {:induction false} FreshNew(present: seq<string>, fs: FileSystem, paths: seq<string>)
    ensures var r := Fresh(present, fs, paths);
      (forall k :: 0 <= k < |r| ==> fs.Exists(r[k]) && r[k] !in present) && NoDups(r)
  {
    if paths != [] {
      FreshNew(present, fs, paths[..|paths| - 1]);
    }
  }

  /** Every inserted entry is the absolute form of one of the given paths. */
  lemma {:induction false} FreshFromPaths(present: seq<string>, fs: FileSystem, paths: seq<string>)
    ensures forall k :: 0 <= k < |Fresh(present, fs, paths)| ==> Fresh(present, fs, paths)[k] in AbsPaths(fs, paths)
  {
    if paths != [] {
      var n := |paths| - 1;
      var init := paths[..n];
      FreshFromPaths(present, fs, init);
      var f := Fresh(present, fs, init);
      var all := AbsPaths(fs, paths);
      assert AbsPaths(fs, init) == all[..n];
      forall k | 0 <= k < |f|
        ensures f[k] in all
      {
        assert f[k] in AbsPaths(fs, init);
      }
      assert all[n] == fs.AbsPath(paths[n]);
    }
  }

  /** Every given path that exists ends up on `sys.path`: it was present
      already or it is inserted. */
  lemma {:induction false} FreshCovers(present: seq<string>, fs: FileSystem, paths: seq<string>)
    ensures var r := Fresh(present, fs, paths);
      forall j :: 0 <= j < |paths| && fs.Exists(fs.AbsPath(paths[j])) ==>
        fs.AbsPath(paths[j]) in present || fs.AbsPath(paths[j]) in r
  {
    if paths != [] {
      var n := |paths| - 1;
      var init := paths[..n];
      FreshCovers(present, fs, init);
      var r := Fresh(present, fs, paths);
      FreshSnoc(present, fs, paths);
      forall j | 0 <= j < |paths| && fs.Exists(fs.AbsPath(paths[j]))
        ensures fs.AbsPath(paths[j]) in present || fs.AbsPath(paths[j]) in r
      {
        if j < n {
          assert paths[j] == init[j];
        }
      }
    }
  }

  /** One more path keeps every entry inserted so far, and its own absolute
      form, when it exists, is present or inserted. */
  lemma FreshSnoc(present: seq<string>, fs: FileSystem, paths: seq<string>)
    requires paths != []
    ensures var r, f := Fresh(present, fs, paths), Fresh(present, fs, paths[..|paths| - 1]);
      var p := fs.AbsPath(paths[|paths| - 1]);
      (forall x :: x in f ==> x in r) && (fs.Exists(p) ==> p in present || p in r)
  {
  }

  /** Two series of calls on one inserter are the first series followed by the
      second, starting from the state the first one left. */
  lemma {:induction false} AddAllConcat(sysPath: seq<string>, c: Cursor, fs: FileSystem, a: seq<string>, b: seq<string>)
    ensures AddAll(sysPath, c, fs, a + b) == (var r := AddAll(sysPath, c, fs, a); AddAll(r.0, r.1, fs, b))
  {
    if b == [] {
      assert a + b == a;
    } else {
      AddAllConcat(sysPath, c, fs, a, b[..|b| - 1]);
      assert (a + b)[..|a + b| - 1] == a + b[..|b| - 1];
    }
  }

  /** The entries inserted by two series of calls are those of the first,
      then those of the second that the first did not already insert. */
  lemma {:induction false} FreshConcat(present: seq<string>, fs: FileSystem, a: seq<string>, b: seq<string>)
    ensures Fresh(present, fs, a + b) == Fresh(present, fs, a) + Fresh(present + Fresh(present, fs, a), fs, b)
  {
    if b == [] {
      assert a + b == a;
    } else {
      var fa := Fresh(present, fs, a);
      var fb := Fresh(present + fa, fs, b[..|b| - 1]);
      var p := fs.AbsPath(b[|b| - 1]);
      FreshConcat(present, fs, a, b[..|b| - 1]);
      assert (a + b)[..|a + b| - 1] == a + b[..|b| - 1];
      assert (a + b)[|a + b| - 1] == b[|b| - 1];
      assert p in present + fa <==> p in present || p in fa;
      assert p in fa + fb <==> p in fa || p in fb;
      assert fa + (fb + [p]) == fa + fb + [p];
    }
  }

  /** Index mode: a series of `add` calls on an inserter whose index is a
      position of `sys.path` puts the inserted entries there as one block, in
      call order, leaves every existing entry in place around it, and leaves
      the cursor just after the block. */
  lemma {:induction false} BlockInsert(sysPath: seq<string>, i: int, fs: FileSystem, paths: seq<string>)
    requires 0 <= i <= |sysPath|
    ensures var f := Fresh(sysPath, fs, paths);
      AddAll(sysPath, At(i), fs, paths) == (sysPath[..i] + f + sysPath[i..], At(i + |f|))
  {
    if paths == [] {
      assert sysPath[..i] + [] + sysPath[i..] == sysPath;
    } else {
      var init := paths[..|paths| - 1];
      BlockInsert(sysPath, i, fs, init);
      var r := AddAll(sysPath, At(i), fs, init);
      assert AddAll(sysPath, At(i), fs, paths) == AddOne(r.0, r.1, fs, paths[|paths| - 1]);
      BlockInsertOne(sysPath, i, Fresh(sysPath, fs, init), fs, paths[|paths| - 1]);
    }
  }

  /** One more call in index mode extends the block just inserted. */
  lemma BlockInsertOne(sysPath: seq<string>, i: int, f: seq<string>, fs: FileSystem, path: string)
    requires 0 <= i <= |sysPath|
    ensures var p := fs.AbsPath(path);
      var g := if fs.Exists(p) && p !in sysPath && p !in f then f + [p] else f;
      AddOne(sysPath[..i] + f + sysPath[i..], At(i + |f|), fs, path) == (sysPath[..i] + g + sysPath[i..], At(i + |g|))
  {
    var p := fs.AbsPath(path);
    BlockMembers(sysPath, i, f, p);
    if fs.Exists(p) && p !in sysPath && p !in f {
      BlockGrows(sysPath, i, f, p);
    }
  }

  /** An entry is in the list with a block inside it exactly when it is in
      the list or in the block. */
  lemma BlockMembers(sysPath: seq<string>, i: int, f: seq<string>, p: string)
    requires 0 <= i <= |sysPath|
    ensures p in sysPath[..i] + f + sysPath[i..] <==> p in sysPath || p in f
  {
    assert sysPath == sysPath[..i] + sysPath[i..];
  }

  /** Inserting at the end of the block extends the block. */
  lemma BlockGrows(sysPath: seq<string>, i: int, f: seq<string>, p: string)
    requires 0 <= i <= |sysPath|
    ensures PyInsert(sysPath[..i] + f + sysPath[i..], i + |f|, p) == sysPath[..i] + (f + [p]) + sysPath[i..]
  {
    var cur := sysPath[..i] + f + sysPath[i..];
    assert cur[..i + |f|] == sysPath[..i] + f;
    assert cur[i + |f|..] == sysPath[i..];
  }

  /** Append mode: the inserted entries go to the end, in call order. */
  lemma {:induction false} AppendAll(sysPath: seq<string>, fs: FileSystem, paths: seq<string>)
    ensures AddAll(sysPath, Append, fs, paths) == (sysPath + Fresh(sysPath, fs, paths), Append)
  {
    if paths == [] {
      assert sysPath + [] == sysPath;
    } else {
      AppendAll(sysPath, fs, paths[..|paths| - 1]);
      var f := Fresh(sysPath, fs, paths[..|paths| - 1]);
      var p := fs.AbsPath(paths[|paths| - 1]);
      assert p in sysPath + f <==> p in sysPath || p in f;
      assert sysPath + f + [p] == sysPath + (f + [p]);
    }
  }

  /** Inserting never creates a duplicate: a `sys.path` without duplicates keeps
      none, whatever the cursor. */
  lemma {:induction false} AddAllNoDups(sysPath: seq<string>, c: Cursor, fs: FileSystem, paths: seq<string>)
    requires NoDups(sysPath)
    ensures NoDups(AddAll(sysPath, c, fs, paths).0)
  {
    if paths != [] {
      var r := AddAll(sysPath, c, fs, paths[..|paths| - 1]);
      AddAllNoDups(sysPath, c, fs, paths[..|paths| - 1]);
      var p := fs.AbsPath(paths[|paths| - 1]);
      if fs.Exists(p) && p !in r.0 {
        match r.1
        case Append =>
          NoDupsInsert(r.0, |r.0|, p);
          assert r.0[..|r.0|] + [p] + r.0[|r.0|..] == r.0 + [p];
        case At(i) =>
          var j := if i < 0 then (if i + |r.0| < 0 then 0 else i + |r.0|) else if i > |r.0| then |r.0| else i;
          NoDupsInsert(r.0, j, p);
      }
    }
  }

  lemma NoDupsInsert(s: seq<string>, j: int, x: string)
    requires NoDups(s) && x !in s && 0 <= j <= |s|
    ensures NoDups(s[..j] + [x] + s[j..])
  {
    var t := s[..j] + [x] + s[j..];
    forall a, b | 0 <= a < b < |t| ensures t[a] != t[b] {
      if a < j && b > j { assert t[a] == s[a] && t[b] == s[b - 1]; }
      else if a > j { assert t[a] == s[a - 1] && t[b] == s[b - 1]; }
      else if b < j { assert t[a] == s[a] && t[b] == s[b]; }
    }
  }

  /** Whatever the cursor, `add` calls remove nothing from `sys.path`, and
      every path whose absolute form exists is on it afterwards. */
  lemma {:induction false} AddAllKeeps(sysPath: seq<string>, c: Cursor, fs: FileSystem, paths: seq<string>)
    ensures forall x :: x in sysPath ==> x in AddAll(sysPath, c, fs, paths).0
    ensures forall j :: 0 <= j < |paths| && fs.Exists(fs.AbsPath(paths[j])) ==> fs.AbsPath(paths[j]) in AddAll(sysPath, c, fs, paths).0
  {
    if paths != [] {
      var init := paths[..|paths| - 1];
      AddAllKeeps(sysPath, c, fs, init);
      var r := AddAll(sysPath, c, fs, init);
      var p := fs.AbsPath(paths[|paths| - 1]);
      var s := AddOne(r.0, r.1, fs, paths[|paths| - 1]).0;
      assert forall x :: x in r.0 ==> x in s;
      assert fs.Exists(p) ==> p in s;
      forall j | 0 <= j < |paths| && fs.Exists(fs.AbsPath(paths[j])) ensures fs.AbsPath(paths[j]) in s {
        if j < |init| { assert paths[j] == init[j]; }
      }
    }
  }
}
