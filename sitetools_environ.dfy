/** sitetools/environ.py: labelled environment freezes. `freeze` records the
    current values of some variables in a diff stored in the environment
    itself; `unfreeze` applies a stored diff and hands back what it replaced,
    so that the context manager can put it back on exit. */
module SitetoolsEnviron {
  import opened Wrappers
  import opened Strings
  import opened DiffCodec
  import opened EnvironDiffs

  const VariableNameDefault := "KS_ENVIRON_DIFF"

  /** A word character of Python 2's `re` without flags: `[a-zA-Z0-9_]`. */
  predicate IsWordChar(c: char) {
    'a' <= c <= 'z' || 'A' <= c <= 'Z' || '0' <= c <= '9' || c == '_'
  }

  predicate AllWord(s: string) {
    forall i :: 0 <= i < |s| ==> IsWordChar(s[i])
  }

  /** `s` without its leading non-word characters. */
  function DropNonWord(s: string): (r: string)
    ensures |r| <= |s|
    ensures r != [] ==> IsWordChar(r[0])
    ensures s != [] && !IsWordChar(s[0]) ==> |r| < |s|
  {
    if s == [] || IsWordChar(s[0]) then s else DropNonWord(s[1..])
  }

  /** `re.sub(r'\W+', '_', s)`: every maximal run of non-word characters
      becomes one underscore. */
  function CollapseNonWord(s: string): (r: string)
    ensures AllWord(r)
    ensures |r| <= |s|
    ensures s != [] ==> r != []
    decreases |s|
  {
    if s == [] then []
    else if IsWordChar(s[0]) then [s[0]] + CollapseNonWord(s[1..])
    else "_" + CollapseNonWord(DropNonWord(s))
  }

  /** A string of word characters is left as it is. */
  lemma {:induction false} CollapseWordUnchanged(s: string)
    requires AllWord(s)
    ensures CollapseNonWord(s) == s
  {
    if s != [] {
      CollapseWordUnchanged(s[1..]);
      assert [s[0]] + s[1..] == s;
    }
  }

  /** `_variable_name(tag)`: `KS_ENVIRON_DIFF` for a falsy label, otherwise
      `KS_<LABEL>_ENVIRON_DIFF` with the upper-cased label's non-word runs
      collapsed to `_`. */
  function VariableName(tag: Option<string>): (name: string)
    ensures tag.None? || tag.value == "" ==> name == VariableNameDefault
    ensures tag.Some? && tag.value != "" ==>
      |name| > 16 && StartsWith(name, "KS_") && EndsWith(name, "_ENVIRON_DIFF")
      && AllWord(name[3..|name| - 13])
  {
    if tag.Some? && tag.value != "" then
      var middle := CollapseNonWord(Upper(tag.value));
      var name := "KS_" + middle + "_ENVIRON_DIFF";
      assert name[3..|name| - 13] == middle;
      name
    else VariableNameDefault
  }

  /** The label `nuke` freezes into `KS_NUKE_ENVIRON_DIFF`. */
  lemma NukeLabel()
    ensures VariableName(Some("nuke")) == "KS_NUKE_ENVIRON_DIFF"
  {
    UpperNuke();
    CollapseWordUnchanged("NUKE");
    NukeSpelling();
  }

  lemma NukeSpelling()
    ensures "KS_" + "NUKE" + "_ENVIRON_DIFF" == "KS_NUKE_ENVIRON_DIFF"
  {
  }

  lemma UpperNuke()
    ensures Upper("nuke") == "NUKE"
  {
    var u := Upper("nuke");
    assert |u| == 4 && u[0] == 'N' && u[1] == 'U' && u[2] == 'K' && u[3] == 'E';
  }

  /** A label made of word characters keeps its (upper-cased) spelling. */
  lemma WordLabel(tag: string)
    requires tag != [] && AllWord(tag)
    ensures VariableName(Some(tag)) == "KS_" + Upper(tag) + "_ENVIRON_DIFF"
  {
    CollapseWordUnchanged(Upper(tag));
  }

  /** `a<sep>b` upper-cased and collapsed, for one non-word separator. */
  lemma SeparatedLabel(sep: char)
    requires !IsWordChar(sep) && !('a' <= sep <= 'z')
    ensures VariableName(Some(['a', sep, 'b'])) == "KS_A_B_ENVIRON_DIFF"
  {
    UpperSeparated(sep);
    CollapseSeparated(sep);
    assert "KS_" + "A_B" + "_ENVIRON_DIFF" == "KS_A_B_ENVIRON_DIFF";
  }

  lemma UpperSeparated(sep: char)
    requires !('a' <= sep <= 'z')
    ensures Upper(['a', sep, 'b']) == ['A', sep, 'B']
  {
    var u := Upper(['a', sep, 'b']);
    assert |u| == 3 && u[0] == 'A' && u[1] == sep && u[2] == 'B';
  }

  lemma CollapseSeparated(sep: char)
    requires !IsWordChar(sep)
    ensures CollapseNonWord(['A', sep, 'B']) == "A_B"
  {
    var u := ['A', sep, 'B'];
    assert DropNonWord([sep, 'B']) == "B" by {
      assert [sep, 'B'][1..] == "B";
    }
    assert CollapseNonWord("B") == "B" by {
      assert "B"[1..] == [];
    }
    assert u[1..] == [sep, 'B'];
  }

  /** Labels differing only in their punctuation share one variable. */
  lemma PunctuationShared()
    ensures VariableName(Some("a-b")) == VariableName(Some("a b")) == "KS_A_B_ENVIRON_DIFF"
  {
    SeparatedLabel('-');
    SeparatedLabel(' ');
    assert "a-b" == ['a', '-', 'b'] && "a b" == ['a', ' ', 'b'];
  }

  /** The diff frozen under a label (`tag`). */
  function StoredDiff(vars: map<string, string>, tag: Option<string>): Result<Diff, EnvironError> {
    DiffIn(vars, VariableName(tag))
  }

  /** `_get_diff(environ, label, pop)`: the stored diff; with `pop` the
      variable is removed first, whether or not its text can be read. */
  method GetDiff(env: Environ, tag: Option<string>, pop: bool) returns (r: Result<Diff, EnvironError>)
    modifies env
    ensures r == StoredDiff(old(env.vars), tag)
    ensures env.vars == if pop then old(env.vars) - {VariableName(tag)} else old(env.vars)
  {
    var name := VariableName(tag);
    var blob: Option<string>;
    if pop {
      blob := Get(env.vars, name);
      env.vars := env.vars - {name};
    } else {
      blob := Get(env.vars, name);
    }
    if blob.None? || blob.value == "" {
      r := Ok(map[]);
    } else {
      match Loads(blob.value)
      case None => r := Err(BadDiff(name));
      case Some(d) => r := Ok(d);
    }
  }

  /** The recording loop of `freeze`. */
  method Record(env: Environ, diff: Diff, names: seq<string>) returns (recorded: Diff)
    ensures recorded == Recorded(diff, env.vars, names)
  {
    recorded := diff;
    var i := 0;
    while i < |names|
      invariant 0 <= i <= |names|
      invariant recorded == Recorded(diff, env.vars, names[..i])
    {
      assert names[..i + 1][..i] == names[..i];
      recorded := recorded[names[i] := Get(env.vars, names[i])];
      i := i + 1;
    }
    assert names[..i] == names;
  }

  /** `freeze(environ, names, label)`: the label's diff gains the current
      value of every name, and only the label's variable is written. A stored
      diff that cannot be read raises before anything changes. */
  method Freeze(env: Environ, names: seq<string>, tag: Option<string>) returns (error: Option<EnvironError>)
    modifies env
    ensures match StoredDiff(old(env.vars), tag)
      case Err(e) => error == Some(e) && env.vars == old(env.vars)
      case Ok(d) =>
        error.None?
        && env.vars - {VariableName(tag)} == old(env.vars) - {VariableName(tag)}
        && StoredDiff(env.vars, tag) == Ok(Recorded(d, old(env.vars), names))
  {
    var got := GetDiff(env, tag, false);
    if got.Err? {
      return Some(got.error);
    }
    var diff := Record(env, got.value, names);
    var blob := Dumps(diff);
    env.vars := env.vars[VariableName(tag) := blob];
    error := None;
  }

  /** `freeze` is cumulative: what an earlier call recorded for other names
      survives, a re-frozen name takes its current value. */
  lemma FreezeCumulative(d: Diff, vars: map<string, string>, names: seq<string>, k: string)
    ensures k in Recorded(d, vars, names) <==> k in d || k in names
    ensures k in names ==> Recorded(d, vars, names)[k] == Get(vars, k)
    ensures k in d && k !in names ==> Recorded(d, vars, names)[k] == d[k]
  {
    RecordedContents(d, vars, names);
  }

  /** One pass of `_apply_diff`'s loop: remember the old value, then set or
      unset. */
  method ApplyEntry(env: Environ, original: Diff, name: string, value: Option<string>) returns (recorded: Diff)
    modifies env
    ensures recorded == original[name := Get(old(env.vars), name)]
    ensures env.vars == match value
      case None => old(env.vars) - {name}
      case Some(v) => old(env.vars)[name := v]
  {
    recorded := original[name := Get(env.vars, name)];
    match value
    case None => env.vars := env.vars - {name};
    case Some(v) => env.vars := env.vars[name := v];
  }

  /** `_apply_diff(environ, diff)`, its entries taken in any order: sets and
      unsets what the diff says and returns what each of its names held. */
  method ApplyDiff(env: Environ, diff: Diff) returns (original: Diff)
    modifies env
    ensures env.vars == Applied(old(env.vars), diff)
    ensures original == Originals(old(env.vars), diff)
  {
    ghost var v0 := env.vars;
    original := map[];
    var rest := diff;
    AppliedEmpty(v0);
    while rest != map[]
      invariant rest.Keys <= diff.Keys
      invariant forall k :: k in rest ==> rest[k] == diff[k]
      invariant env.vars == Applied(v0, diff - rest.Keys)
      invariant original == Originals(v0, diff - rest.Keys)
      decreases rest.Keys
    {
      var name :| name in rest;
      ApplyDiffStep(v0, diff, rest, name);
      original := ApplyEntry(env, original, name, rest[name]);
      rest := rest - {name};
    }
    assert diff - rest.Keys == diff;
  }

  /** What `unfreeze` hands to the context manager. */
  datatype Refreezer = Refreezer(diff: Diff, original: Diff)

  /** `unfreeze(label, pop, environ)`: apply the label's diff (removing the
      variable first with `pop`) and keep what it replaced. */
  method Unfreeze(tag: Option<string>, pop: bool, env: Environ) returns (r: Result<Refreezer, EnvironError>)
    modifies env
    ensures var popped := if pop then old(env.vars) - {VariableName(tag)} else old(env.vars);
      match StoredDiff(old(env.vars), tag)
      case Err(e) => r == Err(e) && env.vars == popped
      case Ok(d) => r == Ok(Refreezer(d, Originals(popped, d))) && env.vars == Applied(popped, d)
  {
    var got := GetDiff(env, tag, pop);
    if got.Err? {
      return Err(got.error);
    }
    var original := ApplyDiff(env, got.value);
    r := Ok(Refreezer(got.value, original));
  }

  /** The `finally` of `_refreezer`: re-apply the originals, and warn (never
      raise) when the values it replaced are not the diff. */
  method Refreeze(env: Environ, ctx: Refreezer) returns (warned: bool)
    modifies env
    ensures env.vars == Applied(old(env.vars), ctx.original)
    ensures warned <==> (ctx.original.Keys != ctx.diff.Keys
                         || exists k :: k in ctx.diff && Get(old(env.vars), k) != ctx.diff[k])
  {
    ghost var before := env.vars;
    var changed := ApplyDiff(env, ctx.original);
    warned := changed != ctx.diff;
    if warned && changed.Keys == ctx.diff.Keys {
      var k :| k in changed && changed[k] != ctx.diff[k];
      assert Get(before, k) != ctx.diff[k];
    }
  }

  /** The context manager's round trip: with nothing changed inside the
      block, leaving it restores the environment of the start of `unfreeze`
      (less the popped variable) and gives no warning. */
  lemma UnfreezeRefreeze(popped: map<string, string>, d: Diff)
    ensures var inside := Applied(popped, d);
      var ctx := Refreezer(d, Originals(popped, d));
      Applied(inside, ctx.original) == popped
      && !(exists k :: k in ctx.diff && Get(inside, k) != ctx.diff[k])
  {
    ApplyOriginalsRestores(popped, d);
  }

  /** `_setup()`: apply and remove the unlabelled diff of the process
      environment. */
  method Setup(env: Environ) returns (error: Option<EnvironError>)
    modifies env
    ensures var popped := old(env.vars) - {VariableNameDefault};
      match StoredDiff(old(env.vars), None)
      case Err(e) => error == Some(e) && env.vars == popped
      case Ok(d) => error.None? && env.vars == Applied(popped, d)
  {
    var got := GetDiff(env, None, true);
    if got.Err? {
      return Some(got.error);
    }
    var _ := ApplyDiff(env, got.value);
    error := None;
  }

  /** The start-up case: with no diff stored yet, freeze `x` without a
      label, change it, then unfreeze with `pop`: the environment is exactly
      the one before the freeze. `frozen` is the environment `freeze`
      leaves. */
  lemma FreezeForStartup(vars: map<string, string>, frozen: map<string, string>, x: string, later: string)
    requires x != VariableNameDefault && VariableNameDefault !in vars
    requires VariableNameDefault in frozen && frozen - {VariableNameDefault} == vars - {VariableNameDefault}
    requires StoredDiff(frozen, None) == Ok(Recorded(map[], vars, [x]))
    ensures var changed := frozen[x := later];
      var d := Recorded(map[], vars, [x]);
      StoredDiff(changed, None) == Ok(d)
      && Applied(changed - {VariableNameDefault}, d) == vars
  {
    var changed := frozen[x := later];
    var d := Recorded(map[], vars, [x]);
    RecordedContents(map[], vars, [x]);
    assert changed[VariableNameDefault] == frozen[VariableNameDefault];
    var after := Applied(changed - {VariableNameDefault}, d);
    forall k ensures Get(after, k) == Get(vars, k) {
      if k != x && k != VariableNameDefault {
        assert Get(frozen, k) == Get(vars, k) by {
          assert k in frozen <==> k in frozen - {VariableNameDefault};
          assert k in vars <==> k in vars - {VariableNameDefault};
        }
      }
    }
    SameLookups(after, vars);
  }
}
