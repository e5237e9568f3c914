/** environ.py: the older, single-variable freeze. Frozen values live in
    `KS_PYTHON_ENVIRON_DIFF`; `apply_diff` always consumes that variable. */
module LegacyEnviron {
  import opened Wrappers
  import opened DiffCodec
  import opened EnvironDiffs

  const VariableName := "KS_PYTHON_ENVIRON_DIFF"

  /** `_existing_diff(environ)`. */
  function ExistingDiff(vars: map<string, string>): (r: Result<Diff, EnvironError>)
    ensures VariableName !in vars ==> r == Ok(map[])
  {
    DiffIn(vars, VariableName)
  }

  /** `freeze(environ, names)`: record the current value of every name (`None`
      when unset) on top of the existing diff, writing nothing but
      `KS_PYTHON_ENVIRON_DIFF`. */
  method Freeze(env: Environ, names: seq<string>) returns (error: Option<EnvironError>)
    modifies env
    ensures match ExistingDiff(old(env.vars))
      case Err(e) => error == Some(e) && env.vars == old(env.vars)
      case Ok(d) =>
        error.None?
        && env.vars - {VariableName} == old(env.vars) - {VariableName}
        && ExistingDiff(env.vars) == Ok(Recorded(d, old(env.vars), names))
  {
    var existing := ExistingDiff(env.vars);
    if existing.Err? {
      return Some(existing.error);
    }
    var diff := existing.value;
    var i := 0;
    while i < |names|
      invariant 0 <= i <= |names|
      invariant diff == Recorded(existing.value, env.vars, names[..i])
    {
      assert names[..i + 1][..i] == names[..i];
      diff := diff[names[i] := Get(env.vars, names[i])];
      i := i + 1;
    }
    assert names[..i] == names;
    var blob := Dumps(diff);
    env.vars := env.vars[VariableName := blob];
    error := None;
  }

  /** One pass of `apply_diff`'s loop: `None` unsets (absent is fine), a
      string sets. */
  method SetOrUnset(env: Environ, name: string, value: Option<string>)
    modifies env
    ensures env.vars == match value
      case None => old(env.vars) - {name}
      case Some(v) => old(env.vars)[name := v]
  {
    match value
    case None => env.vars := env.vars - {name};
    case Some(v) => env.vars := env.vars[name := v];
  }

  /** `apply_diff()` on the given environment: pop the diff variable, then
      unset every `None` entry and set every other one, in any order. */
  method ApplyDiff(env: Environ) returns (error: Option<EnvironError>)
    modifies env
    ensures var popped := old(env.vars) - {VariableName};
      match ExistingDiff(old(env.vars))
      case Err(e) => error == Some(e) && env.vars == popped
      case Ok(d) => error.None? && env.vars == Applied(popped, d)
  {
    var got := ExistingDiff(env.vars);
    env.vars := env.vars - {VariableName};
    if got.Err? {
      return Some(got.error);
    }
    var diff := got.value;
    ghost var v0 := env.vars;
    var rest := diff;
    AppliedEmpty(v0);
    while rest != map[]
      invariant rest.Keys <= diff.Keys
      invariant forall k :: k in rest ==> rest[k] == diff[k]
      invariant env.vars == Applied(v0, diff - rest.Keys)
      decreases rest.Keys
    {
      var name :| name in rest;
      ApplyDiffStep(v0, diff, rest, name);
      SetOrUnset(env, name, rest[name]);
      rest := rest - {name};
    }
    assert diff - rest.Keys == diff;
    error := None;
  }

  /** The diff variable is gone after `apply_diff`, unless the diff itself
      sets it. */
  lemma DiffVariableConsumed(vars: map<string, string>, d: Diff)
    requires ExistingDiff(vars) == Ok(d)
    ensures VariableName in Applied(vars - {VariableName}, d) <==> VariableName in d && d[VariableName].Some?
  {
    assert Get(Applied(vars - {VariableName}, d), VariableName) ==
      if VariableName in d then d[VariableName] else None;
  }

  /** A second `apply_diff` right after one that consumed the variable
      changes nothing. */
  lemma ApplyTwice(vars: map<string, string>, d: Diff)
    requires ExistingDiff(vars) == Ok(d)
    requires VariableName !in d || d[VariableName].None?
    ensures var once := Applied(vars - {VariableName}, d);
      ExistingDiff(once) == Ok(map[]) && Applied(once - {VariableName}, map[]) == once
  {
    var once := Applied(vars - {VariableName}, d);
    DiffVariableConsumed(vars, d);
    assert once - {VariableName} == once;
    AppliedEmpty(once);
  }

  /** Freeze, change the frozen variables, apply: each is back to its frozen
      value (unset if it was unset), and what was not frozen keeps its
      change. `frozen` is the environment `freeze` leaves. */
  lemma FreezeChangeApply(vars: map<string, string>, earlier: Diff, names: seq<string>,
                          frozen: map<string, string>, changed: map<string, string>)
    requires ExistingDiff(vars) == Ok(earlier)
    requires VariableName in frozen && ExistingDiff(frozen) == Ok(Recorded(earlier, vars, names))
    requires VariableName in changed && changed[VariableName] == frozen[VariableName]
    ensures var d := Recorded(earlier, vars, names);
      var after := Applied(changed - {VariableName}, d);
      ExistingDiff(changed) == Ok(d)
      && (forall k :: k in names ==> Get(after, k) == Get(vars, k))
      && (forall k :: k !in names && k !in earlier && k != VariableName ==> Get(after, k) == Get(changed, k))
  {
    RecordedContents(earlier, vars, names);
  }
}
