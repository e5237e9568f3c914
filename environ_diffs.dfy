/** What the two environment modules share: an environment is a mutable
    string-to-string dictionary, a frozen diff is stored in one of its
    variables, and applying a diff sets or unsets the variables it names. */
module EnvironDiffs {
  import opened Wrappers
  import opened DiffCodec

  /** A dictionary of environment variables (`os.environ` or a copy of it),
      updated in place. */
  class Environ {
    var vars: map<string, string>

    constructor (vars: map<string, string>)
      ensures this.vars == vars
    {
      this.vars := vars;
    }
  }

  /** A stored diff that `json.loads` rejects. */
  datatype EnvironError = BadDiff(variable: string)

  /** `environ.get(name)`. */
  function Get(vars: map<string, string>, name: string): Option<string> {
    if name in vars then Some(vars[name]) else None
  }

  /** The diff stored under `variable`: `_loads(blob) if blob else {}`, so an
      unset or empty variable holds the empty diff. */
  function DiffIn(vars: map<string, string>, variable: string): (r: Result<Diff, EnvironError>)
    ensures (variable !in vars || vars[variable] == "") ==> r == Ok(map[])
    ensures r.Err? ==> r.error == BadDiff(variable)
  {
    if variable !in vars || vars[variable] == "" then Ok(map[])
    else match Loads(vars[variable])
      case None => Err(BadDiff(variable))
      case Some(d) => Ok(d)
  }

  /** The `for name in names: diff[name] = environ.get(name)` loop of `freeze`. */
  function Recorded(diff: Diff, vars: map<string, string>, names: seq<string>): Diff {
    if names == [] then diff
    else Recorded(diff, vars, names[..|names| - 1])[names[|names| - 1] := Get(vars, names[|names| - 1])]
  }

  /** Every named variable is recorded with its current value (`None` when
      unset); every other entry of the earlier diff survives. */
  lemma {:induction false} RecordedContents(diff: Diff, vars: map<string, string>, names: seq<string>)
    ensures var r := Recorded(diff, vars, names);
      (forall k :: k in r <==> k in diff || k in names)
      && (forall k :: k in names ==> r[k] == Get(vars, k))
      && (forall k :: k in diff && k !in names ==> r[k] == diff[k])
  {
    if names != [] {
      var init := names[..|names| - 1];
      RecordedContents(diff, vars, init);
      assert forall k :: k in names <==> k in init || k == names[|names| - 1] by {
        assert names == init + [names[|names| - 1]];
      }
    }
  }

  /** The environment after a diff is applied: a name whose value is `None`
      is unset, a name with a string is set to it, everything else stays. */
  function Applied(vars: map<string, string>, diff: Diff): (r: map<string, string>)
    ensures forall k :: k in diff ==> Get(r, k) == diff[k]
    ensures forall k :: k !in diff ==> Get(r, k) == Get(vars, k)
  {
    map k | k in vars.Keys + diff.Keys && (k in diff ==> diff[k].Some?) :: if k in diff then diff[k].value else vars[k]
  }

  /** What `_apply_diff` returns: the value each name of the diff had
      before, `None` for an unset one. */
  function Originals(vars: map<string, string>, diff: Diff): (r: Diff)
    ensures r.Keys == diff.Keys
  {
    map k | k in diff :: Get(vars, k)
  }

  /** Two environments that agree on every lookup are the same. */
  lemma SameLookups(a: map<string, string>, b: map<string, string>)
    requires forall k :: Get(a, k) == Get(b, k)
    ensures a == b
  {
    assert forall k :: k in a <==> k in b by {
      forall k ensures k in a <==> k in b {
        assert Get(a, k).Some? == Get(b, k).Some?;
      }
    }
    forall k | k in a ensures a[k] == b[k] {
      assert Get(a, k) == Get(b, k);
    }
  }

  /** Applying the returned originals right after a diff restores the
      environment exactly. */
  lemma ApplyOriginalsRestores(vars: map<string, string>, diff: Diff)
    ensures Applied(Applied(vars, diff), Originals(vars, diff)) == vars
  {
    var back := Applied(Applied(vars, diff), Originals(vars, diff));
    SameLookups(back, vars);
  }

  /** ... and that second application reports the diff itself as the values
      it replaced. */
  lemma ReapplyReportsDiff(vars: map<string, string>, diff: Diff)
    ensures Originals(Applied(vars, diff), Originals(vars, diff)) == diff
  {
  }

  /** Re-applying the originals after any changes puts every name of the diff
      back to its earlier value; names outside the diff keep the changes. */
  lemma RefreezeRestoresDiffNames(before: map<string, string>, diff: Diff, changed: map<string, string>)
    ensures var after := Applied(changed, Originals(before, diff));
      (forall k :: k in diff ==> Get(after, k) == Get(before, k))
      && (forall k :: k !in diff ==> Get(after, k) == Get(changed, k))
  {
  }

  /** The values replaced by re-applying the originals equal the diff exactly
      when nothing the diff names was changed in between. */
  lemma ReplacedEqualsDiff(before: map<string, string>, diff: Diff, changed: map<string, string>)
    ensures Originals(changed, Originals(before, diff)) == diff <==>
      (forall k :: k in diff ==> Get(changed, k) == diff[k])
  {
    var r := Originals(changed, Originals(before, diff));
    if forall k :: k in diff ==> Get(changed, k) == diff[k] {
      assert r == diff;
    } else {
      var k :| k in diff && Get(changed, k) != diff[k];
      assert r[k] != diff[k];
    }
  }

  /** The empty diff changes nothing. */
  lemma AppliedEmpty(vars: map<string, string>)
    ensures Applied(vars, map[]) == vars
  {
    SameLookups(Applied(vars, map[]), vars);
  }

  /** One more entry applied. */
  lemma AppliedStep(vars: map<string, string>, done: Diff, name: string, value: Option<string>)
    requires name !in done
    ensures Applied(vars, done[name := value]) ==
      (match value
       case None => Applied(vars, done) - {name}
       case Some(v) => Applied(vars, done)[name := v])
  {
    var a := Applied(vars, done[name := value]);
    var b := match value
      case None => Applied(vars, done) - {name}
      case Some(v) => Applied(vars, done)[name := v];
    forall k ensures Get(a, k) == Get(b, k) {
    }
    SameLookups(a, b);
  }

  /** One more name of a diff applied, taken from the names not yet done. */
  lemma ApplyDiffStep(vars: map<string, string>, diff: Diff, rest: Diff, name: string)
    requires name in rest && rest.Keys <= diff.Keys && rest[name] == diff[name]
    ensures var done := diff - rest.Keys;
      var more := diff - (rest - {name}).Keys;
      Get(Applied(vars, done), name) == Get(vars, name)
      && Applied(vars, more) == (match diff[name]
                                 case None => Applied(vars, done) - {name}
                                 case Some(v) => Applied(vars, done)[name := v])
      && Originals(vars, more) == Originals(vars, done)[name := Get(vars, name)]
  {
    var done := diff - rest.Keys;
    assert diff - (rest - {name}).Keys == done[name := diff[name]];
    AppliedStep(vars, done, name, diff[name]);
  }
}
