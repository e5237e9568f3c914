/** The text form of a frozen-environment diff. Both environment modules store
    a diff (variable name to value, `None` meaning "unset") in one environment
    variable through `json.dumps` and read it back with `json.loads`. The model
    replaces JSON by a small self-delimiting encoding with the one property the
    modules rely on: reading back what was written gives the same diff. */
module DiffCodec {
  import opened Wrappers

  /** Variable name to the value to restore; `None` restores "unset". */
  type Diff = map<string, Option<string>>

  /** A string as `+c` per character, closed by `.`. */
  function EncodeString(s: string): (t: string)
    ensures |t| == 2 * |s| + 1
  {
    if s == [] then "." else ['+', s[0]] + EncodeString(s[1..])
  }

  /** One string from the front of `t`, and what follows it. */
  function DecodeString(t: string): (r: Option<(string, string)>)
    ensures r.Some? ==> |r.value.1| < |t|
    decreases |t|
  {
    if t == [] then None
    else if t[0] == '.' then Some(([], t[1..]))
    else if t[0] == '+' && |t| >= 2 then
      match DecodeString(t[2..])
      case None => None
      case Some((s, rest)) => Some(([t[1]] + s, rest))
    else None
  }

  lemma {:induction false} DecodeEncodeString(s: string, rest: string)
    ensures DecodeString(EncodeString(s) + rest) == Some((s, rest))
  {
    if s == [] {
      assert EncodeString(s) + rest == ['.'] + rest;
    } else {
      var tail := EncodeString(s[1..]) + rest;
      var t := EncodeString(s) + rest;
      assert t == ['+', s[0]] + tail;
      assert t[0] == '+' && t[2..] == tail;
      DecodeEncodeString(s[1..], rest);
      assert [s[0]] + s[1..] == s;
    }
  }

  /** One diff entry: the name, then `N` for `None` or `S` and the value. */
  function EncodeEntry(name: string, value: Option<string>): string {
    EncodeString(name) + match value
      case None => "N"
      case Some(v) => "S" + EncodeString(v)
  }

  function DecodeEntry(t: string): (r: Option<(string, Option<string>, string)>)
    ensures r.Some? ==> |r.value.2| < |t|
  {
    match DecodeString(t)
    case None => None
    case Some((name, rest)) =>
      if rest != [] && rest[0] == 'N' then Some((name, None, rest[1..]))
      else if rest != [] && rest[0] == 'S' then
        match DecodeString(rest[1..])
        case None => None
        case Some((v, after)) => Some((name, Some(v), after))
      else None
  }

  lemma DecodeEncodeEntry(name: string, value: Option<string>, rest: string)
    ensures DecodeEntry(EncodeEntry(name, value) + rest) == Some((name, value, rest))
  {
    DecodeEncodeString(name, rest);
    match value
    case None =>
      assert EncodeEntry(name, value) + rest == EncodeString(name) + ("N" + rest);
      DecodeEncodeString(name, "N" + rest);
    case Some(v) =>
      var tail := "S" + EncodeString(v) + rest;
      assert EncodeEntry(name, value) + rest == EncodeString(name) + tail;
      DecodeEncodeString(name, tail);
      assert tail[1..] == EncodeString(v) + rest;
      DecodeEncodeString(v, rest);
  }

  /** A run of entries; as with a JSON object, a later entry for the same name
      wins. */
  function DecodeEntries(t: string): Option<Diff>
    decreases |t|
  {
    if t == [] then Some(map[])
    else match DecodeEntry(t)
      case None => None
      case Some((name, value, rest)) =>
        match DecodeEntries(rest)
        case None => None
        case Some(d) => Some(if name in d then d else d[name := value])
  }

  /** `json.loads` of a stored diff: `None` for text that is not a diff
      (where `json.loads` raises). */
  function Loads(blob: string): (r: Option<Diff>)
    ensures r.Some? ==> |blob| >= 2
  {
    if |blob| >= 2 && blob[0] == '{' && blob[|blob| - 1] == '}' then DecodeEntries(blob[1..|blob| - 1])
    else None
  }

  /** Writing one more entry in front of the ones already written. */
  lemma EntryInFront(diff: Diff, rest: Diff, body: string, name: string)
    requires name in rest && rest.Keys <= diff.Keys && rest[name] == diff[name]
    requires DecodeEntries(body) == Some(diff - rest.Keys)
    ensures DecodeEntries(EncodeEntry(name, rest[name]) + body) == Some(diff - (rest - {name}).Keys)
  {
    var done := diff - rest.Keys;
    DecodeEncodeEntry(name, rest[name], body);
    assert name !in done;
    assert diff - (rest - {name}).Keys == done[name := diff[name]];
  }

  /** `json.dumps(diff)`. The entries come out in whatever order the dict is
      iterated, so the text is not determined by the diff; only its meaning
      is. It is never empty, so a stored diff is always truthy. */
  method Dumps(diff: Diff) returns (blob: string)
    ensures Loads(blob) == Some(diff)
    ensures |blob| >= 2
  {
    var rest := diff;
    var body := "";
    assert diff - rest.Keys == map[];
    while rest != map[]
      invariant rest.Keys <= diff.Keys
      invariant forall k :: k in rest ==> rest[k] == diff[k]
      invariant DecodeEntries(body) == Some(diff - rest.Keys)
      decreases rest.Keys
    {
      var name :| name in rest;
      EntryInFront(diff, rest, body, name);
      body := EncodeEntry(name, rest[name]) + body;
      rest := rest - {name};
    }
    assert diff - rest.Keys == diff;
    blob := "{" + body + "}";
    assert blob[1..|blob| - 1] == body;
  }
}
