/** sitetools/logging.py, the part of `_setup` that decides logger levels:
    the root threshold from `KS_VERBOSE`, the two chatty third-party loggers,
    and the `name:LEVEL` requests of `KS_LOG_LEVELS`, applied in order. */
module LogLevels {
  import opened Wrappers
  import opened Strings

  /** The two extra levels the package registers, and the standard ones. */
  const BLATHER := 1
  const TRACE := 5
  const NOTSET := 0
  const DEBUG := 10
  const INFO := 20
  const WARNING := 30
  const ERROR := 40
  const CRITICAL := 50

  /** `logging.getLogger(name)`: a falsy name gives the root logger. */
  datatype Target = Root | Named(name: string)

  /** The `KS_VERBOSE` table: `'0'` (the default) is INFO, `'1'` DEBUG, `'2'`
      TRACE, `'3'` BLATHER, anything else DEBUG. */
  function VerbosityLevel(environ: map<string, string>): (level: int)
    ensures level == INFO || level == DEBUG || level == TRACE || level == BLATHER
    ensures level == INFO <==> "KS_VERBOSE" !in environ || environ["KS_VERBOSE"] == "0"
    ensures level == TRACE <==> "KS_VERBOSE" in environ && environ["KS_VERBOSE"] == "2"
    ensures level == BLATHER <==> "KS_VERBOSE" in environ && environ["KS_VERBOSE"] == "3"
  {
    var verbosity := if "KS_VERBOSE" in environ then environ["KS_VERBOSE"] else "0";
    if verbosity == "0" then INFO
    else if verbosity == "1" then DEBUG
    else if verbosity == "2" then TRACE
    else if verbosity == "3" then BLATHER
    else DEBUG
  }

  /** `DeprecationWarning`s are ignored unless some verbosity was asked for. */
  function IgnoresDeprecations(environ: map<string, string>): (ignored: bool)
    ensures ignored <==> "KS_VERBOSE" !in environ || environ["KS_VERBOSE"] == "0"
  {
    VerbosityLevel(environ) >= INFO
  }

  /** What `re.split(r'[\s,]+', ...)` splits on. */
  const SpecSeparators: set<char> := Whitespace + {','}

  /** The non-empty items of `KS_LOG_LEVELS`, in order. */
  function RequestedSpecs(environ: map<string, string>): (specs: seq<string>)
    ensures "KS_LOG_LEVELS" !in environ ==> specs == []
    ensures forall i :: 0 <= i < |specs| ==> specs[i] != [] && forall j :: 0 <= j < |specs[i]| ==> specs[i][j] !in SpecSeparators
  {
    if "KS_LOG_LEVELS" in environ && environ["KS_LOG_LEVELS"] != "" then
      FieldsAreWords(environ["KS_LOG_LEVELS"], SpecSeparators);
      Fields(environ["KS_LOG_LEVELS"], SpecSeparators)
    else []
  }

  /** `int` after the whitespace is gone: an optional sign, then at least
      one decimal digit. */
  function ParseSigned(t: string): Option<int> {
    if t != [] && AllDigits(t) then Some(DigitsValue(t))
    else if |t| >= 2 && (t[0] == '-' || t[0] == '+') && AllDigits(t[1..]) then
      var v: int := DigitsValue(t[1..]);
      Some(if t[0] == '-' then -v else v)
    else None
  }

  /** Python's `int(s)` on a string: surrounding whitespace, an optional sign,
      then at least one decimal digit; `None` where `int` raises. */
  function ParseInt(s: string): Option<int> {
    ParseSigned(Strip(s))
  }

  /** A plain run of digits is its decimal value. */
  lemma ParseIntOfDigits(s: string)
    requires s != [] && AllDigits(s)
    ensures ParseInt(s) == Some(DigitsValue(s))
  {
    assert forall i :: 0 <= i < |s| ==> !IsSpace(s[i]) by {
      forall i | 0 <= i < |s| ensures !IsSpace(s[i]) {
        assert IsDigit(s[i]);
      }
    }
    StripNoSpace(s);
  }

  /** `'%d' % n`. */
  function IntToString(n: int): (s: string)
    ensures s != []
  {
    if n < 0 then "-" + NatToString(-n) else NatToString(n)
  }

  /** `int()` reads back every printed integer. */
  lemma ParseIntOfPrinted(n: int)
    ensures ParseInt(IntToString(n)) == Some(n)
  {
    if n < 0 {
      var m: nat := -n;
      assert IntToString(n) == "-" + NatToString(m);
      ParseIntOfMinus(NatToString(m));
      NegatedValue(m);
    } else {
      DigitsValueOfNatToString(n);
      ParseIntOfDigits(IntToString(n));
    }
  }

  /** `int()` of a minus sign and digits is their value, negated. */
  lemma ParseIntOfMinus(digits: string)
    requires digits != [] && AllDigits(digits)
    ensures var v: int := DigitsValue(digits); ParseInt("-" + digits) == Some(-v)
  {
    MinusDigitsUnstripped(digits);
    ParseSignedMinus(digits);
  }

  /** The printed digits of `m`, read back and negated. */
  lemma NegatedValue(m: nat)
    ensures var v: int := DigitsValue(NatToString(m)); Some(-v) == Some(-(m as int))
  {
    DigitsValueOfNatToString(m);
  }

  /** A minus sign before digits negates their value. */
  lemma ParseSignedMinus(digits: string)
    requires digits != [] && AllDigits(digits)
    ensures var v: int := DigitsValue(digits); ParseSigned("-" + digits) == Some(-v)
  {
    var s := "-" + digits;
    assert s[0] == '-' && s[1..] == digits;
    assert !AllDigits(s) by {
      assert !IsDigit(s[0]);
    }
  }

  /** A minus sign and digits hold no whitespace for `strip()` to remove. */
  lemma MinusDigitsUnstripped(digits: string)
    requires AllDigits(digits)
    ensures Strip("-" + digits) == "-" + digits
  {
    var s := "-" + digits;
    forall i | 0 <= i < |s|
      ensures !IsSpace(s[i])
    {
      if i > 0 {
        assert s[i] == digits[i - 1] && IsDigit(digits[i - 1]);
      }
    }
    StripNoSpace(s);
  }

  /** The upper-case integer attributes of the `logging` module once TRACE
      and BLATHER are registered. */
  const LevelNames: map<string, int> := map[
    "CRITICAL" := CRITICAL, "FATAL" := CRITICAL, "ERROR" := ERROR,
    "WARNING" := WARNING, "WARN" := WARNING, "INFO" := INFO, "DEBUG" := DEBUG,
    "NOTSET" := NOTSET, "TRACE" := TRACE, "BLATHER" := BLATHER]

  /** `sys.maxint` of a 64-bit Python 2: past it `int()` returns a `long`. */
  const MaxInt := 0x7fff_ffff_ffff_ffff

  /** Whether a value `int()` returns is a plain `int` rather than a `long`. */
  predicate IsPlainInt(n: int) {
    -MaxInt - 1 <= n <= MaxInt
  }

  /** `getattr(logging, name, None)` for an upper-case level name. */
  function NamedLevel(name: string): (r: Option<int>)
    ensures r.Some? <==> name in LevelNames
    ensures r.Some? ==> IsPlainInt(r.value)
  {
    if name in LevelNames then Some(LevelNames[name]) else None
  }

  /** `int(level)`, or else `getattr(logging, level.upper(), None)`; the
      result must then pass `isinstance(level, int)`, which a `long` fails. */
  function ParseLevel(text: string): (r: Option<int>)
    ensures r.Some? ==> IsPlainInt(r.value)
    ensures ParseInt(text).Some? && IsPlainInt(ParseInt(text).value) ==> r == ParseInt(text)
    ensures ParseInt(text).Some? && !IsPlainInt(ParseInt(text).value) ==> r.None?
    ensures ParseInt(text).None? ==> (r.Some? <==> Upper(text) in LevelNames)
  {
    match ParseInt(text)
    case Some(n) => if IsPlainInt(n) then Some(n) else None
    case None => NamedLevel(Upper(text))
  }

  /** A printed plain integer is read back as a level; a printed `long` is
      not a level at all. */
  lemma ParseLevelOfPrinted(n: int)
    ensures IsPlainInt(n) ==> ParseLevel(IntToString(n)) == Some(n)
    ensures !IsPlainInt(n) ==> ParseLevel(IntToString(n)) == None
  {
    ParseIntOfPrinted(n);
  }

  /** A level given by name, in any case, is the `logging` attribute of that
      name in upper case: `int()` refuses every string of letters. */
  lemma ParseLevelOfLetters(text: string)
    requires text != [] && AllLetters(text)
    ensures ParseLevel(text) == NamedLevel(Upper(text))
    ensures ParseLevel(text).Some? <==> Upper(text) in LevelNames
  {
    assert ParseInt(text) == None by {
      StripNoSpace(text);
      assert !IsDigit(text[0]) && text[0] != '-' && text[0] != '+';
    }
  }

  /** `WARNING` names level 30. */
  lemma WarningByName()
    ensures ParseLevel("WARNING") == Some(WARNING)
  {
    UpperOfUpper("WARNING");
    ParseLevelOfLetters("WARNING");
  }

  /** `DEBUG` names level 10. */
  lemma DebugByName()
    ensures ParseLevel("DEBUG") == Some(DEBUG)
  {
    UpperOfUpper("DEBUG");
    ParseLevelOfLetters("DEBUG");
  }

  /** What one item of `KS_LOG_LEVELS` asks for, or why it is rejected (each
      rejection is logged as an error and the item skipped). */
  datatype Request = SetLevel(target: Target, level: int) | BadSpec(spec: string) | BadLevel(text: string)

  /** One item: `name:level`, exactly one colon; a blank name is the root. */
  function ParseSpec(spec: string): (r: Request)
    ensures r.BadSpec? <==> Count(spec, ':') != 1
    ensures r.SetLevel? && r.target.Named? ==> r.target.name != [] && ':' !in r.target.name
  {
    SplitPieces(spec, ':');
    var parts := Split(spec, ':');
    if |parts| != 2 then BadSpec(spec)
    else
      var name := Strip(parts[0]);
      StripWithin(parts[0], ':');
      var target := if name == "" then Root else Named(name);
      match ParseLevel(parts[1])
      case None => BadLevel(parts[1])
      case Some(level) => SetLevel(target, level)
  }

  /** An item with one colon: the stripped text before it names the logger,
      the root when that is blank, and the text after it is the level, which
      is rejected exactly when `ParseLevel` refuses it. */
  lemma ParseSpecOf(name: string, text: string)
    requires ':' !in name && ':' !in text
    ensures ParseSpec(name + ":" + text) == match ParseLevel(text)
      case None => BadLevel(text)
      case Some(level) => SetLevel(if Strip(name) == "" then Root else Named(Strip(name)), level)
  {
    var spec := name + ":" + text;
    assert Split(spec, ':') == [name, text] by {
      SplitAround(name, text, ':');
      SplitFree(text, ':');
    }
  }

  /** Every item with exactly one colon is the logger part, the colon and the
      level part, as `ParseSpecOf` takes it. */
  lemma SpecHalves(spec: string)
    requires Count(spec, ':') == 1
    ensures var parts := Split(spec, ':');
      |parts| == 2 && spec == parts[0] + ":" + parts[1] && ':' !in parts[0] && ':' !in parts[1]
  {
    SplitPieces(spec, ':');
    JoinSplit(spec, ':');
  }

  /** Two loggers' levels after the requests, in order: a later request for
      the same logger overrides an earlier one; rejected ones change nothing. */
  function AppliedRequests(levels: map<Target, int>, specs: seq<string>): map<Target, int> {
    if specs == [] then levels
    else Granted(AppliedRequests(levels, specs[..|specs| - 1]), ParseSpec(specs[|specs| - 1]))
  }

  /** `logger.setLevel(level)` for an accepted request. */
  function Granted(levels: map<Target, int>, req: Request): map<Target, int> {
    if req.SetLevel? then levels[req.target := req.level] else levels
  }

  /** The rejected items, in order; each is one logged error. */
  function Rejected(specs: seq<string>): (r: seq<Request>)
    ensures |r| <= |specs|
    ensures forall i :: 0 <= i < |r| ==> !r[i].SetLevel?
  {
    if specs == [] then []
    else
      var req := ParseSpec(specs[|specs| - 1]);
      Rejected(specs[..|specs| - 1]) + (if req.SetLevel? then [] else [req])
  }

  /** The level each logger has been given; loggers never given one are
      absent. */
  class Loggers {
    var levels: map<Target, int>

    constructor ()
      ensures levels == map[]
    {
      levels := map[];
    }
  }

  /** One pass of the request loop. */
  method ApplyRequest(loggers: Loggers, spec: string) returns (req: Request)
    modifies loggers
    ensures req == ParseSpec(spec)
    ensures loggers.levels == if req.SetLevel? then old(loggers.levels)[req.target := req.level] else old(loggers.levels)
  {
    req := ParseSpec(spec);
    if req.SetLevel? {
      loggers.levels := loggers.levels[req.target := req.level];
    }
  }

  /** The `for spec in requested_levels` loop. */
  method ApplyRequests(loggers: Loggers, specs: seq<string>) returns (errors: seq<Request>)
    modifies loggers
    ensures loggers.levels == AppliedRequests(old(loggers.levels), specs)
    ensures errors == Rejected(specs)
  {
    ghost var levels0 := loggers.levels;
    errors := [];
    var i := 0;
    while i < |specs|
      invariant 0 <= i <= |specs|
      invariant loggers.levels == AppliedRequests(levels0, specs[..i])
      invariant errors == Rejected(specs[..i])
    {
      assert specs[..i + 1][..i] == specs[..i];
      var req := ApplyRequest(loggers, specs[i]);
      if !req.SetLevel? {
        errors := errors + [req];
      }
      i := i + 1;
    }
    assert specs[..i] == specs;
  }

  /** The root threshold and the two quieted loggers, before any request. */
  function StartingLevels(levels: map<Target, int>, environ: map<string, string>): map<Target, int> {
    levels[Root := VerbosityLevel(environ)][Named("pymel") := WARNING][Named("paramiko.transport") := WARNING]
  }

  /** The level decisions of `_setup()`; returns the logged errors and
      whether deprecation warnings are ignored. */
  method Setup(loggers: Loggers, environ: map<string, string>) returns (errors: seq<Request>, ignoreDeprecations: bool)
    modifies loggers
    ensures loggers.levels == AppliedRequests(StartingLevels(old(loggers.levels), environ), RequestedSpecs(environ))
    ensures errors == Rejected(RequestedSpecs(environ))
    ensures ignoreDeprecations == IgnoresDeprecations(environ)
  {
    var level := VerbosityLevel(environ);
    ignoreDeprecations := level >= INFO;
    loggers.levels := loggers.levels[Root := level];
    loggers.levels := loggers.levels[Named("pymel") := WARNING];
    loggers.levels := loggers.levels[Named("paramiko.transport") := WARNING];
    errors := ApplyRequests(loggers, RequestedSpecs(environ));
  }

  /** A logger's final level comes from the last accepted request for it. */
  lemma {:induction false} LastRequestWins(levels: map<Target, int>, specs: seq<string>, i: nat, t: Target, l: int)
    requires i < |specs| && ParseSpec(specs[i]) == SetLevel(t, l)
    requires forall j :: i < j < |specs| ==> !(ParseSpec(specs[j]).SetLevel? && ParseSpec(specs[j]).target == t)
    ensures t in AppliedRequests(levels, specs) && AppliedRequests(levels, specs)[t] == l
  {
    var init := specs[..|specs| - 1];
    var earlier := AppliedRequests(levels, init);
    var last := ParseSpec(specs[|specs| - 1]);
    assert AppliedRequests(levels, specs) == Granted(earlier, last);
    if i < |specs| - 1 {
      LaterRequestsOfInit(specs, i, t);
      LastRequestWins(levels, init, i, t, l);
      GrantedKeeps(earlier, last, t);
    } else {
      GrantedSets(earlier, last);
    }
  }

  /** A request for another logger leaves this one alone. */
  lemma GrantedKeeps(levels: map<Target, int>, req: Request, t: Target)
    requires !(req.SetLevel? && req.target == t)
    ensures (t in Granted(levels, req) <==> t in levels) && (t in levels ==> Granted(levels, req)[t] == levels[t])
  {
  }

  /** An accepted request sets its logger's level. */
  lemma GrantedSets(levels: map<Target, int>, req: Request)
    requires req.SetLevel?
    ensures req.target in Granted(levels, req) && Granted(levels, req)[req.target] == req.level
  {
  }

  /** The condition on later requests, for all but the last spec. */
  lemma LaterRequestsOfInit(specs: seq<string>, i: nat, t: Target)
    requires i < |specs| - 1
    requires forall j :: i < j < |specs| ==> !(ParseSpec(specs[j]).SetLevel? && ParseSpec(specs[j]).target == t)
    ensures var init := specs[..|specs| - 1];
      init[i] == specs[i] && forall j :: i < j < |init| ==> !(ParseSpec(init[j]).SetLevel? && ParseSpec(init[j]).target == t)
  {
    var init := specs[..|specs| - 1];
    forall j | i < j < |init|
      ensures !(ParseSpec(init[j]).SetLevel? && ParseSpec(init[j]).target == t)
    {
      assert init[j] == specs[j];
    }
  }

  /** A logger no accepted request names keeps the level it had. */
  lemma {:induction false} UnrequestedKept(levels: map<Target, int>, specs: seq<string>, t: Target)
    requires forall j :: 0 <= j < |specs| ==> !(ParseSpec(specs[j]).SetLevel? && ParseSpec(specs[j]).target == t)
    ensures (t in AppliedRequests(levels, specs) <==> t in levels)
    ensures t in levels ==> AppliedRequests(levels, specs)[t] == levels[t]
  {
    if specs != [] {
      UnrequestedKept(levels, specs[..|specs| - 1], t);
    }
  }

  /** Two starting states that agree on a logger agree on it afterwards. */
  lemma {:induction false} RequestsPointwise(a: map<Target, int>, b: map<Target, int>, specs: seq<string>, t: Target)
    requires (t in a <==> t in b) && (t in a ==> a[t] == b[t])
    ensures t in AppliedRequests(a, specs) <==> t in AppliedRequests(b, specs)
    ensures t in AppliedRequests(a, specs) ==> AppliedRequests(a, specs)[t] == AppliedRequests(b, specs)[t]
  {
    if specs != [] {
      RequestsPointwise(a, b, specs[..|specs| - 1], t);
    }
  }

  /** `:100` asks for level 100 on the root logger. */
  lemma RootHundred()
    ensures ParseSpec(":100") == SetLevel(Root, 100)
  {
    RootHundredPieces();
    LevelHundred();
    assert Strip("") == "";
  }

  lemma RootHundredPieces()
    ensures Split(":100", ':') == ["", "100"]
  {
    SplitAround("", "100", ':');
    SplitFree("100", ':');
    assert [] + [':'] + "100" == ":100";
  }

  lemma LevelHundred()
    ensures ParseLevel("100") == Some(100)
  {
    assert AllDigits("100") && DigitsValue("100") == 100 by {
      assert "100"[..2] == "10" && "10"[..1] == "1";
    }
    ParseIntOfDigits("100");
  }

  /** A non-empty string of letters and colons, such as `mayatools:DEBUG`. */
  predicate PlainItem(s: string) {
    s != [] && forall i :: 0 <= i < |s| ==> s[i] == ':' || 'A' <= s[i] <= 'Z' || 'a' <= s[i] <= 'z'
  }

  /** Letters and colons are not item separators. */
  lemma PlainItemUnseparated(s: string)
    requires PlainItem(s)
    ensures forall i :: 0 <= i < |s| ==> s[i] !in SpecSeparators
  {
  }

  /** Two items joined by a comma are the two requests. */
  lemma TwoSpecs(value: string, a: string, b: string)
    requires value == a + "," + b && PlainItem(a) && PlainItem(b)
    ensures RequestedSpecs(map["KS_LOG_LEVELS" := value]) == [a, b]
  {
    PlainItemUnseparated(a);
    PlainItemUnseparated(b);
    FieldsAround(a, b, ',', SpecSeparators);
    FieldsOfFree(a, SpecSeparators);
    FieldsOfFree(b, SpecSeparators);
  }

  /** Two requests are granted one after the other. */
  lemma TwoRequests(levels: map<Target, int>, a: string, b: string)
    ensures AppliedRequests(levels, [a, b]) == Granted(Granted(levels, ParseSpec(a)), ParseSpec(b))
  {
    var specs := [a, b];
    assert specs[..1] == [a] && [a][..0] == [];
    assert AppliedRequests(levels, [a]) == Granted(levels, ParseSpec(a));
    assert AppliedRequests(levels, specs) == Granted(AppliedRequests(levels, [a]), ParseSpec(b));
  }

  /** `KS_LOG_LEVELS=:100` raises the root threshold above every built-in
      level. */
  lemma SilenceEverything(levels: map<Target, int>)
    ensures var after := AppliedRequests(levels, RequestedSpecs(map["KS_LOG_LEVELS" := ":100"]));
      Root in after && after[Root] == 100
  {
    FieldsOfFree(":100", SpecSeparators);
    assert RequestedSpecs(map["KS_LOG_LEVELS" := ":100"]) == [":100"];
    RootHundred();
    assert [":100"][..0] == [];
  }
}
