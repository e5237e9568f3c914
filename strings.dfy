/** String operations of Python 2's `str` that the start-up layer relies on:
    `split(sep)`, `sep.join`, `strip()`, `split()` on separator runs,
    `startswith`/`endswith`/`in`, ASCII `upper()`, and decimal digits. */
module Strings {

  /** Python 2 `str.isspace` for a single character: space, \t, \n, \v, \f, \r. */
  predicate IsSpace(c: char) {
    c == ' ' || c == '\t' || c == '\n' || c == '\r' || c == 11 as char || c == 12 as char
  }

  /** Characters that `strip()` and `split()` without arguments treat as whitespace. */
  const Whitespace: set<char> := {' ', '\t', '\n', '\r', 11 as char, 12 as char}

  predicate StartsWith(s: string, prefix: string) {
    |prefix| <= |s| && s[..|prefix|] == prefix
  }

  predicate EndsWith(s: string, suffix: string) {
    |suffix| <= |s| && s[|s| - |suffix|..] == suffix
  }

  /** Python's `needle in s` for strings. */
  predicate Contains(s: string, needle: string)
    decreases |s|
  {
    StartsWith(s, needle) || (|s| > 0 && Contains(s[1..], needle))
  }

  /** Sequence concatenation regroups freely. */
  lemma ConcatAssoc<T>(a: seq<T>, b: seq<T>, c: seq<T>)
    ensures a + b + c == a + (b + c)
  {
  }

  // ---------------------------------------------------------------- strip()

  function LStrip(s: string): (r: string)
    ensures |r| <= |s| && r == s[|s| - |r|..]
    ensures r == [] || !IsSpace(r[0])
  {
    if s != [] && IsSpace(s[0]) then LStrip(s[1..]) else s
  }

  /** Every character of `s` is whitespace. */
  predicate AllSpace(s: string) {
    forall i :: 0 <= i < |s| ==> IsSpace(s[i])
  }

  /** `lstrip()` removes exactly the leading whitespace. */
  lemma {:induction false} LStripRemovesSpace(s: string)
    ensures AllSpace(s[..|s| - |LStrip(s)|])
  {
    if s != [] && IsSpace(s[0]) {
      LStripRemovesSpace(s[1..]);
      assert s[..|s| - |LStrip(s)|] == [s[0]] + s[1..][..|s| - 1 - |LStrip(s[1..])|];
    }
  }

  /** Leading whitespace in front of a text that does not start with
      whitespace is what `lstrip()` removes. */
  lemma {:induction false} LStripSpacePrefix(p: string, x: string)
    requires AllSpace(p) && (x == [] || !IsSpace(x[0]))
    ensures LStrip(p + x) == x
  {
    if p == [] {
      assert p + x == x;
    } else {
      assert (p + x)[1..] == p[1..] + x;
      LStripSpacePrefix(p[1..], x);
    }
  }

  function RStrip(s: string): (r: string)
    ensures |r| <= |s| && r == s[..|r|]
    ensures r == [] || !IsSpace(r[|r| - 1])
  {
    if s != [] && IsSpace(s[|s| - 1]) then RStrip(s[..|s| - 1]) else s
  }

  /** Python's `s.strip()`: leading and trailing whitespace removed. */
  function Strip(s: string): (r: string)
    ensures |r| <= |s|
    ensures r == [] || (!IsSpace(r[0]) && !IsSpace(r[|r| - 1]))
  {
    var l := LStrip(s);
    var r := RStrip(l);
    assert r != [] ==> r[0] == l[0];
    r
  }

  /** Stripping only removes characters: a character absent from `s` is absent
      from `Strip(s)`. */
  lemma StripWithin(s: string, c: char)
    requires c !in s
    ensures c !in Strip(s)
  {
    var l := LStrip(s);
    assert l == s[|s| - |l|..];
    assert c !in l;
    assert Strip(s) == l[..|Strip(s)|];
  }

  /** Leading whitespace before a text that neither starts nor ends with
      whitespace is all that `strip()` removes. */
  lemma StripPadded(pad: string, x: string)
    requires AllSpace(pad) && x != [] && !IsSpace(x[0]) && !IsSpace(x[|x| - 1])
    ensures Strip(pad + x) == x
  {
    LStripSpacePrefix(pad, x);
  }

  /** A string none of whose characters is a whitespace character. */
  lemma NoWhitespace(s: string)
    requires ' ' !in s && '\t' !in s && '\n' !in s && '\r' !in s && 11 as char !in s && 12 as char !in s
    ensures forall i :: 0 <= i < |s| ==> !IsSpace(s[i]) && s[i] !in Whitespace
  {
    forall i | 0 <= i < |s|
      ensures !IsSpace(s[i]) && s[i] !in Whitespace
    {
      assert s[i] in s;
    }
  }

  /** Stripping a string that holds no whitespace at all leaves it as it is. */
  lemma StripNoSpace(s: string)
    requires forall i :: 0 <= i < |s| ==> !IsSpace(s[i])
    ensures Strip(s) == s
  {
  }

  // ------------------------------------------------------ split(sep) / join

  /** Python's `s.split(sep)` for a one-character separator: every occurrence
      splits, empty pieces are kept, and there is always at least one piece. */
  function Split(s: string, sep: char): (r: seq<string>)
    ensures |r| >= 1
  {
    if s == [] then [""]
    else
      var rest := Split(s[1..], sep);
      if s[0] == sep then [""] + rest else [[s[0]] + rest[0]] + rest[1..]
  }

  /** Python's `sep.join(parts)` for a non-empty list of parts. */
  function Join(parts: seq<string>, sep: char): string
    requires |parts| >= 1
  {
    if |parts| == 1 then parts[0] else parts[0] + [sep] + Join(parts[1..], sep)
  }

  /** Joining the pieces of a split with the same separator gives back the string. */
  lemma {:induction false} JoinSplit(s: string, sep: char)
    ensures Join(Split(s, sep), sep) == s
  {
    if s != [] {
      JoinSplit(s[1..], sep);
      if s[0] == sep {
        JoinSplitAtSep(s, sep);
      } else {
        JoinSplitAtChar(s, sep);
      }
    }
  }

  /** The step of `JoinSplit` for a string starting with the separator. */
  lemma JoinSplitAtSep(s: string, sep: char)
    requires s != [] && s[0] == sep && Join(Split(s[1..], sep), sep) == s[1..]
    ensures Join(Split(s, sep), sep) == s
  {
    var rest := Split(s[1..], sep);
    assert Split(s, sep) == [""] + rest;
    assert ([""] + rest)[1..] == rest;
    assert s == [sep] + s[1..];
  }

  /** The step of `JoinSplit` for a string starting with another character. */
  lemma JoinSplitAtChar(s: string, sep: char)
    requires s != [] && s[0] != sep && Join(Split(s[1..], sep), sep) == s[1..]
    ensures Join(Split(s, sep), sep) == s
  {
    var rest := Split(s[1..], sep);
    var parts := Split(s, sep);
    assert parts == [[s[0]] + rest[0]] + rest[1..];
    assert s == [s[0]] + s[1..];
    if |rest| == 1 {
      assert parts == [[s[0]] + rest[0]];
    } else {
      var tail := Join(rest[1..], sep);
      assert parts[1..] == rest[1..];
      calc {
        Join(parts, sep);
        ([s[0]] + rest[0]) + [sep] + tail;
        { ConcatAssoc([s[0]], rest[0], [sep]); }
        ([s[0]] + (rest[0] + [sep])) + tail;
        { ConcatAssoc([s[0]], rest[0] + [sep], tail); }
        [s[0]] + (rest[0] + [sep] + tail);
        [s[0]] + Join(rest, sep);
      }
    }
  }

  /** No piece of a split contains the separator, and the number of pieces is
      one more than the number of separators. */
  lemma {:induction false} SplitPieces(s: string, sep: char)
    ensures forall i :: 0 <= i < |Split(s, sep)| ==> sep !in Split(s, sep)[i]
    ensures |Split(s, sep)| == Count(s, sep) + 1
  {
    if s != [] {
      SplitPieces(s[1..], sep);
    }
  }

  /** The number of occurrences of `c` in `s`. */
  function Count(s: string, c: char): nat {
    if s == [] then 0 else (if s[0] == c then 1 else 0) + Count(s[1..], c)
  }

  /** Splitting a joined list of separator-free parts gives back the parts. */
  lemma {:induction false} SplitJoin(parts: seq<string>, sep: char)
    requires |parts| >= 1
    requires forall i :: 0 <= i < |parts| ==> sep !in parts[i]
    ensures Split(Join(parts, sep), sep) == parts
  {
    if |parts| == 1 {
      SplitFree(parts[0], sep);
    } else {
      SplitJoin(parts[1..], sep);
      SplitAround(parts[0], Join(parts[1..], sep), sep);
      assert [parts[0]] + parts[1..] == parts;
    }
  }

  /** A string free of the separator splits into itself. */
  lemma {:induction false} SplitFree(s: string, sep: char)
    requires sep !in s
    ensures Split(s, sep) == [s]
  {
    if s != [] {
      SplitFree(s[1..], sep);
      assert [s[0]] + s[1..] == s;
    }
  }

  /** Splitting `a + sep + b`, with `a` free of the separator, puts `a` first. */
  lemma {:induction false} SplitAround(a: string, b: string, sep: char)
    requires sep !in a
    ensures Split(a + [sep] + b, sep) == [a] + Split(b, sep)
  {
    if a == [] {
      assert [] + [sep] + b == [sep] + b;
      assert ([sep] + b)[1..] == b;
    } else {
      SplitAround(a[1..], b, sep);
      var s := a + [sep] + b;
      assert s[0] == a[0] && s[1..] == a[1..] + [sep] + b;
      assert [a[0]] + a[1..] == a;
    }
  }

  // ------------------------------------------- split on runs of separators

  /** The longest prefix of `s` holding no separator. */
  function Word(s: string, seps: set<char>): (w: string)
    ensures |w| <= |s| && w == s[..|w|]
    ensures forall i :: 0 <= i < |w| ==> w[i] !in seps
    ensures |w| < |s| ==> s[|w|] in seps
  {
    if s == [] || s[0] in seps then [] else [s[0]] + Word(s[1..], seps)
  }

  /** The maximal runs of non-separator characters of `s`, in order. This is
      what `[x.strip() for x in re.split(r'[\s,]+', s)]` filtered for non-empty
      items computes when whitespace is among the separators, and what
      `s.split()` computes when the separators are exactly the whitespace. */
  function Fields(s: string, seps: set<char>): (r: seq<string>)
    decreases |s|
  {
    if s == [] then []
    else if s[0] in seps then Fields(s[1..], seps)
    else
      var w := Word(s, seps);
      [w] + Fields(s[|w|..], seps)
  }

  /** Every field is non-empty and holds no separator. */
  lemma {:induction false} FieldsAreWords(s: string, seps: set<char>)
    ensures forall i :: 0 <= i < |Fields(s, seps)| ==>
      Fields(s, seps)[i] != [] && forall j :: 0 <= j < |Fields(s, seps)[i]| ==> Fields(s, seps)[i][j] !in seps
    decreases |s|
  {
    if s != [] {
      if s[0] in seps {
        FieldsAreWords(s[1..], seps);
      } else {
        FieldsAreWords(s[|Word(s, seps)|..], seps);
      }
    }
  }

  /** A string free of separators is its own only word. */
  lemma {:induction false} WordOfFree(s: string, seps: set<char>)
    requires forall i :: 0 <= i < |s| ==> s[i] !in seps
    ensures Word(s, seps) == s
  {
    if s != [] {
      WordOfFree(s[1..], seps);
      assert [s[0]] + s[1..] == s;
    }
  }

  /** A non-empty string free of separators is its own only field. */
  lemma FieldsOfFree(s: string, seps: set<char>)
    requires s != [] && forall i :: 0 <= i < |s| ==> s[i] !in seps
    ensures Fields(s, seps) == [s]
  {
    WordOfFree(s, seps);
    assert s[|s|..] == [];
  }

  /** `s` with every separator deleted. */
  function RemoveAll(s: string, seps: set<char>): string {
    if s == [] then [] else (if s[0] in seps then [] else [s[0]]) + RemoveAll(s[1..], seps)
  }

  /** The concatenation of a list of strings. */
  function Concat(parts: seq<string>): string {
    if parts == [] then [] else parts[0] + Concat(parts[1..])
  }

  lemma {:induction false} RemoveAllAppend(a: string, b: string, seps: set<char>)
    ensures RemoveAll(a + b, seps) == RemoveAll(a, seps) + RemoveAll(b, seps)
  {
    if a == [] {
      assert a + b == b;
    } else {
      var head := if a[0] in seps then [] else [a[0]];
      assert (a + b)[0] == a[0] && (a + b)[1..] == a[1..] + b;
      calc {
        RemoveAll(a + b, seps);
        head + RemoveAll(a[1..] + b, seps);
        { RemoveAllAppend(a[1..], b, seps); }
        head + (RemoveAll(a[1..], seps) + RemoveAll(b, seps));
        { ConcatAssoc(head, RemoveAll(a[1..], seps), RemoveAll(b, seps)); }
        RemoveAll(a, seps) + RemoveAll(b, seps);
      }
    }
  }

  /** The fields, put back together, are the string with its separators deleted:
      no character other than a separator is lost. */
  lemma {:induction false} FieldsKeepEverything(s: string, seps: set<char>)
    ensures Concat(Fields(s, seps)) == RemoveAll(s, seps)
    decreases |s|
  {
    if s != [] {
      if s[0] in seps {
        FieldsKeepEverything(s[1..], seps);
      } else {
        var w := Word(s, seps);
        FieldsKeepEverything(s[|w|..], seps);
        assert s == w + s[|w|..];
        RemoveAllAppend(w, s[|w|..], seps);
        WordHasNoSeps(w, seps);
        assert [w] + Fields(s[|w|..], seps) == Fields(s, seps);
        assert Fields(s, seps)[1..] == Fields(s[|w|..], seps);
      }
    }
  }

  lemma {:induction false} WordHasNoSeps(w: string, seps: set<char>)
    requires forall i :: 0 <= i < |w| ==> w[i] !in seps
    ensures RemoveAll(w, seps) == w
  {
    if w != [] {
      WordHasNoSeps(w[1..], seps);
      assert [w[0]] + w[1..] == w;
    }
  }

  lemma {:induction false} WordStopsAtSep(a: string, b: string, c: char, seps: set<char>)
    requires c in seps
    ensures Word(a + [c] + b, seps) == Word(a, seps)
  {
    if a == [] {
      assert (a + [c] + b)[0] == c;
    } else if a[0] !in seps {
      WordStopsAtSep(a[1..], b, c, seps);
      assert (a + [c] + b)[1..] == a[1..] + [c] + b;
    }
  }

  /** A separator splits the fields of the two sides apart: the fields of
      `a + c + b` are those of `a` followed by those of `b`. */
  lemma {:induction false} FieldsAround(a: string, b: string, c: char, seps: set<char>)
    requires c in seps
    ensures Fields(a + [c] + b, seps) == Fields(a, seps) + Fields(b, seps)
    decreases |a|
  {
    var s := a + [c] + b;
    if a == [] {
      assert s == [c] + b && s[1..] == b;
    } else if a[0] in seps {
      FieldsAround(a[1..], b, c, seps);
      assert s[1..] == a[1..] + [c] + b;
    } else {
      var w := Word(s, seps);
      WordStopsAtSep(a, b, c, seps);
      assert w == Word(a, seps);
      assert s[|w|..] == a[|w|..] + [c] + b;
      FieldsAround(a[|w|..], b, c, seps);
    }
  }

  // --------------------------------------------------------------- upper()

  /** Python 2 `str.upper()` on one character (the C locale: ASCII only). */
  function UpperChar(c: char): (u: char)
    ensures 'a' <= c <= 'z' ==> u as int == c as int - 32
    ensures !('a' <= c <= 'z') ==> u == c
  {
    if 'a' <= c <= 'z' then (c as int - 32) as char else c
  }

  function Upper(s: string): (r: string)
    ensures |r| == |s|
    ensures forall i :: 0 <= i < |s| ==> r[i] == UpperChar(s[i])
  {
    seq(|s|, i requires 0 <= i < |s| => UpperChar(s[i]))
  }

  /** A string of ASCII letters. */
  predicate AllLetters(s: string) {
    forall i :: 0 <= i < |s| ==> 'A' <= s[i] <= 'Z' || 'a' <= s[i] <= 'z'
  }

  /** `upper()` leaves an upper-case string as it is. */
  lemma UpperOfUpper(s: string)
    requires forall i :: 0 <= i < |s| ==> 'A' <= s[i] <= 'Z'
    ensures Upper(s) == s
  {
  }

  /** Python 2 `str.lower()` on one character (ASCII only). */
  function LowerChar(c: char): (l: char)
    ensures 'A' <= c <= 'Z' ==> l as int == c as int + 32
    ensures !('A' <= c <= 'Z') ==> l == c
  {
    if 'A' <= c <= 'Z' then (c as int + 32) as char else c
  }

  function Lower(s: string): (r: string)
    ensures |r| == |s|
    ensures forall i :: 0 <= i < |s| ==> r[i] == LowerChar(s[i])
  {
    seq(|s|, i requires 0 <= i < |s| => LowerChar(s[i]))
  }

  // ---------------------------------------------------------- decimal digits

  predicate IsDigit(c: char) {
    '0' <= c <= '9'
  }

  predicate AllDigits(s: string) {
    forall i :: 0 <= i < |s| ==> IsDigit(s[i])
  }

  function DigitChar(d: nat): (c: char)
    requires d < 10
    ensures IsDigit(c) && c as int - '0' as int == d
  {
    ('0' as int + d) as char
  }

  /** The value of a string of decimal digits (`int('007') == 7`). */
  function DigitsValue(s: string): nat
    requires AllDigits(s)
  {
    if s == [] then 0 else DigitsValue(s[..|s| - 1]) * 10 + (s[|s| - 1] as int - '0' as int)
  }

  /** The decimal representation of a natural number, as `'%d' % n` prints it. */
  function NatToString(n: nat): (s: string)
    ensures s != [] && AllDigits(s)
  {
    if n < 10 then [DigitChar(n)] else NatToString(n / 10) + [DigitChar(n % 10)]
  }

  /** Reading back a printed number gives the number. */
  lemma {:induction false} DigitsValueOfNatToString(n: nat)
    ensures DigitsValue(NatToString(n)) == n
  {
    var s := NatToString(n);
    if n >= 10 {
      DigitsValueOfNatToString(n / 10);
      assert s[..|s| - 1] == NatToString(n / 10);
    }
  }
}
