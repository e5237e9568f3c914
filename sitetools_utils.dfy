/** sitetools/utils.py: order-preserving de-duplication and colon-separated
    environment lists. */
module SitetoolsUtils {
  import opened Strings

  /** `get_environ_list(name)`: the variable split on ':' (empty pieces kept),
      or no entries at all when the variable is unset. */
  function GetEnvironList(environ: map<string, string>, name: string): (r: seq<string>)
    ensures name !in environ ==> r == []
    ensures name in environ ==> |r| >= 1 && Join(r, ':') == environ[name]
    ensures forall i :: 0 <= i < |r| ==> ':' !in r[i]
  {
    if name in environ then
      JoinSplit(environ[name], ':');
      SplitPieces(environ[name], ':');
      Split(environ[name], ':')
    else []
  }

  /** The keys of the elements of `s`. */
  ghost function KeySet<T, K>(s: seq<T>, key: T -> K): set<K> {
    set x | x in s :: key(x)
  }

  /** What `unique_list(input_, key)` returns, one element at a time from the
      front: an element is kept when no earlier element had its key. */
  ghost function UniqueBy<T, K>(s: seq<T>, key: T -> K): seq<T> {
    if s == [] then []
    else
      var init := s[..|s| - 1];
      UniqueBy(init, key) + (if key(s[|s| - 1]) in KeySet(init, key) then [] else [s[|s| - 1]])
  }

  /** `unique_list(input_, key)`: the loop with its `seen` set and `output` list. */
  method UniqueList<T, K(==)>(input: seq<T>, key: T -> K) returns (output: seq<T>)
    ensures output == UniqueBy(input, key)
  {
    var seen: set<K> := {};
    output := [];
    var i := 0;
    while i < |input|
      invariant 0 <= i <= |input|
      invariant seen == KeySet(input[..i], key)
      invariant output == UniqueBy(input[..i], key)
    {
      var x := input[i];
      var keyx := key(x);
      assert input[..i + 1][..i] == input[..i];
      assert KeySet(input[..i + 1], key) == KeySet(input[..i], key) + {keyx} by {
        assert input[..i + 1] == input[..i] + [x];
      }
      if keyx !in seen {
        seen := seen + {keyx};
        output := output + [x];
      } else {
        seen := seen + {keyx};
      }
      i := i + 1;
    }
    assert input[..i] == input;
  }

  lemma KeySetSnoc<T, K>(s: seq<T>, x: T, key: T -> K)
    ensures KeySet(s + [x], key) == KeySet(s, key) + {key(x)}
  {
    assert forall y :: y in s + [x] <==> y in s || y == x;
  }

  /** No two elements of the output share a key, and the output has exactly the
      keys of the input. */
  lemma {:induction false} UniqueKeys<T, K>(s: seq<T>, key: T -> K)
    ensures var u := UniqueBy(s, key);
      (forall i, j :: 0 <= i < j < |u| ==> key(u[i]) != key(u[j])) && KeySet(u, key) == KeySet(s, key)
  {
    if s != [] {
      var init := s[..|s| - 1];
      var x := s[|s| - 1];
      UniqueKeys(init, key);
      assert s == init + [x];
      KeySetSnoc(init, x, key);
      var u0 := UniqueBy(init, key);
      if key(x) !in KeySet(init, key) {
        KeySetSnoc(u0, x, key);
        assert forall i :: 0 <= i < |u0| ==> key(u0[i]) in KeySet(u0, key);
      }
    }
  }

  /** `a` is `b` with some elements left out, the rest in order. */
  ghost predicate IsSubsequence<T>(a: seq<T>, b: seq<T>)
    decreases |b|
  {
    if a == [] then true
    else if b == [] then false
    else if a[|a| - 1] == b[|b| - 1] then IsSubsequence(a[..|a| - 1], b[..|b| - 1])
    else IsSubsequence(a, b[..|b| - 1])
  }

  lemma {:induction false} SubsequenceDropLast<T>(a: seq<T>, b: seq<T>)
    requires a != [] && IsSubsequence(a, b)
    ensures IsSubsequence(a[..|a| - 1], b)
    decreases |b|, 0
  {
    var a' := a[..|a| - 1];
    if a' != [] && b != [] {
      if a[|a| - 1] == b[|b| - 1] {
        SubsequenceExtend(a', b[..|b| - 1], b[|b| - 1]);
        assert b[..|b| - 1] + [b[|b| - 1]] == b;
      } else {
        SubsequenceDropLast(a, b[..|b| - 1]);
        SubsequenceExtend(a', b[..|b| - 1], b[|b| - 1]);
        assert b[..|b| - 1] + [b[|b| - 1]] == b;
      }
    }
  }

  lemma {:induction false} SubsequenceExtend<T>(a: seq<T>, b: seq<T>, x: T)
    requires IsSubsequence(a, b)
    ensures IsSubsequence(a, b + [x])
    decreases |b|, 1
  {
    assert (b + [x])[..|b|] == b;
    if a != [] && a[|a| - 1] == x {
      SubsequenceDropLast(a, b);
    }
  }

  /** The output keeps elements of the input, in input order. */
  lemma {:induction false} UniqueIsSubsequence<T, K>(s: seq<T>, key: T -> K)
    ensures IsSubsequence(UniqueBy(s, key), s)
  {
    if s != [] {
      var init := s[..|s| - 1];
      var x := s[|s| - 1];
      UniqueIsSubsequence(init, key);
      var u0 := UniqueBy(init, key);
      assert init + [x] == s;
      if key(x) in KeySet(init, key) {
        assert UniqueBy(s, key) == u0;
        SubsequenceExtend(u0, init, x);
      } else {
        var u := u0 + [x];
        assert UniqueBy(s, key) == u;
        assert u[..|u| - 1] == u0 && u[|u| - 1] == s[|s| - 1];
      }
    }
  }

  /** The element kept for a key is the first input element with that key. */
  ghost function FirstWithKey<T, K>(s: seq<T>, key: T -> K, k: K): T
    requires k in KeySet(s, key)
  {
    var init := s[..|s| - 1];
    assert s == init + [s[|s| - 1]];
    KeySetSnoc(init, s[|s| - 1], key);
    if k in KeySet(init, key) then FirstWithKey(init, key, k) else s[|s| - 1]
  }

  lemma {:induction false} UniqueKeepsFirst<T, K>(s: seq<T>, key: T -> K)
    ensures forall i :: 0 <= i < |UniqueBy(s, key)| ==>
      key(UniqueBy(s, key)[i]) in KeySet(s, key) &&
      UniqueBy(s, key)[i] == FirstWithKey(s, key, key(UniqueBy(s, key)[i]))
  {
    if s != [] {
      var init := s[..|s| - 1];
      var x := s[|s| - 1];
      UniqueKeepsFirst(init, key);
      assert s == init + [x];
      KeySetSnoc(init, x, key);
    }
  }

  /** De-duplicating twice is de-duplicating once. */
  lemma {:induction false} UniqueIdempotent<T, K>(s: seq<T>, key: T -> K)
    ensures UniqueBy(UniqueBy(s, key), key) == UniqueBy(s, key)
  {
    UniqueKeys(s, key);
    DistinctKeysUnchanged(UniqueBy(s, key), key);
  }

  lemma {:induction false} DistinctKeysUnchanged<T, K>(s: seq<T>, key: T -> K)
    requires forall i, j :: 0 <= i < j < |s| ==> key(s[i]) != key(s[j])
    ensures UniqueBy(s, key) == s
  {
    if s != [] {
      var init := s[..|s| - 1];
      DistinctKeysUnchanged(init, key);
      assert key(s[|s| - 1]) !in KeySet(init, key) by {
        forall y | y in init ensures key(y) != key(s[|s| - 1]) {
          var i :| 0 <= i < |init| && init[i] == y;
        }
      }
      assert init + [s[|s| - 1]] == s;
    }
  }
}
