/** A JavaScript `Map` whose values carry their own key: its values in insertion order. */
module JsMap {

  ghost predicate Unique<T, K>(key: T -> K, s: seq<T>) {
    forall i, j :: 0 <= i < j < |s| ==> key(s[i]) != key(s[j])
  }

  /** `Map.set`: replaces in place, or appends. */
  function Put<T, K(==)>(key: T -> K, s: seq<T>, x: T): seq<T> {
    if s == [] then [x]
    else if key(s[0]) == key(x) then [x] + s[1..]
    else [s[0]] + Put(key, s[1..], x)
  }

  lemma {:induction false} PutFacts<T(!new), K>(key: T -> K, s: seq<T>, x: T)
    requires Unique(key, s)
    ensures Unique(key, Put(key, s, x))
    ensures forall y :: y in Put(key, s, x) <==> y == x || (y in s && key(y) != key(x))
  {
    if s != [] {
      assert s == [s[0]] + s[1..];
      if key(s[0]) != key(x) {
        PutFacts(key, s[1..], x);
        var rest := Put(key, s[1..], x);
        assert forall j :: 0 <= j < |rest| ==> rest[j] in rest;
        assert forall y :: y in s[1..] ==> key(y) != key(s[0]);
      }
    }
  }

  /** Rearranging a list keeps its keys unique. */
  lemma Rearranged<T, K>(key: T -> K, s: seq<T>, r: seq<T>)
    requires Unique(key, s) && multiset(r) == multiset(s)
    ensures Unique(key, r)
  {
    forall i, j | 0 <= i < j < |r| ensures key(r[i]) != key(r[j]) {
      assert r[i] in multiset(r) && r[j] in multiset(r);
      if r[i] == r[j] {
        TwiceCounts(r, i, j);
        OnceCounts(key, s, r[i]);
      }
    }
  }

  lemma TwiceCounts<T>(r: seq<T>, i: nat, j: nat)
    requires i < j < |r| && r[i] == r[j]
    ensures multiset(r)[r[i]] >= 2
  {
    assert r == r[..i] + [r[i]] + r[i + 1..j] + [r[j]] + r[j + 1..];
  }

  lemma {:induction false} OnceCounts<T, K>(key: T -> K, s: seq<T>, x: T)
    requires Unique(key, s)
    ensures multiset(s)[x] <= 1
  {
    if s != [] {
      var k := |s| - 1;
      OnceCounts(key, s[..k], x);
      assert s == s[..k] + [s[k]];
      if s[k] == x {
        assert forall y :: y in s[..k] ==> key(y) != key(x);
        assert x !in s[..k];
      }
    }
  }
}
