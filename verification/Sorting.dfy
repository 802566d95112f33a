/** `Array.prototype.sort` with a comparison function: a stable sort. */
module Sorting {

  /** `le(a, b)` says that the comparison of a with b is not positive. */
  ghost predicate Preorder<T(!new)>(le: (T, T) -> bool) {
    && (forall a, b :: le(a, b) || le(b, a))
    && (forall a, b, c :: le(a, b) && le(b, c) ==> le(a, c))
  }

  ghost predicate Sorted<T>(le: (T, T) -> bool, s: seq<T>) {
    forall i, j :: 0 <= i < j < |s| ==> le(s[i], s[j])
  }

  /** Places x behind every element that does not compare greater. */
  function Insert<T>(le: (T, T) -> bool, s: seq<T>, x: T): seq<T> {
    if s == [] then [x]
    else if le(s[0], x) then [s[0]] + Insert(le, s[1..], x)
    else [x] + s
  }

  function Sort<T>(le: (T, T) -> bool, s: seq<T>): seq<T> {
    if s == [] then [] else Insert(le, Sort(le, s[..|s| - 1]), s[|s| - 1])
  }

  lemma {:induction false} InsertContents<T>(le: (T, T) -> bool, s: seq<T>, x: T)
    ensures multiset(Insert(le, s, x)) == multiset(s) + multiset{x}
    ensures |Insert(le, s, x)| == |s| + 1
  {
    if s != [] {
      assert s == [s[0]] + s[1..];
      if le(s[0], x) {
        InsertContents(le, s[1..], x);
      }
    }
  }

  lemma {:induction false} InsertSorted<T(!new)>(le: (T, T) -> bool, s: seq<T>, x: T)
    requires Preorder(le) && Sorted(le, s)
    ensures Sorted(le, Insert(le, s, x))
  {
    if s != [] {
      if le(s[0], x) {
        var rest := Insert(le, s[1..], x);
        InsertSorted(le, s[1..], x);
        InsertContents(le, s[1..], x);
        forall j | 0 <= j < |rest| ensures le(s[0], rest[j]) {
          assert rest[j] in multiset(rest);
          assert rest[j] == x || rest[j] in s[1..];
        }
      } else {
        assert le(x, s[0]);
        assert forall j :: 0 <= j < |s| ==> le(x, s[j]);
      }
    }
  }

  lemma {:induction false} SortContents<T>(le: (T, T) -> bool, s: seq<T>)
    ensures multiset(Sort(le, s)) == multiset(s)
    ensures |Sort(le, s)| == |s|
    ensures forall x :: x in Sort(le, s) <==> x in s
  {
    if s != [] {
      var k := |s| - 1;
      SortContents(le, s[..k]);
      InsertContents(le, Sort(le, s[..k]), s[k]);
      assert s == s[..k] + [s[k]];
    }
    assert forall x :: x in Sort(le, s) <==> x in multiset(Sort(le, s));
    assert forall x :: x in s <==> x in multiset(s);
  }

  lemma {:induction false} SortSorted<T(!new)>(le: (T, T) -> bool, s: seq<T>)
    requires Preorder(le)
    ensures Sorted(le, Sort(le, s))
  {
    if s != [] {
      SortSorted(le, s[..|s| - 1]);
      InsertSorted(le, Sort(le, s[..|s| - 1]), s[|s| - 1]);
    }
  }

  /** Sorting what is sorted changes nothing. */
  lemma {:induction false} SortFixed<T>(le: (T, T) -> bool, s: seq<T>)
    requires Sorted(le, s)
    ensures Sort(le, s) == s
  {
    if s != [] {
      SortFixed(le, s[..|s| - 1]);
      InsertLast(le, s[..|s| - 1], s[|s| - 1]);
    }
  }

  lemma {:induction false} InsertLast<T>(le: (T, T) -> bool, s: seq<T>, x: T)
    requires forall i :: 0 <= i < |s| ==> le(s[i], x)
    ensures Insert(le, s, x) == s + [x]
  {
    if s != [] {
      InsertLast(le, s[1..], x);
    }
  }

  /** A list in strict order is determined by its elements. */
  ghost predicate StrictlySorted<T>(lt: (T, T) -> bool, s: seq<T>) {
    forall i, j :: 0 <= i < j < |s| ==> lt(s[i], s[j])
  }

  lemma {:induction false} SameElements<T(!new)>(lt: (T, T) -> bool, a: seq<T>, b: seq<T>)
    requires forall x, y :: !(lt(x, y) && lt(y, x))
    requires StrictlySorted(lt, a) && StrictlySorted(lt, b)
    requires forall x :: x in a <==> x in b
    ensures a == b
  {
    HeadMember(a);
    HeadMember(b);
    if a != [] && b != [] {
      forall x ensures x in a[1..] <==> x in b[1..] {
        TailMember(lt, a, x);
        TailMember(lt, b, x);
      }
      SameElements(lt, a[1..], b[1..]);
      assert a == [a[0]] + a[1..] && b == [b[0]] + b[1..];
    }
  }

  lemma HeadMember<T>(s: seq<T>)
    ensures s != [] ==> s[0] in s
  {
  }

  lemma TailMember<T(!new)>(lt: (T, T) -> bool, s: seq<T>, x: T)
    requires forall x, y :: !(lt(x, y) && lt(y, x))
    requires StrictlySorted(lt, s) && s != []
    ensures x in s[1..] <==> x in s && x != s[0]
  {
    if x in s && x != s[0] {
      var i :| 0 <= i < |s| && s[i] == x;
      assert s[1..][i - 1] == x;
    }
    if x in s[1..] {
      var i :| 0 <= i < |s| - 1 && s[1..][i] == x;
      assert s[i + 1] == x && lt(s[0], s[i + 1]);
      assert !lt(x, x);
    }
  }
}
