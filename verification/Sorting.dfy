/** Stable sorting and selection by key, the two list operations behind the
    Loki client (`sorted(..., key=...)` and grouping into a dictionary). */
module Sorting {

  /** The elements of `s` whose key is `k`, in order. */
  function WithKey<T, K(==)>(s: seq<T>, key: T -> K, k: K): (r: seq<T>)
    ensures |r| <= |s|
    ensures forall x :: x in r ==> x in s && key(x) == k
  {
    if s == [] then []
    else
      var front := WithKey(s[..|s| - 1], key, k);
      if key(s[|s| - 1]) == k then front + [s[|s| - 1]] else front
  }

  lemma WithKeyGrows<T, K>(s: seq<T>, n: nat, key: T -> K, k: K)
    requires n < |s|
    ensures WithKey(s[..n + 1], key, k) == WithKey(s[..n], key, k) + if key(s[n]) == k then [s[n]] else []
  {
    assert s[..n + 1][..n] == s[..n];
  }

  lemma WithKeyOfLast<T, K>(s: seq<T>, x: T, key: T -> K, k: K)
    ensures WithKey(s + [x], key, k) == WithKey(s, key, k) + if key(x) == k then [x] else []
  {
    assert (s + [x])[..|s|] == s;
  }

  ghost predicate SortedBy<T>(s: seq<T>, key: T -> int) {
    forall i, j :: 0 <= i < j < |s| ==> key(s[i]) <= key(s[j])
  }

  /** `x` goes after every element whose key is no larger. */
  function Insert<T>(s: seq<T>, x: T, key: T -> int): (r: seq<T>)
    ensures |r| == |s| + 1
  {
    if s == [] || key(s[|s| - 1]) <= key(x) then s + [x]
    else Insert(s[..|s| - 1], x, key) + [s[|s| - 1]]
  }

  function StableSort<T>(s: seq<T>, key: T -> int): (r: seq<T>)
    ensures |r| == |s|
  {
    if s == [] then [] else Insert(StableSort(s[..|s| - 1], key), s[|s| - 1], key)
  }

  /** Both lists have the same elements under every key, in the same order. */
  ghost predicate SameByKey<T(!new)>(a: seq<T>, b: seq<T>, key: T -> int) {
    forall k :: WithKey(a, key, k) == WithKey(b, key, k)
  }

  /** What makes a list the stable sort of another one. */
  ghost predicate IsStableSortOf<T(!new)>(r: seq<T>, s: seq<T>, key: T -> int) {
    SortedBy(r, key) && SameByKey(r, s, key)
  }

  lemma {:induction false} InsertKeepsElements<T>(s: seq<T>, x: T, key: T -> int)
    ensures multiset(Insert(s, x, key)) == multiset(s) + multiset{x}
  {
    if s == [] || key(s[|s| - 1]) <= key(x) {
    } else {
      InsertKeepsElements(s[..|s| - 1], x, key);
      assert s == s[..|s| - 1] + [s[|s| - 1]];
    }
  }

  lemma {:induction false} SortPermutes<T>(s: seq<T>, key: T -> int)
    ensures multiset(StableSort(s, key)) == multiset(s)
  {
    if s != [] {
      SortPermutes(s[..|s| - 1], key);
      InsertKeepsElements(StableSort(s[..|s| - 1], key), s[|s| - 1], key);
      assert s == s[..|s| - 1] + [s[|s| - 1]];
    }
  }

  lemma {:induction false} InsertSorts<T>(s: seq<T>, x: T, key: T -> int)
    requires SortedBy(s, key)
    ensures SortedBy(Insert(s, x, key), key)
    ensures forall y :: y in Insert(s, x, key) ==> y in s || y == x
  {
    if s == [] || key(s[|s| - 1]) <= key(x) {
    } else {
      var front, last := s[..|s| - 1], s[|s| - 1];
      InsertSorts(front, x, key);
      forall y | y in Insert(front, x, key) ensures key(y) <= key(last) && (y in s || y == x) {
        assert y in front ==> y in s;
      }
    }
  }

  lemma {:induction false} InsertIsStable<T>(s: seq<T>, x: T, key: T -> int, k: int)
    requires SortedBy(s, key)
    ensures WithKey(Insert(s, x, key), key, k) == WithKey(s + [x], key, k)
  {
    if s == [] || key(s[|s| - 1]) <= key(x) {
    } else {
      var front, last := s[..|s| - 1], s[|s| - 1];
      assert s == front + [last];
      InsertIsStable(front, x, key, k);
      WithKeyOfLast(Insert(front, x, key), last, key, k);
      WithKeyOfLast(front, last, key, k);
      WithKeyOfLast(front, x, key, k);
      WithKeyOfLast(s, x, key, k);
    }
  }

  lemma {:induction false} SortSorts<T>(s: seq<T>, key: T -> int)
    ensures SortedBy(StableSort(s, key), key)
  {
    if s != [] {
      SortSorts(s[..|s| - 1], key);
      InsertSorts(StableSort(s[..|s| - 1], key), s[|s| - 1], key);
    }
  }

  lemma {:induction false} SortIsStable<T>(s: seq<T>, key: T -> int, k: int)
    ensures WithKey(StableSort(s, key), key, k) == WithKey(s, key, k)
  {
    if s != [] {
      var front := s[..|s| - 1];
      SortIsStable(front, key, k);
      SortSorts(front, key);
      InsertIsStable(StableSort(front, key), s[|s| - 1], key, k);
      var r := StableSort(front, key) + [s[|s| - 1]];
      assert r[..|r| - 1] == StableSort(front, key);
    }
  }

  lemma {:induction false} KeysAppear<T, K>(s: seq<T>, key: T -> K, i: nat)
    requires i < |s|
    ensures s[i] in WithKey(s, key, key(s[i]))
  {
    if i < |s| - 1 {
      KeysAppear(s[..|s| - 1], key, i);
    }
  }

  /** The largest key of the one list is reached by the other. */
  lemma LastKeyIsReached<T(!new)>(a: seq<T>, b: seq<T>, key: T -> int)
    requires a != [] && SortedBy(b, key)
    requires SameByKey(a, b, key)
    ensures b != [] && key(a[|a| - 1]) <= key(b[|b| - 1])
  {
    var x := a[|a| - 1];
    KeysAppear(a, key, |a| - 1);
    assert x in WithKey(b, key, key(x));
    assert x in b;
  }

  lemma LastsAgree<T>(a: seq<T>, b: seq<T>, key: T -> int)
    requires a != [] && b != [] && key(a[|a| - 1]) == key(b[|b| - 1])
    requires WithKey(a, key, key(a[|a| - 1])) == WithKey(b, key, key(a[|a| - 1]))
    ensures a[|a| - 1] == b[|b| - 1]
  {
    var k := key(a[|a| - 1]);
    assert WithKey(a, key, k) == WithKey(a[..|a| - 1], key, k) + [a[|a| - 1]];
    assert WithKey(b, key, k) == WithKey(b[..|b| - 1], key, k) + [b[|b| - 1]];
    assert WithKey(a, key, k)[|WithKey(a, key, k)| - 1] == WithKey(b, key, k)[|WithKey(b, key, k)| - 1];
  }

  lemma FrontsAgree<T>(a: seq<T>, b: seq<T>, key: T -> int, k: int)
    requires a != [] && b != [] && a[|a| - 1] == b[|b| - 1]
    requires WithKey(a, key, k) == WithKey(b, key, k)
    ensures WithKey(a[..|a| - 1], key, k) == WithKey(b[..|b| - 1], key, k)
  {
    if key(a[|a| - 1]) == k {
      assert WithKey(a, key, k)[..|WithKey(a, key, k)| - 1] == WithKey(a[..|a| - 1], key, k);
      assert WithKey(b, key, k)[..|WithKey(b, key, k)| - 1] == WithKey(b[..|b| - 1], key, k);
    }
  }

  lemma DropLast<T(!new)>(a: seq<T>, b: seq<T>, key: T -> int)
    requires a != [] && b != [] && key(a[|a| - 1]) == key(b[|b| - 1])
    requires SameByKey(a, b, key)
    ensures a[|a| - 1] == b[|b| - 1]
    ensures SameByKey(a[..|a| - 1], b[..|b| - 1], key)
  {
    LastsAgree(a, b, key);
    var frontA, frontB := a[..|a| - 1], b[..|b| - 1];
    forall k ensures WithKey(frontA, key, k) == WithKey(frontB, key, k) {
      FrontsAgree(a, b, key, k);
    }
  }

  /** There is only one stable sort, so the two conditions define it. */
  lemma {:induction false} StableSortIsUnique<T(!new)>(a: seq<T>, b: seq<T>, key: T -> int)
    requires SortedBy(a, key) && SortedBy(b, key)
    requires SameByKey(a, b, key)
    ensures a == b
    decreases |a|
  {
    if a == [] {
      if b != [] {
        LastKeyIsReached(b, a, key);
      }
    } else {
      LastKeyIsReached(a, b, key);
      LastKeyIsReached(b, a, key);
      DropLast(a, b, key);
      StableSortIsUnique(a[..|a| - 1], b[..|b| - 1], key);
      assert a == a[..|a| - 1] + [a[|a| - 1]] && b == b[..|b| - 1] + [b[|b| - 1]];
    }
  }

  /** `StableSort` is the stable sort. */
  lemma SortIsTheStableSort<T(!new)>(s: seq<T>, key: T -> int, r: seq<T>)
    ensures r == StableSort(s, key) <==> IsStableSortOf(r, s, key)
  {
    SortSorts(s, key);
    forall k ensures WithKey(StableSort(s, key), key, k) == WithKey(s, key, k) {
      SortIsStable(s, key, k);
    }
    if IsStableSortOf(r, s, key) {
      StableSortIsUnique(r, StableSort(s, key), key);
    }
  }

  /** The last element of the one list, found in a permutation of it. */
  lemma RemoveOne<T>(a: seq<T>, b: seq<T>) returns (i: nat)
    requires a != [] && multiset(a) == multiset(b)
    ensures i < |b| && b[i] == a[|a| - 1]
    ensures multiset(a[..|a| - 1]) == multiset(b[..i] + b[i + 1..])
  {
    var last := a[|a| - 1];
    assert last in multiset(a);
    assert last in b;
    i :| 0 <= i < |b| && b[i] == last;
    assert a == a[..|a| - 1] + [last];
    assert b == b[..i] + [last] + b[i + 1..];
    assert multiset(a) == multiset(a[..|a| - 1]) + multiset{last};
    assert multiset(b) == multiset(b[..i]) + multiset{last} + multiset(b[i + 1..]);
    assert multiset(a[..|a| - 1]) == multiset(a) - multiset{last};
    assert multiset(b[..i] + b[i + 1..]) == multiset(b) - multiset{last};
  }
}
