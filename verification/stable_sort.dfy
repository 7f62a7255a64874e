/**
 * The stable sort that `Array.prototype.sort` performs with a consistent
 * comparator, for comparators that compare one integer key per element.
 * A comparator `(a, b) => cmp(k(a), k(b)) * d` with direction `d` in {1, -1}
 * is the comparator of the key `d * k`, so every row sort of the ledger page
 * is `SortBy(rows, key)` for some key.
 *
 * `SortBy` is the specification (an insertion sort written as a function);
 * `SortUnique` shows that it is the ONLY sorted arrangement that keeps the
 * relative order of elements with equal keys, so it is the result of any
 * stable sorting algorithm.  `SortInPlace` sorts an array in place to it.
 */
module StableSort {
  import opened Seqs

  /** Keys never decrease from left to right. */
  ghost predicate SortedBy<T>(s: seq<T>, key: T -> int) {
    forall i, j :: 0 <= i < j < |s| ==> key(s[i]) <= key(s[j])
  }

  /** The elements of `s` whose key is `v`, in their order in `s`. */
  function WithKey<T>(s: seq<T>, key: T -> int, v: int): seq<T>
  {
    if |s| == 0 then []
    else WithKey(s[..|s| - 1], key, v) + (if key(s[|s| - 1]) == v then [s[|s| - 1]] else [])
  }

  /** The key class `v` of `s` holds exactly the elements of `s` with key `v`. */
  lemma {:induction false} WithKeyMembers<T>(s: seq<T>, key: T -> int, v: int)
    ensures forall i :: 0 <= i < |WithKey(s, key, v)| ==> WithKey(s, key, v)[i] in s && key(WithKey(s, key, v)[i]) == v
    ensures forall i :: 0 <= i < |s| && key(s[i]) == v ==> s[i] in WithKey(s, key, v)
  {
    if |s| > 0 {
      var init := s[..|s| - 1];
      WithKeyMembers(init, key, v);
      assert s == init + [s[|s| - 1]];
    }
  }

  /** Stable: every key class keeps the relative order it had in `s`. */
  ghost predicate SameKeyOrder<T>(r: seq<T>, s: seq<T>, key: T -> int) {
    forall v :: WithKey(r, key, v) == WithKey(s, key, v)
  }

  /**
   * Inserts `x` after the last element of the sorted `s` whose key is at most
   * key(x): later elements with equal keys stay behind earlier ones.
   */
  function Insert<T>(s: seq<T>, x: T, key: T -> int): (r: seq<T>)
    ensures |r| == |s| + 1
    decreases |s|
  {
    if |s| == 0 || key(s[|s| - 1]) <= key(x) then s + [x]
    else Insert(s[..|s| - 1], x, key) + [s[|s| - 1]]
  }

  /** Insertion sort: the stable sort of `s` by `key`. */
  function SortBy<T>(s: seq<T>, key: T -> int): (r: seq<T>)
    ensures |r| == |s|
  {
    if |s| == 0 then []
    else Insert(SortBy(s[..|s| - 1], key), s[|s| - 1], key)
  }

  lemma {:induction false} InsertPermutes<T>(s: seq<T>, x: T, key: T -> int)
    ensures multiset(Insert(s, x, key)) == multiset(s) + multiset{x}
    decreases |s|
  {
    if |s| > 0 && key(s[|s| - 1]) > key(x) {
      InsertPermutes(s[..|s| - 1], x, key);
      assert s == s[..|s| - 1] + [s[|s| - 1]];
    }
  }

  /** SortBy rearranges `s`: the result is a permutation of it. */
  lemma {:induction false} SortByPermutes<T>(s: seq<T>, key: T -> int)
    ensures multiset(SortBy(s, key)) == multiset(s)
  {
    if |s| > 0 {
      SortByPermutes(s[..|s| - 1], key);
      InsertPermutes(SortBy(s[..|s| - 1], key), s[|s| - 1], key);
      assert s == s[..|s| - 1] + [s[|s| - 1]];
    }
  }

  lemma {:induction false} InsertSorted<T>(s: seq<T>, x: T, key: T -> int)
    requires SortedBy(s, key)
    ensures SortedBy(Insert(s, x, key), key)
    decreases |s|
  {
    if |s| == 0 || key(s[|s| - 1]) <= key(x) {
    } else {
      var init, last := s[..|s| - 1], s[|s| - 1];
      InsertSorted(init, x, key);
      var r := Insert(init, x, key);
      InsertPermutes(init, x, key);
      forall y | y in r ensures key(y) <= key(last) {
        assert y in multiset(r);
        assert y in multiset(init) || y == x;
      }
      forall i, j | 0 <= i < j < |r + [last]|
        ensures key((r + [last])[i]) <= key((r + [last])[j])
      {
        if j == |r| {
          assert (r + [last])[i] == r[i] && r[i] in r;
        }
      }
    }
  }

  /** The result of SortBy is ordered by key. */
  lemma {:induction false} SortBySorted<T>(s: seq<T>, key: T -> int)
    ensures SortedBy(SortBy(s, key), key)
  {
    if |s| > 0 {
      SortBySorted(s[..|s| - 1], key);
      InsertSorted(SortBy(s[..|s| - 1], key), s[|s| - 1], key);
    }
  }

  lemma WithKeySnoc<T>(s: seq<T>, x: T, key: T -> int, v: int)
    ensures WithKey(s + [x], key, v) == WithKey(s, key, v) + (if key(x) == v then [x] else [])
  {
    assert (s + [x])[..|s|] == s;
  }

  lemma {:induction false} InsertKeepsKeyOrder<T>(s: seq<T>, x: T, key: T -> int, v: int)
    ensures WithKey(Insert(s, x, key), key, v) == WithKey(s, key, v) + (if key(x) == v then [x] else [])
    decreases |s|
  {
    if |s| == 0 || key(s[|s| - 1]) <= key(x) {
      WithKeySnoc(s, x, key, v);
    } else {
      var init, last := s[..|s| - 1], s[|s| - 1];
      InsertKeepsKeyOrder(init, x, key, v);
      WithKeySnoc(Insert(init, x, key), last, key, v);
      WithKeySnoc(init, last, key, v);
      assert s == init + [last];
    }
  }

  /** SortBy is stable: equal keys keep their relative order. */
  lemma {:induction false} SortByStable<T>(s: seq<T>, key: T -> int)
    ensures SameKeyOrder(SortBy(s, key), s, key)
  {
    if |s| > 0 {
      var init, last := s[..|s| - 1], s[|s| - 1];
      SortByStable(init, key);
      forall v ensures WithKey(SortBy(s, key), key, v) == WithKey(s, key, v) {
        InsertKeepsKeyOrder(SortBy(init, key), last, key, v);
        WithKeySnoc(init, last, key, v);
        assert s == init + [last];
      }
    }
  }

  /** An element of `s` is in its own key class of `s`. */
  lemma InOwnKeyClass<T>(s: seq<T>, key: T -> int, i: int)
    requires 0 <= i < |s|
    ensures s[i] in WithKey(s, key, key(s[i]))
  {
    WithKeyMembers(s, key, key(s[i]));
  }

  /** Same key classes means same elements. */
  lemma SameKeyOrderMember<T>(r: seq<T>, s: seq<T>, key: T -> int, i: int)
    requires SameKeyOrder(r, s, key)
    requires 0 <= i < |s|
    ensures s[i] in r
  {
    var v := key(s[i]);
    InOwnKeyClass(s, key, i);
    assert WithKey(r, key, v) == WithKey(s, key, v);
    WithKeyMembers(r, key, v);
    var w := WithKey(r, key, v);
    var k :| 0 <= k < |w| && w[k] == s[i];
    assert w[k] in r;
  }

  lemma SnocInjective<T>(w1: seq<T>, l1: T, w2: seq<T>, l2: T)
    requires w1 + [l1] == w2 + [l2]
    ensures w1 == w2 && l1 == l2
  {
    assert |w1| == |w2|;
    assert (w1 + [l1])[|w1|] == l1;
    assert w1 == (w1 + [l1])[..|w1|];
  }

  /** Key class `v` of r1 + [l1] and r2 + [l2] agree, hence of r1 and r2 when `v` is not key(l1). */
  lemma SameKeyClassInit<T>(i1: seq<T>, l1: T, i2: seq<T>, l2: T, key: T -> int, v: int)
    requires key(l1) == key(l2)
    requires WithKey(i1 + [l1], key, v) == WithKey(i2 + [l2], key, v)
    ensures WithKey(i1, key, v) == WithKey(i2, key, v)
    ensures v == key(l1) ==> l1 == l2
  {
    WithKeySnoc(i1, l1, key, v);
    WithKeySnoc(i2, l2, key, v);
    var w1, w2 := WithKey(i1, key, v), WithKey(i2, key, v);
    if v == key(l1) {
      assert WithKey(i1 + [l1], key, v) == w1 + [l1];
      assert WithKey(i2 + [l2], key, v) == w2 + [l2];
      SnocInjective(w1, l1, w2, l2);
    } else {
      assert WithKey(i1 + [l1], key, v) == w1 + [] == w1;
      assert WithKey(i2 + [l2], key, v) == w2 + [] == w2;
    }
  }

  /** Removing the last elements of two arrangements with the same key classes. */
  lemma SameKeyOrderInit<T>(r1: seq<T>, r2: seq<T>, key: T -> int)
    requires |r1| > 0 && |r2| > 0
    requires key(r1[|r1| - 1]) == key(r2[|r2| - 1])
    requires SameKeyOrder(r1, r2, key)
    ensures r1[|r1| - 1] == r2[|r2| - 1]
    ensures SameKeyOrder(r1[..|r1| - 1], r2[..|r2| - 1], key)
  {
    var i1, l1 := r1[..|r1| - 1], r1[|r1| - 1];
    var i2, l2 := r2[..|r2| - 1], r2[|r2| - 1];
    assert r1 == i1 + [l1] && r2 == i2 + [l2];
    forall v ensures WithKey(i1, key, v) == WithKey(i2, key, v) {
      assert WithKey(r1, key, v) == WithKey(r2, key, v);
      SameKeyClassInit(i1, l1, i2, l2, key, v);
    }
    assert WithKey(r1, key, key(l1)) == WithKey(r2, key, key(l1));
    SameKeyClassInit(i1, l1, i2, l2, key, key(l1));
  }

  /** The last elements of two sorted arrangements with the same key classes have equal keys. */
  lemma LastKeysEqual<T>(r1: seq<T>, r2: seq<T>, key: T -> int)
    requires SortedBy(r1, key) && SortedBy(r2, key)
    requires SameKeyOrder(r1, r2, key)
    requires |r1| > 0 && |r2| > 0
    ensures key(r1[|r1| - 1]) == key(r2[|r2| - 1])
  {
    var n1, n2 := |r1| - 1, |r2| - 1;
    SameKeyOrderMember(r1, r2, key, n2);
    SameKeyOrderMember(r2, r1, key, n1);
    var k2 :| 0 <= k2 < |r1| && r1[k2] == r2[n2];
    var k1 :| 0 <= k1 < |r2| && r2[k1] == r1[n1];
    assert key(r1[k2]) <= key(r1[n1]);
    assert key(r2[k1]) <= key(r2[n2]);
  }

  lemma SortedInit<T>(r: seq<T>, key: T -> int)
    requires SortedBy(r, key) && |r| > 0
    ensures SortedBy(r[..|r| - 1], key)
  {
  }

  lemma {:induction false} SortedSameKeyOrderEqual<T>(r1: seq<T>, r2: seq<T>, key: T -> int)
    requires SortedBy(r1, key) && SortedBy(r2, key)
    requires SameKeyOrder(r1, r2, key)
    ensures r1 == r2
    decreases |r1|
  {
    if |r1| == 0 {
      if |r2| > 0 {
        SameKeyOrderMember(r1, r2, key, 0);
      }
    } else if |r2| == 0 {
      SameKeyOrderMember(r2, r1, key, 0);
    } else {
      var n1, n2 := |r1| - 1, |r2| - 1;
      LastKeysEqual(r1, r2, key);
      SameKeyOrderInit(r1, r2, key);
      SortedInit(r1, key);
      SortedInit(r2, key);
      SortedSameKeyOrderEqual(r1[..n1], r2[..n2], key);
      assert r1 == r1[..n1] + [r1[n1]] && r2 == r2[..n2] + [r2[n2]];
    }
  }

  /**
   * Any arrangement that is ordered by key and keeps each key class in its
   * original order is SortBy: a stable sort has exactly one possible result.
   */
  lemma SortUnique<T>(s: seq<T>, r: seq<T>, key: T -> int)
    requires SortedBy(r, key)
    requires SameKeyOrder(r, s, key)
    ensures r == SortBy(s, key)
  {
    SortBySorted(s, key);
    SortByStable(s, key);
    SortedSameKeyOrderEqual(r, SortBy(s, key), key);
  }

  /** Sorting what is already sorted changes nothing. */
  lemma SortBySortedIsIdentity<T>(s: seq<T>, key: T -> int)
    requires SortedBy(s, key)
    ensures SortBy(s, key) == s
  {
    SortUnique(s, s, key);
  }

  /** Filtering and taking a key class commute: both keep elements in their order. */
  lemma {:induction false} WithKeyFilter<T>(s: seq<T>, p: T -> bool, key: T -> int, v: int)
    ensures WithKey(Filter(s, p), key, v) == Filter(WithKey(s, key, v), p)
  {
    if |s| > 0 {
      var init, x := s[..|s| - 1], s[|s| - 1];
      WithKeyFilter(init, p, key, v);
      if p(x) {
        WithKeySnoc(Filter(init, p), x, key, v);
      } else {
        assert Filter(s, p) == Filter(init, p);
      }
      if key(x) == v {
        assert WithKey(s, key, v) == WithKey(init, key, v) + [x];
        FilterConcat(WithKey(init, key, v), [x], p);
        assert [x][..0] == [];
      } else {
        assert WithKey(s, key, v) == WithKey(init, key, v);
      }
    }
  }

  /** A bound on the keys of `s` bounds the keys of what filtering keeps. */
  lemma {:induction false} FilterBound<T>(s: seq<T>, p: T -> bool, key: T -> int, b: int)
    requires forall i :: 0 <= i < |s| ==> key(s[i]) <= b
    ensures forall k :: 0 <= k < |Filter(s, p)| ==> key(Filter(s, p)[k]) <= b
  {
    if |s| > 0 {
      FilterBound(s[..|s| - 1], p, key, b);
    }
  }

  /** What is left of a sorted sequence after filtering is still sorted. */
  lemma {:induction false} FilterSorted<T>(s: seq<T>, p: T -> bool, key: T -> int)
    requires SortedBy(s, key)
    ensures SortedBy(Filter(s, p), key)
  {
    if |s| > 0 {
      var init, x := s[..|s| - 1], s[|s| - 1];
      FilterSorted(init, p, key);
      FilterBound(init, p, key, key(x));
    }
  }

  /**
   * A stable sort commutes with a filter: sorting the kept elements gives
   * the kept elements of the sorted sequence.
   */
  lemma SortByFilter<T>(s: seq<T>, p: T -> bool, key: T -> int)
    ensures SortBy(Filter(s, p), key) == Filter(SortBy(s, key), p)
  {
    var r := Filter(SortBy(s, key), p);
    SortBySorted(s, key);
    FilterSorted(SortBy(s, key), p, key);
    SortByStable(s, key);
    forall v ensures WithKey(r, key, v) == WithKey(Filter(s, p), key, v) {
      WithKeyFilter(SortBy(s, key), p, key, v);
      WithKeyFilter(s, p, key, v);
    }
    SortUnique(Filter(s, p), r, key);
  }

  /**
   * Where insertion puts `x`: behind the last element of `sorted` whose key
   * is at most key(x), when all elements from `j` on have larger keys.
   */
  lemma {:induction false} InsertAt<T>(sorted: seq<T>, j: int, x: T, key: T -> int)
    requires 0 <= j <= |sorted|
    requires j == 0 || key(sorted[j - 1]) <= key(x)
    requires forall k :: j <= k < |sorted| ==> key(sorted[k]) > key(x)
    ensures Insert(sorted, x, key) == sorted[..j] + [x] + sorted[j..]
    decreases |sorted|
  {
    if j < |sorted| {
      var init := sorted[..|sorted| - 1];
      InsertAt(init, j, x, key);
      assert init[..j] == sorted[..j];
      assert sorted[j..] == init[j..] + [sorted[|sorted| - 1]];
    }
  }

  /**
   * One insertion step: the sorted prefix a[..i] receives a[i], shifting the
   * elements with a larger key one place to the right.
   */
  method InsertInPlace<T>(a: array<T>, i: int, key: T -> int)
    requires 0 <= i < a.Length
    modifies a
    ensures a[..i + 1] == Insert(old(a[..i]), old(a[i]), key)
    ensures a[i + 1..] == old(a[i + 1..])
  {
    ghost var sorted := a[..i];
    var x := a[i];
    var j := i;
    while j > 0 && key(a[j - 1]) > key(x)
      invariant 0 <= j <= i
      invariant forall k :: 0 <= k < j ==> a[k] == sorted[k]
      invariant forall k :: j < k <= i ==> a[k] == sorted[k - 1]
      invariant forall k :: i < k < a.Length ==> a[k] == old(a[k])
      invariant forall k :: j <= k < i ==> key(sorted[k]) > key(x)
    {
      a[j] := a[j - 1];
      j := j - 1;
    }
    InsertAt(sorted, j, x, key);
    a[j] := x;
    assert a[..i + 1] == sorted[..j] + [x] + sorted[j..];
  }

  /** Sorts `a` in place, stably, by `key` (an insertion sort). */
  method SortInPlace<T>(a: array<T>, key: T -> int)
    modifies a
    ensures a[..] == SortBy(old(a[..]), key)
  {
    ghost var orig := a[..];
    var i := 0;
    while i < a.Length
      invariant 0 <= i <= a.Length
      invariant a[..i] == SortBy(orig[..i], key)
      invariant a[i..] == orig[i..]
    {
      assert a[i] == orig[i];
      InsertInPlace(a, i, key);
      assert orig[..i + 1] == orig[..i] + [orig[i]];
      i := i + 1;
    }
    assert orig[..a.Length] == orig;
  }
}
