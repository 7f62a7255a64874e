/**
 * Sequence helpers behind the page's use of `new Set(...)` and of the
 * insertion order of object keys: both keep each distinct value once, at the
 * place where it was first seen.
 */
module Seqs {
  import opened Wrappers

  /** No value occurs twice. */
  ghost predicate Distinct<T>(s: seq<T>) {
    forall i, j :: 0 <= i < j < |s| ==> s[i] != s[j]
  }

  /** The position of the first occurrence of `x` in `s`. */
  function IndexOf<T(==)>(s: seq<T>, x: T): (k: nat)
    requires x in s
    ensures k < |s| && s[k] == x
    ensures forall i :: 0 <= i < k ==> s[i] != x
  {
    if s[0] == x then 0 else 1 + IndexOf(s[1..], x)
  }

  /**
   * The distinct values of `s` in order of first appearance: what
   * `Array.from(new Set(s))` gives, and the key order of an object whose keys
   * are added in the order of `s`.
   */
  function FirstSeen<T(==)>(s: seq<T>): (r: seq<T>)
    ensures |r| <= |s|
  {
    if |s| == 0 then []
    else
      var r := FirstSeen(s[..|s| - 1]);
      if s[|s| - 1] in r then r else r + [s[|s| - 1]]
  }

  /** One more value is kept when it is new. */
  lemma FirstSeenSnoc<T>(s: seq<T>, x: T)
    ensures FirstSeen(s + [x]) == if x in FirstSeen(s) then FirstSeen(s) else FirstSeen(s) + [x]
  {
    assert (s + [x])[..|s|] == s;
  }

  /** FirstSeen keeps exactly the values of `s`. */
  lemma {:induction false} FirstSeenMembers<T>(s: seq<T>)
    ensures forall i :: 0 <= i < |FirstSeen(s)| ==> FirstSeen(s)[i] in s
    ensures forall i :: 0 <= i < |s| ==> s[i] in FirstSeen(s)
  {
    if |s| > 0 {
      var init := s[..|s| - 1];
      FirstSeenMembers(init);
      assert s == init + [s[|s| - 1]];
      forall i | 0 <= i < |s| ensures s[i] in FirstSeen(s) {
        if i < |s| - 1 {
          assert s[i] == init[i];
        }
      }
    }
  }

  /** FirstSeen holds each value once. */
  lemma {:induction false} FirstSeenDistinct<T>(s: seq<T>)
    ensures Distinct(FirstSeen(s))
  {
    if |s| > 0 {
      FirstSeenDistinct(s[..|s| - 1]);
    }
  }

  /** First occurrences do not move when values are appended. */
  lemma {:induction false} IndexOfPrefix<T>(s: seq<T>, t: seq<T>, x: T)
    requires x in s
    ensures x in s + t && IndexOf(s + t, x) == IndexOf(s, x)
  {
    if s[0] != x {
      assert (s + t)[1..] == s[1..] + t;
      IndexOfPrefix(s[1..], t, x);
    }
  }

  /** The position of a value that is not in `s` is after all of `s`. */
  lemma IndexOfNew<T>(s: seq<T>, x: T)
    requires x !in s
    ensures x in s + [x] && IndexOf(s + [x], x) == |s|
  {
  }

  /** FirstSeen holds the values of `s` and no other. */
  lemma FirstSeenHas<T>(s: seq<T>, x: T)
    ensures x in FirstSeen(s) <==> x in s
  {
    FirstSeenMembers(s);
    if x in FirstSeen(s) {
      var k :| 0 <= k < |FirstSeen(s)| && FirstSeen(s)[k] == x;
    }
  }

  /** FirstSeen lists the values in the order in which they first appear in `s`. */
  lemma {:induction false} FirstSeenOrder<T>(s: seq<T>)
    ensures forall i, j :: 0 <= i < j < |FirstSeen(s)| ==>
      FirstSeen(s)[i] in s && FirstSeen(s)[j] in s &&
      IndexOf(s, FirstSeen(s)[i]) < IndexOf(s, FirstSeen(s)[j])
  {
    FirstSeenMembers(s);
    if |s| > 0 {
      var init, last := s[..|s| - 1], s[|s| - 1];
      var r, r' := FirstSeen(init), FirstSeen(s);
      FirstSeenOrder(init);
      FirstSeenMembers(init);
      assert s == init + [last];
      forall i, j | 0 <= i < j < |r'|
        ensures IndexOf(s, r'[i]) < IndexOf(s, r'[j])
      {
        assert r'[i] == r[i] && r[i] in init;
        IndexOfPrefix(init, [last], r[i]);
        if j < |r| {
          assert r'[j] == r[j] && r[j] in init;
          IndexOfPrefix(init, [last], r[j]);
        } else {
          assert r'[j] == last && last !in r;
          assert last !in init;
          IndexOfNew(init, last);
        }
      }
    }
  }

  /** The first value of `s` that satisfies `p`, if any. */
  function FirstWhere<T(==)>(s: seq<T>, p: T -> bool): (r: Option<T>)
    ensures r.None? <==> forall i :: 0 <= i < |s| ==> !p(s[i])
    ensures r.Some? ==> exists k :: (0 <= k < |s| && s[k] == r.value && p(r.value) &&
                                     forall j :: 0 <= j < k ==> !p(s[j]))
  {
    if |s| == 0 then None
    else if p(s[0]) then Some(s[0])
    else
      var r := FirstWhere(s[1..], p);
      if r.Some? then
        var k :| 0 <= k < |s[1..]| && s[1..][k] == r.value && p(r.value) && forall j :: 0 <= j < k ==> !p(s[1..][j]);
        assert s[k + 1] == r.value;
        r
      else r
  }

  /** A value that satisfies `p` with none before it is the first such value. */
  lemma {:induction false} FirstWhereAt<T>(s: seq<T>, p: T -> bool, k: int)
    requires 0 <= k < |s| && p(s[k])
    requires forall j :: 0 <= j < k ==> !p(s[j])
    ensures FirstWhere(s, p) == Some(s[k])
  {
    if k > 0 {
      FirstWhereAt(s[1..], p, k - 1);
    }
  }

  /** Dropping repeated values does not change which value is the first to satisfy `p`. */
  lemma FirstWhereFirstSeen<T>(s: seq<T>, p: T -> bool)
    ensures FirstWhere(FirstSeen(s), p) == FirstWhere(s, p)
  {
    var r := FirstSeen(s);
    FirstSeenMembers(s);
    if FirstWhere(s, p).Some? {
      var x := FirstWhere(s, p).value;
      var k :| 0 <= k < |s| && s[k] == x && p(x) && forall j :: 0 <= j < k ==> !p(s[j]);
      assert IndexOf(s, x) == k;
      var l :| 0 <= l < |r| && r[l] == x;
      FirstSeenOrder(s);
      forall j | 0 <= j < l ensures !p(r[j]) {
        assert IndexOf(s, r[j]) < k;
      }
      FirstWhereAt(r, p, l);
    } else {
      forall i | 0 <= i < |r| ensures !p(r[i]) {
        var j :| 0 <= j < |s| && s[j] == r[i];
      }
    }
  }

  /** `s.filter(p)`: the elements that satisfy `p`, in their order. */
  function Filter<T>(s: seq<T>, p: T -> bool): (r: seq<T>)
    ensures |r| <= |s|
  {
    if |s| == 0 then []
    else Filter(s[..|s| - 1], p) + (if p(s[|s| - 1]) then [s[|s| - 1]] else [])
  }

  /** Filtering a concatenation filters each part: the kept elements stay in order. */
  lemma {:induction false} FilterConcat<T>(a: seq<T>, b: seq<T>, p: T -> bool)
    ensures Filter(a + b, p) == Filter(a, p) + Filter(b, p)
  {
    if |b| == 0 {
      assert a + b == a;
    } else {
      FilterConcat(a, b[..|b| - 1], p);
      assert (a + b)[..|a + b| - 1] == a + b[..|b| - 1];
    }
  }

  /** Each element that satisfies `p` is kept as often as it occurs; no other element is kept. */
  lemma {:induction false} FilterMultiset<T>(s: seq<T>, p: T -> bool)
    ensures forall x :: multiset(Filter(s, p))[x] == if p(x) then multiset(s)[x] else 0
  {
    if |s| > 0 {
      FilterMultiset(s[..|s| - 1], p);
      assert s == s[..|s| - 1] + [s[|s| - 1]];
    }
  }
}
