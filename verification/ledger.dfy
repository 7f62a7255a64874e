/**
 * The stored entries the page fetches (`/entries` and `/hist_data` both
 * return every row of the entries table) and the sums the page forms over
 * them: per month, and per month and category.
 */
module Ledger {
  import opened Seqs
  import opened Dates

  /**
   * One entry. `amount` is in cents; `category` is whatever key was stored,
   * configured or not.
   */
  datatype Entry = Entry(id: int, date: Date, amount: int, description: string, category: string)

  /** The month key of every entry, in order (`monthKey` of each iteration). */
  function MonthKeys(data: seq<Entry>): (ks: seq<string>)
    ensures |ks| == |data|
  {
    if |data| == 0 then [] else MonthKeys(data[..|data| - 1]) + [MonthKey(data[|data| - 1].date)]
  }

  /** `data.map(entry => entry.category)`. */
  function CategoriesOf(data: seq<Entry>): (cs: seq<string>)
    ensures |cs| == |data|
  {
    if |data| == 0 then [] else CategoriesOf(data[..|data| - 1]) + [data[|data| - 1].category]
  }

  /** Each entry's month key sits at the entry's position. */
  lemma {:induction false} MonthKeysAt(data: seq<Entry>)
    ensures forall i :: 0 <= i < |data| ==> MonthKeys(data)[i] == MonthKey(data[i].date)
  {
    if |data| > 0 {
      MonthKeysAt(data[..|data| - 1]);
    }
  }

  /** The month of every entry is among the month keys. */
  lemma MonthKeysMembers(data: seq<Entry>, e: Entry)
    requires e in data
    ensures MonthKey(e.date) in MonthKeys(data)
  {
    MonthKeysAt(data);
    var i :| 0 <= i < |data| && data[i] == e;
    assert MonthKeys(data)[i] == MonthKey(e.date);
  }

  /** The month keys are the months of the entries. */
  lemma MonthKeysHas(data: seq<Entry>, m: string)
    ensures m in MonthKeys(data) <==> exists i :: 0 <= i < |data| && MonthKey(data[i].date) == m
  {
    MonthKeysAt(data);
    if m in MonthKeys(data) {
      var i :| 0 <= i < |data| && MonthKeys(data)[i] == m;
      assert MonthKey(data[i].date) == m;
    }
  }

  /** Each entry's category sits at the entry's position. */
  lemma {:induction false} CategoriesAt(data: seq<Entry>)
    ensures forall i :: 0 <= i < |data| ==> CategoriesOf(data)[i] == data[i].category
  {
    if |data| > 0 {
      CategoriesAt(data[..|data| - 1]);
    }
  }

  /** The category list holds the categories of the entries. */
  lemma CategoriesHas(data: seq<Entry>, c: string)
    ensures c in CategoriesOf(data) <==> exists i :: 0 <= i < |data| && data[i].category == c
  {
    CategoriesAt(data);
    if c in CategoriesOf(data) {
      var i :| 0 <= i < |data| && CategoriesOf(data)[i] == c;
      assert data[i].category == c;
    }
  }

  /** Whether an entry falls in month `m`. */
  function InMonth(m: string): Entry -> bool {
    (e: Entry) => MonthKey(e.date) == m
  }

  /** Whether an entry falls in month `m` and category `c`. */
  function InCell(m: string, c: string): Entry -> bool {
    (e: Entry) => MonthKey(e.date) == m && e.category == c
  }

  /** The sum of the amounts of the entries that satisfy `p`. */
  function SumWhere(data: seq<Entry>, p: Entry -> bool): int {
    if |data| == 0 then 0
    else SumWhere(data[..|data| - 1], p) + (if p(data[|data| - 1]) then data[|data| - 1].amount else 0)
  }

  /** The total of month `m`. */
  function MonthSum(data: seq<Entry>, m: string): int {
    SumWhere(data, InMonth(m))
  }

  /** The total of month `m` in category `c`. */
  function CellSum(data: seq<Entry>, m: string, c: string): int {
    SumWhere(data, InCell(m, c))
  }

  /** Some entry falls in month `m` and category `c`. */
  ghost predicate Recorded(data: seq<Entry>, m: string, c: string) {
    exists e :: e in data && MonthKey(e.date) == m && e.category == c
  }

  /** Sums over two parts add up. */
  lemma {:induction false} SumWhereConcat(a: seq<Entry>, b: seq<Entry>, p: Entry -> bool)
    ensures SumWhere(a + b, p) == SumWhere(a, p) + SumWhere(b, p)
  {
    if |b| > 0 {
      var init := b[..|b| - 1];
      SumWhereConcat(a, init, p);
      assert (a + b)[..|a + b| - 1] == a + init;
      assert (a + b)[|a + b| - 1] == b[|b| - 1];
    } else {
      assert a + b == a;
    }
  }

  /** Taking the same value out of two permutations of each other leaves permutations. */
  lemma RemoveMatching(s: seq<Entry>, t: seq<Entry>, k: int)
    requires multiset(s) == multiset(t) && |s| > 0
    requires 0 <= k < |t| && t[k] == s[|s| - 1]
    ensures multiset(s[..|s| - 1]) == multiset(t[..k] + t[k + 1..])
  {
    var x := s[|s| - 1];
    assert s == s[..|s| - 1] + [x];
    assert t == t[..k] + [x] + t[k + 1..];
    assert multiset(t) == multiset(t[..k]) + multiset{x} + multiset(t[k + 1..]);
    assert multiset(s) == multiset(s[..|s| - 1]) + multiset{x};
    var a, b := multiset(s[..|s| - 1]), multiset(t[..k] + t[k + 1..]);
    assert b == multiset(t[..k]) + multiset(t[k + 1..]);
    forall y ensures a[y] == b[y] {
      assert multiset(s)[y] == a[y] + multiset{x}[y];
      assert multiset(t)[y] == b[y] + multiset{x}[y];
    }
    assert a == b;
  }

  /** A sum does not depend on the order of the entries: only their multiset counts. */
  lemma {:induction false} SumWherePermutation(s: seq<Entry>, t: seq<Entry>, p: Entry -> bool)
    requires multiset(s) == multiset(t)
    ensures SumWhere(s, p) == SumWhere(t, p)
  {
    if |s| > 0 {
      var init, x := s[..|s| - 1], s[|s| - 1];
      assert x in multiset(s);
      var k :| 0 <= k < |t| && t[k] == x;
      var t1, t2 := t[..k], t[k + 1..];
      RemoveMatching(s, t, k);
      SumWherePermutation(init, t1 + t2, p);
      SumWhereConcat(t1, t2, p);
      SumWhereConcat(t1 + [x], t2, p);
      SumWhereConcat(t1, [x], p);
      assert t == t1 + [x] + t2;
      assert SumWhere([x], p) == (if p(x) then x.amount else 0) by {
        assert [x][..0] == [];
      }
    } else {
      assert |t| == 0;
    }
  }

  /** No entry satisfies `p`: the sum is zero. */
  lemma {:induction false} SumWhereNone(data: seq<Entry>, p: Entry -> bool)
    requires forall i :: 0 <= i < |data| ==> !p(data[i])
    ensures SumWhere(data, p) == 0
  {
    if |data| > 0 {
      SumWhereNone(data[..|data| - 1], p);
    }
  }

  /** The month and cell totals depend only on which entries there are, not on their order. */
  lemma TotalsOrderIndependent(s: seq<Entry>, t: seq<Entry>, m: string, c: string)
    requires multiset(s) == multiset(t)
    ensures MonthSum(s, m) == MonthSum(t, m)
    ensures CellSum(s, m, c) == CellSum(t, m, c)
  {
    SumWherePermutation(s, t, InMonth(m));
    SumWherePermutation(s, t, InCell(m, c));
  }

  /** A cell in which no entry was recorded sums to zero. */
  lemma CellSumUnrecorded(data: seq<Entry>, m: string, c: string)
    requires !Recorded(data, m, c)
    ensures CellSum(data, m, c) == 0
  {
    forall i | 0 <= i < |data| ensures !InCell(m, c)(data[i]) {
      assert data[i] in data;
    }
    SumWhereNone(data, InCell(m, c));
  }

  /** One more entry adds its amount to its own month. */
  lemma MonthSumSnoc(data: seq<Entry>, e: Entry, m: string)
    ensures MonthSum(data + [e], m) == MonthSum(data, m) + (if MonthKey(e.date) == m then e.amount else 0)
  {
    assert (data + [e])[..|data|] == data;
  }

  /** One more entry adds its amount to its own cell and to no other. */
  lemma CellSumSnoc(data: seq<Entry>, e: Entry, m: string, c: string)
    ensures CellSum(data + [e], m, c) == CellSum(data, m, c) + (if MonthKey(e.date) == m && e.category == c then e.amount else 0)
  {
    assert (data + [e])[..|data|] == data;
  }

  lemma RecordedSnoc(data: seq<Entry>, e: Entry, m: string, c: string)
    ensures Recorded(data + [e], m, c) <==> Recorded(data, m, c) || (MonthKey(e.date) == m && e.category == c)
  {
    if Recorded(data + [e], m, c) && !(MonthKey(e.date) == m && e.category == c) {
      var x :| x in data + [e] && MonthKey(x.date) == m && x.category == c;
      assert x in data;
    }
    if Recorded(data, m, c) {
      var x :| x in data && MonthKey(x.date) == m && x.category == c;
      assert x in data + [e];
    }
    assert e in data + [e];
  }

  lemma MonthKeysSnoc(data: seq<Entry>, e: Entry)
    ensures MonthKeys(data + [e]) == MonthKeys(data) + [MonthKey(e.date)]
  {
    assert (data + [e])[..|data|] == data;
  }

  /** A month in which no entry falls sums to zero. */
  lemma MonthSumAbsent(data: seq<Entry>, m: string)
    requires m !in MonthKeys(data)
    ensures MonthSum(data, m) == 0
  {
    MonthKeysAt(data);
    forall i | 0 <= i < |data| ensures !InMonth(m)(data[i]) {
      assert MonthKeys(data)[i] == MonthKey(data[i].date);
    }
    SumWhereNone(data, InMonth(m));
  }

  /**
   * The keys of an object filled in the order of the entries' months: a
   * month key is appended when it is not a key yet, so the key order is the
   * order of first appearance.
   */
  lemma KeysStep<V>(data: seq<Entry>, e: Entry, totals: map<string, V>, keys: seq<string>)
    requires keys == FirstSeen(MonthKeys(data))
    requires forall m :: m in keys <==> m in totals
    ensures (if MonthKey(e.date) in totals then keys else keys + [MonthKey(e.date)]) == FirstSeen(MonthKeys(data + [e]))
  {
    MonthKeysSnoc(data, e);
    FirstSeenSnoc(MonthKeys(data), MonthKey(e.date));
  }
}
