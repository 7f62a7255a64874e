/**
 * `Array.prototype.sort()` without a comparator on an array of strings: the
 * strings are put in ascending order of `<` on JavaScript strings.  The page
 * uses it on the month keys of the chart (static/chart.js:211); they are
 * distinct object keys, so the result is strictly ascending.
 */
module StringSort {
  import opened Text
  import opened Seqs

  /** Every string is smaller than every later one. */
  ghost predicate StrictlyAscending(s: seq<string>) {
    forall i, j :: 0 <= i < j < |s| ==> StrLess(s[i], s[j])
  }

  /** Inserts `x` behind the last element that is not greater than it. */
  function InsertString(s: seq<string>, x: string): (r: seq<string>)
    ensures |r| == |s| + 1
  {
    if |s| == 0 || !StrLess(x, s[|s| - 1]) then s + [x]
    else InsertString(s[..|s| - 1], x) + [s[|s| - 1]]
  }

  /** The default sort of an array of strings. */
  function SortStrings(s: seq<string>): (r: seq<string>)
    ensures |r| == |s|
  {
    if |s| == 0 then [] else InsertString(SortStrings(s[..|s| - 1]), s[|s| - 1])
  }

  lemma {:induction false} InsertStringPermutes(s: seq<string>, x: string)
    ensures multiset(InsertString(s, x)) == multiset(s) + multiset{x}
  {
    if |s| > 0 && StrLess(x, s[|s| - 1]) {
      InsertStringPermutes(s[..|s| - 1], x);
      assert s == s[..|s| - 1] + [s[|s| - 1]];
    }
  }

  /** Sorting rearranges the strings: the result is a permutation of the input. */
  lemma {:induction false} SortStringsPermutes(s: seq<string>)
    ensures multiset(SortStrings(s)) == multiset(s)
  {
    if |s| > 0 {
      SortStringsPermutes(s[..|s| - 1]);
      InsertStringPermutes(SortStrings(s[..|s| - 1]), s[|s| - 1]);
      assert s == s[..|s| - 1] + [s[|s| - 1]];
    }
  }

  lemma {:induction false} InsertStringAscending(s: seq<string>, x: string)
    requires StrictlyAscending(s)
    requires x !in s
    ensures StrictlyAscending(InsertString(s, x))
  {
    if |s| == 0 {
    } else if !StrLess(x, s[|s| - 1]) {
      var last := s[|s| - 1];
      StrLessTotal(x, last);
      forall i, j | 0 <= i < j < |s| + 1 ensures StrLess((s + [x])[i], (s + [x])[j]) {
        if j == |s| && i < |s| - 1 {
          StrLessTransitive(s[i], last, x);
        }
      }
    } else {
      var init, last := s[..|s| - 1], s[|s| - 1];
      assert x !in init;
      InsertStringAscending(init, x);
      var r := InsertString(init, x);
      InsertStringPermutes(init, x);
      forall k | 0 <= k < |r| ensures StrLess(r[k], last) {
        assert r[k] in multiset(r);
        assert r[k] in multiset(init) || r[k] == x;
      }
      forall i, j | 0 <= i < j < |r| + 1 ensures StrLess((r + [last])[i], (r + [last])[j]) {
        if j == |r| {
          assert (r + [last])[i] == r[i];
        }
      }
    }
  }

  /** Sorting distinct strings gives a strictly ascending sequence. */
  lemma {:induction false} SortStringsAscending(s: seq<string>)
    requires Distinct(s)
    ensures StrictlyAscending(SortStrings(s))
  {
    if |s| > 0 {
      var init, last := s[..|s| - 1], s[|s| - 1];
      SortStringsAscending(init);
      SortStringsPermutes(init);
      assert last !in multiset(SortStrings(init));
      InsertStringAscending(SortStrings(init), last);
    }
  }
}
