/**
 * `loadBalanceTable` (static/chart.js:256-280): the entries' amounts summed
 * per month, whatever their category, one row per month in the key order of
 * the totals object (the order in which the months first appear).
 */
module Balance {
  import opened Seqs
  import opened Dates
  import opened Ledger
  import opened Chart

  /** `monthlyTotals`: month key to total. */
  type MonthTotals = map<string, int>

  /** One row of the balance table: the month key and the month's total. */
  datatype BalanceRow = BalanceRow(month: string, total: int)

  /** `totals` holds a total for exactly the months of `data`, each the month's sum. */
  ghost predicate IsMonthTotals(data: seq<Entry>, totals: MonthTotals) {
    (forall m :: m in totals <==> m in MonthKeys(data)) &&
    (forall m :: m in totals ==> totals[m] == MonthSum(data, m))
  }

  /** The totals after one more entry: its amount added to its month. */
  ghost function AddAmount(totals: MonthTotals, e: Entry): MonthTotals {
    var key := MonthKey(e.date);
    totals[key := (if key in totals then totals[key] else 0) + e.amount]
  }

  /** Adding one entry's amount to its month keeps the totals exact. */
  lemma MonthTotalsStep(data: seq<Entry>, totals: MonthTotals, e: Entry)
    requires IsMonthTotals(data, totals)
    ensures IsMonthTotals(data + [e], AddAmount(totals, e))
  {
    var key := MonthKey(e.date);
    MonthKeysSnoc(data, e);
    forall m | m in AddAmount(totals, e) ensures AddAmount(totals, e)[m] == MonthSum(data + [e], m) {
      MonthSumSnoc(data, e, m);
      if m == key && key !in totals {
        MonthSumAbsent(data, m);
      }
    }
  }

  /** The totals the grouping loop holds after the entries of `data`. */
  ghost function GroupedAmounts(data: seq<Entry>): MonthTotals {
    if |data| == 0 then map[] else AddAmount(GroupedAmounts(data[..|data| - 1]), data[|data| - 1])
  }

  /** The fold computes the exact monthly totals. */
  lemma {:induction false} GroupedAmountsExact(data: seq<Entry>)
    ensures IsMonthTotals(data, GroupedAmounts(data))
  {
    if |data| > 0 {
      var init, e := data[..|data| - 1], data[|data| - 1];
      GroupedAmountsExact(init);
      MonthTotalsStep(init, GroupedAmounts(init), e);
      assert data == init + [e];
    }
  }

  /**
   * The body of the grouping loop for one entry (static/chart.js:263-272):
   * a missing month starts at 0 (a month holding 0 is reset to 0, which
   * changes nothing), then the amount is added. A new month key is also
   * appended to the key order of the object.
   */
  method GroupAmount(totals: MonthTotals, keys: seq<string>, entry: Entry) returns (totals': MonthTotals, keys': seq<string>)
    ensures totals' == AddAmount(totals, entry)
    ensures keys' == if MonthKey(entry.date) in totals then keys else keys + [MonthKey(entry.date)]
  {
    totals', keys' := totals, keys;
    var monthKey := MonthKey(entry.date);
    if monthKey !in totals' || totals'[monthKey] == 0 {
      if monthKey !in totals' {
        keys' := keys' + [monthKey];
      }
      totals' := totals'[monthKey := 0];
    }
    totals' := totals'[monthKey := totals'[monthKey] + entry.amount];
  }

  /**
   * The grouping loop (static/chart.js:261-272): one pass over the entries
   * that builds the monthly totals and, in the order in which months first
   * appear, the keys of the totals object.
   */
  method MonthlyTotals(data: seq<Entry>) returns (totals: MonthTotals, keys: seq<string>)
    ensures IsMonthTotals(data, totals)
    ensures keys == FirstSeen(MonthKeys(data))
  {
    totals, keys := map[], [];
    var i := 0;
    while i < |data|
      invariant 0 <= i <= |data|
      invariant totals == GroupedAmounts(data[..i])
      invariant keys == FirstSeen(MonthKeys(data[..i]))
    {
      assert data[..i + 1] == data[..i] + [data[i]];
      GroupedAmountsExact(data[..i]);
      FirstSeenMembers(MonthKeys(data[..i]));
      KeysStep(data[..i], data[i], totals, keys);
      totals, keys := GroupAmount(totals, keys, data[i]);
      i := i + 1;
    }
    assert data[..i] == data;
    GroupedAmountsExact(data);
  }

  /** The balance the page should show: each month of `data` once, in order of first appearance, with its total. */
  function BalanceOf(data: seq<Entry>): seq<BalanceRow> {
    var months := FirstSeen(MonthKeys(data));
    seq(|months|, i requires 0 <= i < |months| => BalanceRow(months[i], MonthSum(data, months[i])))
  }

  /**
   * `loadBalanceTable` after the fetch (static/chart.js:261-277): the
   * grouping loop, then `Object.entries(monthlyTotals)` turned into rows.
   */
  method LoadBalanceTable(data: seq<Entry>) returns (rows: seq<BalanceRow>)
    ensures rows == BalanceOf(data)
  {
    var totals, keys := MonthlyTotals(data);
    FirstSeenMembers(MonthKeys(data));
    rows := seq(|keys|, i requires 0 <= i < |keys| => BalanceRow(keys[i], totals[keys[i]]));
  }

  /** The month column of the balance rows. */
  function RowMonths(rows: seq<BalanceRow>): (months: seq<string>)
    ensures |months| == |rows|
  {
    seq(|rows|, i requires 0 <= i < |rows| => rows[i].month)
  }

  /**
   * The rows of the balance: every month in which some entry falls has
   * exactly one row, no other month has one, and the rows follow the order
   * in which the months first appear among the entries.
   */
  lemma BalanceMonths(data: seq<Entry>)
    ensures Distinct(RowMonths(BalanceOf(data)))
    ensures forall m :: m in RowMonths(BalanceOf(data)) <==> exists k :: 0 <= k < |data| && MonthKey(data[k].date) == m
    ensures forall i, j :: 0 <= i < j < |BalanceOf(data)| ==>
              BalanceOf(data)[i].month in MonthKeys(data) && BalanceOf(data)[j].month in MonthKeys(data) &&
              IndexOf(MonthKeys(data), BalanceOf(data)[i].month) < IndexOf(MonthKeys(data), BalanceOf(data)[j].month)
  {
    var keys := MonthKeys(data);
    var months := FirstSeen(keys);
    var rows := BalanceOf(data);
    FirstSeenDistinct(keys);
    FirstSeenMembers(keys);
    FirstSeenOrder(keys);
    assert RowMonths(rows) == months;
    forall m ensures m in months <==> exists k :: 0 <= k < |data| && MonthKey(data[k].date) == m {
      MonthKeysHas(data, m);
    }
  }

  /**
   * A month's balance is the sum, over the categories of the entries, of its
   * month x category totals in the chart.
   */
  lemma BalanceIsSumOfCells(data: seq<Entry>, i: int)
    requires 0 <= i < |BalanceOf(data)|
    ensures BalanceOf(data)[i].total == SumCells(data, BalanceOf(data)[i].month, FirstSeen(CategoriesOf(data)))
  {
    var categories := FirstSeen(CategoriesOf(data));
    FirstSeenDistinct(CategoriesOf(data));
    FirstSeenMembers(CategoriesOf(data));
    CategoriesAt(data);
    forall k | 0 <= k < |data| ensures data[k].category in categories {
      assert CategoriesOf(data)[k] in categories;
    }
    SumCellsIsMonthSum(data, BalanceOf(data)[i].month, categories);
  }

  /**
   * The balance agrees with the chart drawn from the same entries: the two
   * have the same months, and a month's balance is the sum of the values
   * of the month's bars, one per category.
   */
  lemma BalanceMatchesChart(data: seq<Entry>)
    requires ChartOf(data).Success?
    ensures forall m :: m in RowMonths(BalanceOf(data)) <==> m in ChartOf(data).value.months
    ensures forall i, j :: 0 <= i < |BalanceOf(data)| && 0 <= j < |ChartOf(data).value.months| &&
                           BalanceOf(data)[i].month == ChartOf(data).value.months[j] ==>
                           BalanceOf(data)[i].total == ColumnTotal(ChartOf(data).value.datasets, j)
  {
    BalanceMonths(data);
    ChartMonthAxis(data);
    forall j | 0 <= j < |ChartOf(data).value.months| {
      ChartColumnsAreMonthTotals(data, j);
    }
  }
}
