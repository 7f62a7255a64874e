/**
 * `loadChartData` (static/chart.js:185-254): the month x category totals
 * built by one pass over the entries, the month axis, the datasets in order
 * of first appearance of their category, and the lookups that can throw.
 */
module Chart {
  import opened Wrappers
  import opened Text
  import opened Seqs
  import opened StringSort
  import opened Dates
  import opened Categories
  import opened Ledger

  /** `monthlyCategoryTotals`: month key to category key to total. */
  type Totals = map<string, map<string, int>>

  /**
   * `totals` holds a row for exactly the months of `data`, a cell for exactly
   * the categories recorded in that month, and each cell's sum.
   */
  ghost predicate IsCategoryTotals(data: seq<Entry>, totals: Totals) {
    RowsOf(data, totals) && CellsOf(data, totals) && SumsOf(data, totals)
  }

  ghost predicate RowsOf(data: seq<Entry>, totals: Totals) {
    forall m :: m in totals <==> m in MonthKeys(data)
  }

  ghost predicate CellsOf(data: seq<Entry>, totals: Totals) {
    forall m, c :: m in totals ==> (c in totals[m] <==> Recorded(data, m, c))
  }

  ghost predicate SumsOf(data: seq<Entry>, totals: Totals) {
    forall m, c :: m in totals && c in totals[m] ==> totals[m][c] == CellSum(data, m, c)
  }

  /** The totals after one more entry: its amount added to its month and category. */
  ghost function AddEntry(totals: Totals, e: Entry): Totals {
    var key := MonthKey(e.date);
    var row := if key in totals then totals[key] else map[];
    var start := if e.category in row then row[e.category] else 0;
    totals[key := row[e.category := start + e.amount]]
  }

  lemma RowsStep(data: seq<Entry>, totals: Totals, e: Entry)
    requires RowsOf(data, totals)
    ensures RowsOf(data + [e], AddEntry(totals, e))
  {
    MonthKeysSnoc(data, e);
  }

  lemma CellsStep(data: seq<Entry>, totals: Totals, e: Entry)
    requires RowsOf(data, totals) && CellsOf(data, totals)
    ensures CellsOf(data + [e], AddEntry(totals, e))
  {
    var key := MonthKey(e.date);
    var totals' := AddEntry(totals, e);
    forall m, c | m in totals'
      ensures c in totals'[m] <==> Recorded(data + [e], m, c)
    {
      RecordedSnoc(data, e, m, c);
      if m == key && key !in totals && Recorded(data, m, c) {
        var x :| x in data && MonthKey(x.date) == m && x.category == c;
        MonthKeysMembers(data, x);
      }
    }
  }

  lemma SumsStep(data: seq<Entry>, totals: Totals, e: Entry)
    requires IsCategoryTotals(data, totals)
    ensures SumsOf(data + [e], AddEntry(totals, e))
  {
    var key := MonthKey(e.date);
    var row := if key in totals then totals[key] else map[];
    var totals' := AddEntry(totals, e);
    forall m, c | m in totals' && c in totals'[m]
      ensures totals'[m][c] == CellSum(data + [e], m, c)
    {
      CellSumSnoc(data, e, m, c);
      if m == key && c == e.category && e.category !in row {
        if Recorded(data, m, c) {
          var x :| x in data && MonthKey(x.date) == m && x.category == c;
          MonthKeysMembers(data, x);
        }
        CellSumUnrecorded(data, m, c);
      }
    }
  }

  /** Adding one entry's amount to its cell keeps the totals exact. */
  lemma CategoryTotalsStep(data: seq<Entry>, totals: Totals, e: Entry)
    requires IsCategoryTotals(data, totals)
    ensures IsCategoryTotals(data + [e], AddEntry(totals, e))
  {
    RowsStep(data, totals, e);
    CellsStep(data, totals, e);
    SumsStep(data, totals, e);
  }

  /** The totals the grouping loop holds after the entries of `data`. */
  ghost function GroupedTotals(data: seq<Entry>): Totals {
    if |data| == 0 then map[] else AddEntry(GroupedTotals(data[..|data| - 1]), data[|data| - 1])
  }

  /** The fold computes the exact month x category totals. */
  lemma {:induction false} GroupedTotalsExact(data: seq<Entry>)
    ensures IsCategoryTotals(data, GroupedTotals(data))
  {
    if |data| > 0 {
      var init, e := data[..|data| - 1], data[|data| - 1];
      GroupedTotalsExact(init);
      CategoryTotalsStep(init, GroupedTotals(init), e);
      assert data == init + [e];
    }
  }

  /**
   * The body of the grouping loop for one entry (static/chart.js:193-207):
   * creates the month's row and the cell when they are missing (a cell
   * holding 0 is reset to 0, which changes nothing), then adds the amount.
   * A new month key is also appended to the key order of the object.
   */
  method GroupEntry(totals: Totals, keys: seq<string>, entry: Entry) returns (totals': Totals, keys': seq<string>)
    ensures totals' == AddEntry(totals, entry)
    ensures keys' == if MonthKey(entry.date) in totals then keys else keys + [MonthKey(entry.date)]
  {
    totals', keys' := totals, keys;
    var monthKey := MonthKey(entry.date);
    if monthKey !in totals' {
      totals' := totals'[monthKey := map[]];
      keys' := keys' + [monthKey];
    }
    var category := entry.category;
    var cells := totals'[monthKey];
    if category !in cells || cells[category] == 0 {
      cells := cells[category := 0];
    }
    cells := cells[category := cells[category] + entry.amount];
    ghost var row := if monthKey in totals then totals[monthKey] else map[];
    assert cells == row[category := (if category in row then row[category] else 0) + entry.amount];
    totals' := totals'[monthKey := cells];
    assert totals' == totals[monthKey := cells];
  }

  /** The rows of the totals are the keys in the key order. */
  lemma KeysMatchRows(data: seq<Entry>)
    ensures forall m :: m in FirstSeen(MonthKeys(data)) <==> m in GroupedTotals(data)
  {
    GroupedTotalsExact(data);
    FirstSeenMembers(MonthKeys(data));
  }

  /**
   * The grouping loop (static/chart.js:192-208): one pass over the entries
   * that builds the totals and, in the order in which months first appear,
   * the keys of the totals object.
   */
  method MonthlyCategoryTotals(data: seq<Entry>) returns (totals: Totals, keys: seq<string>)
    ensures IsCategoryTotals(data, totals)
    ensures keys == FirstSeen(MonthKeys(data))
  {
    totals, keys := map[], [];
    var i := 0;
    while i < |data|
      invariant 0 <= i <= |data|
      invariant totals == GroupedTotals(data[..i])
      invariant keys == FirstSeen(MonthKeys(data[..i]))
    {
      assert data[..i + 1] == data[..i] + [data[i]];
      KeysMatchRows(data[..i]);
      KeysStep(data[..i], data[i], totals, keys);
      totals, keys := GroupEntry(totals, keys, data[i]);
      i := i + 1;
    }
    assert data[..i] == data;
    GroupedTotalsExact(data);
  }

  /** One bar series of the chart: the legend text (its `label`), its total per month and its color. */
  datatype Dataset = Dataset(legend: string, values: seq<int>, color: string)

  /**
   * What the bar chart is given: the month keys behind the x axis, their
   * labels, and the datasets.
   */
  datatype ChartData = ChartData(months: seq<string>, labels: seq<string>, datasets: seq<Dataset>)

  /** `monthlyCategoryTotals[month][category] || 0` (static/chart.js:219). */
  function CellValue(totals: Totals, month: string, category: string): int
    requires month in totals
  {
    if category in totals[month] then totals[month][category] else 0
  }

  /** `months.map(month => monthlyCategoryTotals[month][category] || 0)` (static/chart.js:219). */
  function ValuesFrom(totals: Totals, months: seq<string>, category: string): (values: seq<int>)
    requires forall i :: 0 <= i < |months| ==> months[i] in totals
    ensures |values| == |months|
  {
    seq(|months|, i requires 0 <= i < |months| => CellValue(totals, months[i], category))
  }

  /**
   * `categories.map(...)` (static/chart.js:216-222): one dataset per
   * category, in order; the first category that is not configured throws.
   */
  function BuildDatasets(totals: Totals, months: seq<string>, categories: seq<string>): Result<seq<Dataset>, LookupError>
    requires forall i :: 0 <= i < |months| ==> months[i] in totals
  {
    if |categories| == 0 then Success([])
    else
      var category := categories[0];
      match CategoryLabel(category)
      case Failure(err) => Failure(err)
      case Success(legend) =>
        var rest := BuildDatasets(totals, months, categories[1..]);
        if rest.Failure? then rest
        else Success([Dataset(legend, ValuesFrom(totals, months, category), CategoryColor(category))] + rest.value)
  }

  /** A category's total in each of `months`. */
  ghost function ValuesOf(data: seq<Entry>, months: seq<string>, category: string): seq<int> {
    seq(|months|, i requires 0 <= i < |months| => CellSum(data, months[i], category))
  }

  /** The dataset of a configured category: its label, its total in each month, its color. */
  ghost function DatasetOf(data: seq<Entry>, months: seq<string>, category: string): Dataset
    requires IsConfigured(category)
  {
    Dataset(CategoryLabel(category).value, ValuesOf(data, months, category), CategoryColor(category))
  }

  /** The datasets of configured categories, in their order. */
  ghost function DatasetsOf(data: seq<Entry>, months: seq<string>, categories: seq<string>): seq<Dataset>
    requires forall k :: 0 <= k < |categories| ==> IsConfigured(categories[k])
  {
    if |categories| == 0 then []
    else [DatasetOf(data, months, categories[0])] + DatasetsOf(data, months, categories[1..])
  }

  /**
   * The chart the page should draw for `data`: the distinct month keys in
   * string order, labelled by `monthLabel`, and one dataset per distinct
   * category in order of first appearance; or the error of the first
   * category that is not configured.
   */
  ghost function ChartOf(data: seq<Entry>): Result<ChartData, LookupError> {
    var months := SortStrings(FirstSeen(MonthKeys(data)));
    var categories := FirstSeen(CategoriesOf(data));
    match FirstWhere(categories, Unconfigured)
    case Some(c) => Failure(UnknownCategory(c))
    case None =>
      Success(ChartData(months,
        seq(|months|, i requires 0 <= i < |months| => MonthLabel(months[i])),
        DatasetsOf(data, months, categories)))
  }

  /** Read from exact totals, a category's values are its monthly totals: a missing cell is 0. */
  lemma ValuesExact(data: seq<Entry>, totals: Totals, months: seq<string>, category: string)
    requires IsCategoryTotals(data, totals)
    requires forall i :: 0 <= i < |months| ==> months[i] in totals
    ensures ValuesFrom(totals, months, category) == ValuesOf(data, months, category)
  {
    var values := ValuesFrom(totals, months, category);
    forall i | 0 <= i < |months| ensures values[i] == CellSum(data, months[i], category) {
      if category !in totals[months[i]] {
        CellSumUnrecorded(data, months[i], category);
      }
    }
  }

  /** Read from exact totals, the datasets are those of ChartOf. */
  lemma {:induction false} BuildDatasetsExact(data: seq<Entry>, totals: Totals, months: seq<string>, categories: seq<string>)
    requires IsCategoryTotals(data, totals)
    requires forall i :: 0 <= i < |months| ==> months[i] in totals
    ensures FirstWhere(categories, Unconfigured).Some? ==> BuildDatasets(totals, months, categories) == Failure(UnknownCategory(FirstWhere(categories, Unconfigured).value))
    ensures FirstWhere(categories, Unconfigured).None? ==>
              BuildDatasets(totals, months, categories) ==
              Success(DatasetsOf(data, months, categories))
  {
    if |categories| > 0 {
      BuildDatasetsExact(data, totals, months, categories[1..]);
      ValuesExact(data, totals, months, categories[0]);
    }
  }

  /**
   * `loadChartData` after the fetch (static/chart.js:188-232): group the
   * entries, sort the month keys, collect the categories, build the
   * datasets and the axis labels. The result is the chart of ChartOf.
   */
  method LoadChartData(data: seq<Entry>) returns (r: Result<ChartData, LookupError>)
    ensures r == ChartOf(data)
  {
    var totals, keys := MonthlyCategoryTotals(data);
    var months := SortStrings(keys);
    SortStringsPermutes(keys);
    FirstSeenMembers(MonthKeys(data));
    forall i | 0 <= i < |months| ensures months[i] in totals {
      assert months[i] in multiset(keys);
    }
    var categories := FirstSeen(CategoriesOf(data));
    BuildDatasetsExact(data, totals, months, categories);
    var datasets := BuildDatasets(totals, months, categories);
    if datasets.Failure? {
      return Failure(datasets.error);
    }
    var labels := seq(|months|, i requires 0 <= i < |months| => MonthLabel(months[i]));
    r := Success(ChartData(months, labels, datasets.value));
  }

  /** The chart is drawn exactly when every entry's category is configured. */
  lemma ChartSucceedsIffConfigured(data: seq<Entry>)
    ensures ChartOf(data).Success? <==> forall i :: 0 <= i < |data| ==> IsConfigured(data[i].category)
  {
    FirstWhereFirstSeen(CategoriesOf(data), Unconfigured);
    CategoriesAt(data);
  }

  /**
   * Otherwise the error names the first entry whose category is not
   * configured: the lookup of its label is the one that throws.
   */
  lemma ChartFailsAtFirstUnknown(data: seq<Entry>)
    requires ChartOf(data).Failure?
    ensures exists i :: 0 <= i < |data| && ChartOf(data).error == UnknownCategory(data[i].category) &&
                        !IsConfigured(data[i].category) &&
                        forall j :: 0 <= j < i ==> IsConfigured(data[j].category)
  {
    var cs := CategoriesOf(data);
    FirstWhereFirstSeen(cs, Unconfigured);
    CategoriesAt(data);
    var k :| 0 <= k < |cs| && cs[k] == FirstWhere(cs, Unconfigured).value && Unconfigured(cs[k]) &&
             forall j :: 0 <= j < k ==> !Unconfigured(cs[j]);
    assert ChartOf(data).error == UnknownCategory(data[k].category);
  }

  /** The sorted distinct month keys: each month key of the entries once, in ascending order. */
  lemma SortedMonthKeys(data: seq<Entry>)
    ensures StrictlyAscending(SortStrings(FirstSeen(MonthKeys(data))))
    ensures forall m :: m in SortStrings(FirstSeen(MonthKeys(data))) <==> m in MonthKeys(data)
  {
    var keys := MonthKeys(data);
    FirstSeenDistinct(keys);
    SortStringsAscending(FirstSeen(keys));
    SortStringsPermutes(FirstSeen(keys));
    FirstSeenMembers(keys);
    forall m ensures m in SortStrings(FirstSeen(keys)) <==> m in keys {
      assert m in SortStrings(FirstSeen(keys)) <==> m in multiset(FirstSeen(keys));
    }
  }

  /**
   * The month axis: every month in which some entry falls appears once, no
   * other month appears, and the keys are in ascending string order.
   */
  lemma ChartMonthAxis(data: seq<Entry>)
    requires ChartOf(data).Success?
    ensures StrictlyAscending(ChartOf(data).value.months)
    ensures forall m :: m in ChartOf(data).value.months <==> exists i :: 0 <= i < |data| && MonthKey(data[i].date) == m
    ensures |ChartOf(data).value.labels| == |ChartOf(data).value.months|
  {
    SortedMonthKeys(data);
    forall m ensures m in ChartOf(data).value.months <==> exists i :: 0 <= i < |data| && MonthKey(data[i].date) == m {
      MonthKeysHas(data, m);
    }
  }

  /**
   * For four-digit years the month axis is chronological: a month key left
   * of another belongs to an earlier month.
   */
  lemma ChartMonthsChronological(data: seq<Entry>, a: Entry, b: Entry, i: int, j: int)
    requires forall k :: 0 <= k < |data| ==> 1000 <= data[k].date.year <= 9999
    requires ChartOf(data).Success? && 0 <= i < j < |ChartOf(data).value.months|
    requires a in data && MonthKey(a.date) == ChartOf(data).value.months[i]
    requires b in data && MonthKey(b.date) == ChartOf(data).value.months[j]
    ensures EarlierMonth(a.date, b.date)
  {
    ChartMonthAxis(data);
    MonthKeyChronological(a.date, b.date);
  }

  /** The axis label of a month is its French name and its year, as in "Mai 2024". */
  lemma ChartLabels(data: seq<Entry>, e: Entry, i: int)
    requires ChartOf(data).Success? && 0 <= i < |ChartOf(data).value.months|
    requires e in data && MonthKey(e.date) == ChartOf(data).value.months[i] && e.date.year >= 0
    ensures ChartOf(data).value.labels[i] == MonthNames[e.date.month - 1] + " " + Decimal(e.date.year)
  {
    MonthLabelOfKey(e.date);
  }

  /** The sum over `categories` of the month's cell totals. */
  function SumCells(data: seq<Entry>, m: string, categories: seq<string>): int {
    if |categories| == 0 then 0 else CellSum(data, m, categories[0]) + SumCells(data, m, categories[1..])
  }

  lemma {:induction false} SumCellsSnoc(data: seq<Entry>, e: Entry, m: string, categories: seq<string>)
    requires Distinct(categories)
    ensures SumCells(data + [e], m, categories) ==
            SumCells(data, m, categories) + (if MonthKey(e.date) == m && e.category in categories then e.amount else 0)
  {
    if |categories| > 0 {
      CellSumSnoc(data, e, m, categories[0]);
      SumCellsSnoc(data, e, m, categories[1..]);
      assert categories == [categories[0]] + categories[1..];
    }
  }

  /** Over a list holding every category once, the cells of a month add up to the month's total. */
  lemma {:induction false} SumCellsIsMonthSum(data: seq<Entry>, m: string, categories: seq<string>)
    requires Distinct(categories)
    requires forall i :: 0 <= i < |data| ==> data[i].category in categories
    ensures SumCells(data, m, categories) == MonthSum(data, m)
  {
    if |data| == 0 {
      assert SumCells(data, m, categories) == 0 by {
        ZeroCells(data, m, categories);
      }
    } else {
      var init, e := data[..|data| - 1], data[|data| - 1];
      SumCellsIsMonthSum(init, m, categories);
      assert data == init + [e];
      SumCellsSnoc(init, e, m, categories);
      MonthSumSnoc(init, e, m);
    }
  }

  lemma {:induction false} ZeroCells(data: seq<Entry>, m: string, categories: seq<string>)
    requires |data| == 0
    ensures SumCells(data, m, categories) == 0
  {
    if |categories| > 0 {
      ZeroCells(data, m, categories[1..]);
    }
  }

  /** The column total of month `i`: the sum of the datasets' values there (the bars are drawn side by side). */
  function ColumnTotal(datasets: seq<Dataset>, i: int): int {
    if |datasets| == 0 then 0
    else (if 0 <= i < |datasets[0].values| then datasets[0].values[i] else 0) + ColumnTotal(datasets[1..], i)
  }

  lemma {:induction false} ColumnTotalOfCells(data: seq<Entry>, months: seq<string>, categories: seq<string>, i: int)
    requires forall k :: 0 <= k < |categories| ==> IsConfigured(categories[k])
    requires 0 <= i < |months|
    ensures ColumnTotal(DatasetsOf(data, months, categories), i) == SumCells(data, months[i], categories)
  {
    if |categories| > 0 {
      ColumnTotalOfCells(data, months, categories[1..], i);
    }
  }

  /**
   * Each month's values across the datasets add up to the month's total:
   * every entry is counted in exactly one dataset.
   */
  lemma ChartColumnsAreMonthTotals(data: seq<Entry>, i: int)
    requires ChartOf(data).Success? && 0 <= i < |ChartOf(data).value.months|
    ensures ColumnTotal(ChartOf(data).value.datasets, i) == MonthSum(data, ChartOf(data).value.months[i])
  {
    var months := ChartOf(data).value.months;
    var categories := FirstSeen(CategoriesOf(data));
    ColumnTotalOfCells(data, months, categories, i);
    FirstSeenDistinct(CategoriesOf(data));
    FirstSeenMembers(CategoriesOf(data));
    CategoriesAt(data);
    forall k | 0 <= k < |data| ensures data[k].category in categories {
      assert CategoriesOf(data)[k] in categories;
    }
    SumCellsIsMonthSum(data, months[i], categories);
  }
  /** The datasets of configured categories, one per category, in order. */
  lemma {:induction false} DatasetsOfAt(data: seq<Entry>, months: seq<string>, categories: seq<string>)
    requires forall k :: 0 <= k < |categories| ==> IsConfigured(categories[k])
    ensures |DatasetsOf(data, months, categories)| == |categories|
    ensures forall k :: 0 <= k < |categories| ==>
              var d := DatasetsOf(data, months, categories)[k];
              d.legend == CategoryLabel(categories[k]).value && d.color == CategoryColor(categories[k]) &&
              |d.values| == |months| &&
              forall i :: 0 <= i < |months| ==> d.values[i] == CellSum(data, months[i], categories[k])
  {
    if |categories| > 0 {
      DatasetsOfAt(data, months, categories[1..]);
    }
  }

  /**
   * The categories of the datasets: each category of the entries once, in
   * order of first appearance.
   */
  lemma ChartCategories(data: seq<Entry>)
    ensures Distinct(FirstSeen(CategoriesOf(data)))
    ensures forall c :: c in FirstSeen(CategoriesOf(data)) <==> exists i :: 0 <= i < |data| && data[i].category == c
    ensures forall k, l :: 0 <= k < l < |FirstSeen(CategoriesOf(data))| ==>
              FirstSeen(CategoriesOf(data))[k] in CategoriesOf(data) && FirstSeen(CategoriesOf(data))[l] in CategoriesOf(data) &&
              IndexOf(CategoriesOf(data), FirstSeen(CategoriesOf(data))[k]) < IndexOf(CategoriesOf(data), FirstSeen(CategoriesOf(data))[l])
  {
    var s := CategoriesOf(data);
    var cs := FirstSeen(s);
    FirstSeenDistinct(s);
    FirstSeenMembers(s);
    FirstSeenOrder(s);
    forall c ensures c in cs <==> exists i :: 0 <= i < |data| && data[i].category == c {
      FirstSeenHas(s, c);
      CategoriesHas(data, c);
    }
  }

  /**
   * The datasets of a drawn chart: one per category of ChartCategories, in
   * that order, each with the category's label and color and, for every
   * month of the axis, the category's total in that month.
   */
  lemma ChartDatasets(data: seq<Entry>)
    requires ChartOf(data).Success?
    ensures |ChartOf(data).value.datasets| == |FirstSeen(CategoriesOf(data))|
    ensures forall k :: 0 <= k < |ChartOf(data).value.datasets| ==>
              var c, d := FirstSeen(CategoriesOf(data))[k], ChartOf(data).value.datasets[k];
              IsConfigured(c) && d.legend == CategoryLabel(c).value && d.color == CategoryColor(c) &&
              |d.values| == |ChartOf(data).value.months| &&
              forall i :: 0 <= i < |d.values| ==> d.values[i] == CellSum(data, ChartOf(data).value.months[i], c)
  {
    var cs := FirstSeen(CategoriesOf(data));
    var chart := ChartOf(data).value;
    assert FirstWhere(cs, Unconfigured).None?;
    assert chart.datasets == DatasetsOf(data, chart.months, cs);
    DatasetsOfAt(data, chart.months, cs);
  }
}
