/**
 * The two entry tables (static/chart.js:101-153, 282-300): every entry, and
 * the entries of the current month, each sorted newest first and rendered
 * row by row; the category cell shows the configured label and carries a
 * CSS class derived from the key.
 */
module EntryTables {
  import opened Wrappers
  import opened Text
  import opened Seqs
  import opened StableSort
  import opened Dates
  import opened Categories
  import opened Ledger

  /**
   * The sort key of `rows.sort((a, b) => new Date(b[1]) - new Date(a[1]))`
   * (static/chart.js:108): the comparator is key(a) - key(b) for the
   * negated time value, so the rows are put newest first.
   */
  function NewestFirst(e: Entry): int {
    -Timestamp(e.date)
  }

  /**
   * Sorting newest first rearranges the entries, puts no entry before a
   * later-dated one, and keeps entries of the same day in their order.
   */
  lemma NewestFirstOrder(s: seq<Entry>)
    ensures multiset(SortBy(s, NewestFirst)) == multiset(s)
    ensures forall i, j :: 0 <= i < j < |s| ==> !Before(SortBy(s, NewestFirst)[i].date, SortBy(s, NewestFirst)[j].date)
    ensures SameKeyOrder(SortBy(s, NewestFirst), s, NewestFirst)
  {
    var r := SortBy(s, NewestFirst);
    SortByPermutes(s, NewestFirst);
    SortBySorted(s, NewestFirst);
    SortByStable(s, NewestFirst);
    forall i, j | 0 <= i < j < |s| ensures !Before(r[i].date, r[j].date) {
      TimestampChronological(r[i].date, r[j].date);
      assert NewestFirst(r[i]) <= NewestFirst(r[j]);
    }
  }

  /** The text of a cell and the CSS class it carries, if any. */
  datatype Cell = Cell(text: string, cssClass: Option<string>)

  /**
   * The category cell (static/chart.js:118-121): an empty category is shown
   * as it is; any other is looked up, `CATEGORY_CONFIG[cell].label`, which
   * throws for a key that is not configured, and gets the class
   * `"cat-" + key.replace(/\s+/g, "-").toLowerCase()`. A configured label is
   * never empty, so `|| cell` never applies.
   */
  function CategoryCell(category: string): (r: Result<Cell, LookupError>)
    ensures r.Success? <==> category == "" || IsConfigured(category)
    ensures category == "" ==> r == Success(Cell("", None))
    ensures r.Failure? ==> r.error == UnknownCategory(category)
  {
    if category == "" then Success(Cell(category, None))
    else
      match CategoryLabel(category)
      case Failure(err) => Failure(err)
      case Success(title) => Success(Cell(title, Some(CategoryClass(category))))
  }

  /** A configured category shows its label and the class `cat-` followed by its key. */
  lemma ConfiguredCategoryCell(i: int)
    requires 0 <= i < |Config|
    ensures CategoryCell(Config[i].key) == Success(Cell(Config[i].title, Some("cat-" + Config[i].key)))
  {
    ConfigValuesPresent();
    FindConfigured(i);
    ConfiguredCategoryClass(i);
  }

  /**
   * A rendered row: the id kept for the action buttons, then the date, the
   * amount, the description and the category cell.
   */
  datatype RenderedRow = RenderedRow(id: int, date: Date, amount: int, description: string, category: Cell)

  /** One row of `rows.forEach(...)` (static/chart.js:110-150). */
  function RenderRow(e: Entry): (r: Result<RenderedRow, LookupError>)
    ensures r.Success? <==> CategoryCell(e.category).Success?
    ensures r.Failure? ==> r.error == UnknownCategory(e.category)
  {
    match CategoryCell(e.category)
    case Failure(err) => Failure(err)
    case Success(cell) => Success(RenderedRow(e.id, e.date, e.amount, e.description, cell))
  }

  /** The body of a table and the exception that stopped its rendering, if any. */
  datatype TableView = TableView(body: seq<RenderedRow>, failure: Option<LookupError>)

  /**
   * The table `rows.forEach(...)` leaves behind when each row is rendered
   * by `render`: the rows are appended one by one until one throws; the
   * rows before it stay in the table.
   */
  function RenderWith(rows: seq<Entry>, render: Entry -> Result<RenderedRow, LookupError>): TableView {
    if |rows| == 0 then TableView([], None)
    else
      var before := RenderWith(rows[..|rows| - 1], render);
      if before.failure.Some? then before
      else
        match render(rows[|rows| - 1])
        case Failure(err) => TableView(before.body, Some(err))
        case Success(row) => TableView(before.body + [row], None)
  }

  /** The table `renderTable` leaves behind (static/chart.js:110-150). */
  function Render(rows: seq<Entry>): TableView {
    RenderWith(rows, RenderRow)
  }

  /** The rows shown are a prefix of the entries, each rendered from the entry at its position. */
  lemma {:induction false} RenderWithBody(rows: seq<Entry>, render: Entry -> Result<RenderedRow, LookupError>)
    ensures |RenderWith(rows, render).body| <= |rows|
    ensures forall i :: 0 <= i < |RenderWith(rows, render).body| ==>
              render(rows[i]).Success? && RenderWith(rows, render).body[i] == render(rows[i]).value
  {
    if |rows| > 0 {
      var init, last := rows[..|rows| - 1], rows[|rows| - 1];
      RenderWithBody(init, render);
      RenderWithFailure(init, render);
      var before := RenderWith(init, render);
      assert forall i :: 0 <= i < |init| ==> rows[i] == init[i];
      if before.failure.None? && render(last).Success? {
        assert RenderWith(rows, render).body == before.body + [render(last).value];
      }
    }
  }

  /** The rendering fails exactly when some row throws, and then at the first one, with its error. */
  lemma {:induction false} RenderWithFailure(rows: seq<Entry>, render: Entry -> Result<RenderedRow, LookupError>)
    ensures RenderWith(rows, render).failure.None? <==> forall i :: 0 <= i < |rows| ==> render(rows[i]).Success?
    ensures RenderWith(rows, render).failure.None? ==> |RenderWith(rows, render).body| == |rows|
    ensures RenderWith(rows, render).failure.Some? ==>
              |RenderWith(rows, render).body| < |rows| &&
              render(rows[|RenderWith(rows, render).body|]).Failure? &&
              RenderWith(rows, render).failure.value == render(rows[|RenderWith(rows, render).body|]).error
  {
    if |rows| > 0 {
      var init := rows[..|rows| - 1];
      RenderWithFailure(init, render);
      assert forall i :: 0 <= i < |init| ==> rows[i] == init[i];
    }
  }

  /**
   * What the table shows: the rows in order up to the first entry whose
   * category is neither empty nor configured; the rendering fails exactly
   * when there is such an entry, naming its category.
   */
  lemma RenderShows(rows: seq<Entry>)
    ensures |Render(rows).body| <= |rows|
    ensures forall i :: 0 <= i < |Render(rows).body| ==>
              RenderRow(rows[i]).Success? && Render(rows).body[i] == RenderRow(rows[i]).value
    ensures Render(rows).failure.None? <==> forall i :: 0 <= i < |rows| ==> RenderRow(rows[i]).Success?
    ensures Render(rows).failure.None? ==> |Render(rows).body| == |rows|
    ensures Render(rows).failure.Some? ==>
              |Render(rows).body| < |rows| && Render(rows).failure.value == UnknownCategory(rows[|Render(rows).body|].category)
  {
    RenderWithBody(rows, RenderRow);
    RenderWithFailure(rows, RenderRow);
  }

  /** Once a row has thrown, the later rows change nothing. */
  lemma {:induction false} RenderStops(rows: seq<Entry>, k: int, render: Entry -> Result<RenderedRow, LookupError>)
    requires 0 <= k <= |rows|
    requires RenderWith(rows[..k], render).failure.Some?
    ensures RenderWith(rows, render) == RenderWith(rows[..k], render)
  {
    if k < |rows| {
      var init := rows[..|rows| - 1];
      assert init[..k] == rows[..k];
      RenderStops(init, k, render);
    } else {
      assert rows[..k] == rows;
    }
  }

  /** The rendering loop of `renderTable` (static/chart.js:110-150). */
  method RenderRows(rows: seq<Entry>) returns (view: TableView)
    ensures view == Render(rows)
  {
    var body: seq<RenderedRow> := [];
    var i := 0;
    while i < |rows|
      invariant 0 <= i <= |rows|
      invariant Render(rows[..i]) == TableView(body, None)
    {
      assert rows[..i + 1][..i] == rows[..i];
      var row := RenderRow(rows[i]);
      if row.Failure? {
        RenderStops(rows, i + 1, RenderRow);
        return TableView(body, Some(row.error));
      }
      body := body + [row.value];
      i := i + 1;
    }
    assert rows[..i] == rows;
    view := TableView(body, None);
  }

  /**
   * `renderTable` (static/chart.js:101-153): sorts the given rows in place,
   * newest first, then renders them. The sort happens even when the
   * rendering throws.
   */
  method RenderTable(rows: array<Entry>) returns (view: TableView)
    modifies rows
    ensures rows[..] == SortBy(old(rows[..]), NewestFirst)
    ensures view == Render(rows[..])
  {
    SortInPlace(rows, NewestFirst);
    view := RenderRows(rows[..]);
  }

  /** Whether an entry falls in the year and month of `now` (static/chart.js:292-296). */
  function InMonthOf(now: Date): Entry -> bool {
    (e: Entry) => e.date.year == now.year && e.date.month == now.month
  }

  /** `data.filter(...)` (static/chart.js:291-297): the entries of the month of `now`, in their order. */
  function CurrentMonthEntries(data: seq<Entry>, now: Date): seq<Entry> {
    Filter(data, InMonthOf(now))
  }

  /**
   * The current-month entries are the entries of that month, each as often
   * as it is stored, in their order: splitting the entries splits them.
   */
  lemma CurrentMonthKeeps(data: seq<Entry>, now: Date, rest: seq<Entry>)
    ensures forall e :: multiset(CurrentMonthEntries(data, now))[e] ==
                        if e.date.year == now.year && e.date.month == now.month then multiset(data)[e] else 0
    ensures CurrentMonthEntries(data + rest, now) == CurrentMonthEntries(data, now) + CurrentMonthEntries(rest, now)
  {
    FilterMultiset(data, InMonthOf(now));
    FilterConcat(data, rest, InMonthOf(now));
  }

  /**
   * Filtering the sorted entries gives the newest-first sort of the
   * month's entries, which sorting again leaves as it is.
   */
  lemma CurrentMonthOfSorted(data: seq<Entry>, now: Date)
    ensures CurrentMonthEntries(SortBy(data, NewestFirst), now) == SortBy(CurrentMonthEntries(data, now), NewestFirst)
    ensures SortBy(CurrentMonthEntries(SortBy(data, NewestFirst), now), NewestFirst) == CurrentMonthEntries(SortBy(data, NewestFirst), now)
  {
    SortByFilter(data, InMonthOf(now), NewestFirst);
    SortBySorted(CurrentMonthEntries(data, now), NewestFirst);
    SortBySortedIsIdentity(SortBy(CurrentMonthEntries(data, now), NewestFirst), NewestFirst);
  }

  /**
   * `loadEntryTables` after the fetch (static/chart.js:285-299): the table
   * of all entries sorts `data` itself; the current-month entries are
   * filtered from the sorted `data` and rendered in a second table. When the
   * first rendering throws, the second table is not rendered.
   */
  method LoadEntryTables(data: array<Entry>, now: Date) returns (all: TableView, current: Option<TableView>)
    modifies data
    ensures data[..] == SortBy(old(data[..]), NewestFirst)
    ensures all == Render(data[..])
    ensures all.failure.Some? ==> current.None?
    ensures all.failure.None? ==> current == Some(Render(SortBy(CurrentMonthEntries(old(data[..]), now), NewestFirst)))
  {
    ghost var original := data[..];
    all := RenderTable(data);
    if all.failure.Some? {
      return all, None;
    }
    var entries := CurrentMonthEntries(data[..], now);
    var rows := new Entry[|entries|](i requires 0 <= i < |entries| => entries[i]);
    assert rows[..] == entries;
    var view := RenderTable(rows);
    CurrentMonthOfSorted(original, now);
    current := Some(view);
  }
}
