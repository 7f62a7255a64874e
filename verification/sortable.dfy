/**
 * `makeTableSortable` (static/chart.js:65-92): clicking a header sorts the
 * rows of the table by that column, in the direction held by one flag shared
 * by all the headers of the table, then flips the flag. The Actions column
 * (index 4) has no click handler.
 *
 * A cell's sort value (a number, else a date, else the text) is modelled as
 * an integer key, one per column of the row.
 */
module Sortable {
  import opened StableSort

  /** A rendered row, through the sort keys of its cells. */
  datatype Row = Row(keys: seq<int>)

  /** The column that is not sortable (static/chart.js:71). */
  const ActionsColumn: nat := 4

  /** The sort value of a row's cell in `column`; a missing cell counts as 0. */
  function CellKey(r: Row, column: nat): int {
    if column < |r.keys| then r.keys[column] else 0
  }

  /**
   * The comparator of a click, `(aVal > bVal ? 1 : aVal < bVal ? -1 : 0) *
   * sortDirection` (static/chart.js:77-85), is the comparison of the cell
   * keys multiplied by the direction.
   */
  function ColumnOrder(column: nat, direction: int): Row -> int {
    (r: Row) => direction * CellKey(r, column)
  }

  /**
   * The rows after a click sorted in direction 1 are in ascending order of
   * the column, in direction -1 in descending order; in both, they are a
   * permutation of the rows before, and rows with equal cells keep their
   * relative order.
   */
  lemma ClickOrder(s: seq<Row>, column: nat, direction: int)
    requires direction == 1 || direction == -1
    ensures multiset(SortBy(s, ColumnOrder(column, direction))) == multiset(s)
    ensures direction == 1 ==> forall i, j :: 0 <= i < j < |s| ==>
              CellKey(SortBy(s, ColumnOrder(column, direction))[i], column) <= CellKey(SortBy(s, ColumnOrder(column, direction))[j], column)
    ensures direction == -1 ==> forall i, j :: 0 <= i < j < |s| ==>
              CellKey(SortBy(s, ColumnOrder(column, direction))[i], column) >= CellKey(SortBy(s, ColumnOrder(column, direction))[j], column)
    ensures SameKeyOrder(SortBy(s, ColumnOrder(column, direction)), s, ColumnOrder(column, direction))
  {
    var r := SortBy(s, ColumnOrder(column, direction));
    SortByPermutes(s, ColumnOrder(column, direction));
    SortBySorted(s, ColumnOrder(column, direction));
    SortByStable(s, ColumnOrder(column, direction));
    forall i, j | 0 <= i < j < |s|
      ensures direction * CellKey(r[i], column) <= direction * CellKey(r[j], column)
    {
      assert ColumnOrder(column, direction)(r[i]) <= ColumnOrder(column, direction)(r[j]);
    }
  }

  /**
   * Clicking the same header twice does not restore the original order of
   * rows that had two cells of the column in ascending order: the first
   * click sorts ascending, the second descending.
   */
  lemma SecondClickReverses(s: seq<Row>, column: nat, i: int, j: int)
    requires 0 <= i < j < |s| && CellKey(s[i], column) < CellKey(s[j], column)
    ensures SortBy(SortBy(s, ColumnOrder(column, 1)), ColumnOrder(column, -1)) != s
  {
    var once := SortBy(s, ColumnOrder(column, 1));
    ClickOrder(once, column, -1);
    var twice := SortBy(once, ColumnOrder(column, -1));
    assert CellKey(twice[i], column) >= CellKey(twice[j], column);
  }

  /**
   * A table made sortable: the rows of its body, in display order, and the
   * direction flag of its click handlers.
   */
  class SortableTable {
    const rows: array<Row>
    var direction: int
    const columns: nat

    /** The direction is 1 or -1 and every row has one cell per column. */
    ghost predicate Valid()
      reads this, rows
    {
      (direction == 1 || direction == -1) &&
      forall i :: 0 <= i < rows.Length ==> |rows[i].keys| == columns
    }

    /** `makeTableSortable` on a table whose rows have `columns` cells (static/chart.js:65-68). */
    constructor (body: array<Row>, columns: nat)
      requires forall i :: 0 <= i < body.Length ==> |body[i].keys| == columns
      ensures Valid()
      ensures rows == body && this.columns == columns && direction == 1
    {
      rows := body;
      this.columns := columns;
      direction := 1;
    }

    /**
     * A click on the header of `column` (static/chart.js:73-89): the rows
     * are sorted by the column in the current direction and re-appended in
     * that order, then the direction flips. The Actions header does nothing.
     */
    method ClickHeader(column: nat)
      requires Valid() && column < columns
      modifies this, rows
      ensures Valid()
      ensures column == ActionsColumn ==> rows[..] == old(rows[..]) && direction == old(direction)
      ensures column != ActionsColumn ==>
                rows[..] == SortBy(old(rows[..]), ColumnOrder(column, old(direction))) &&
                direction == -old(direction)
    {
      if column == ActionsColumn {
        return;
      }
      ghost var before := rows[..];
      SortInPlace(rows, ColumnOrder(column, direction));
      SortByPermutes(before, ColumnOrder(column, direction));
      forall i | 0 <= i < rows.Length ensures |rows[i].keys| == columns {
        assert rows[i] in multiset(rows[..]);
        assert rows[i] in multiset(before);
        var k :| 0 <= k < |before| && before[k] == rows[i];
      }
      direction := -direction;
    }
  }
}
