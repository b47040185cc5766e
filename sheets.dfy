/**
 * An abstract worksheet standing in for the spreadsheet library: cells addressed by
 * 1-based (row, column), each empty (`null` in the source) or holding its text
 * (`Value?.ToString()`), and the sheet's `Rows.EndRow` and `Columns.EndColumn`.
 */
module Sheets {
  import opened Wrappers

  datatype Sheet = Sheet(cells: map<(int, int), string>, endRow: int, endColumn: int)
  {
    /** `Cells[row, col].Value?.ToString()` */
    function Cell(row: int, col: int): Option<string>
    {
      if (row, col) in cells then Some(cells[(row, col)]) else None
    }
  }

  /** The direction a scan walks: down a column or across a row. */
  datatype Axis = Down | Across

  /** The `k`-th cell of line `line` along `axis`. */
  function At(s: Sheet, axis: Axis, line: int, k: int): Option<string>
  {
    match axis
    case Down => s.Cell(k, line)
    case Across => s.Cell(line, k)
  }

  /** The exclusive bound of a scan along `axis`: `i < EndRow` or `j < EndColumn`. */
  function Limit(s: Sheet, axis: Axis): int
  {
    match axis
    case Down => s.endRow
    case Across => s.endColumn
  }

  /** How many cells a scan starting at position `from` reads: it steps while the position is
      below the limit and stops (`break`) at the first empty cell. */
  function Filled(s: Sheet, axis: Axis, line: int, from: int): nat
    decreases Limit(s, axis) - from
  {
    if from < Limit(s, axis) && At(s, axis, line, from).Some? then 1 + Filled(s, axis, line, from + 1)
    else 0
  }

  /** Each position a scan reads is below the limit and holds a filled cell. */
  lemma {:induction false} FilledReadsFilledCells(s: Sheet, axis: Axis, line: int, from: int, k: int)
    requires from <= k < from + Filled(s, axis, line, from)
    ensures k < Limit(s, axis) && At(s, axis, line, k).Some?
    decreases Limit(s, axis) - from
  {
    if k > from {
      FilledReadsFilledCells(s, axis, line, from + 1, k);
    }
  }

  /** The first position a scan does not read is at the limit or holds an empty cell. */
  lemma {:induction false} FilledEndsAtGap(s: Sheet, axis: Axis, line: int, from: int)
    ensures from + Filled(s, axis, line, from) >= Limit(s, axis)
         || At(s, axis, line, from + Filled(s, axis, line, from)).None?
    decreases Limit(s, axis) - from
  {
    if from < Limit(s, axis) && At(s, axis, line, from).Some? {
      FilledEndsAtGap(s, axis, line, from + 1);
    }
  }

  /** The stopping rule for a scan down column `col`: it reads exactly the filled cells from row
      `from` up to, and not including, the first empty one, and never reaches `EndRow`. */
  lemma ColumnScan(s: Sheet, col: int, from: int)
    ensures forall r :: from <= r < from + Filled(s, Down, col, from) ==>
      r < s.endRow && s.Cell(r, col).Some?
    ensures from + Filled(s, Down, col, from) >= s.endRow
         || s.Cell(from + Filled(s, Down, col, from), col).None?
  {
    forall r | from <= r < from + Filled(s, Down, col, from)
      ensures r < s.endRow && s.Cell(r, col).Some?
    {
      FilledReadsFilledCells(s, Down, col, from, r);
    }
    FilledEndsAtGap(s, Down, col, from);
  }

  /** The stopping rule for a scan across row `row`: it reads exactly the filled cells from
      column `from` up to, and not including, the first empty one, and never reaches `EndColumn`. */
  lemma RowScan(s: Sheet, row: int, from: int)
    ensures forall c :: from <= c < from + Filled(s, Across, row, from) ==>
      c < s.endColumn && s.Cell(row, c).Some?
    ensures from + Filled(s, Across, row, from) >= s.endColumn
         || s.Cell(row, from + Filled(s, Across, row, from)).None?
  {
    forall c | from <= c < from + Filled(s, Across, row, from)
      ensures c < s.endColumn && s.Cell(row, c).Some?
    {
      FilledReadsFilledCells(s, Across, row, from, c);
    }
    FilledEndsAtGap(s, Across, row, from);
  }
}
