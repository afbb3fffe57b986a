/** Table shaping (`extract_table_alternative`, main.py:17-44). The parsed
    document is a sequence of tables, each a sequence of rows of cell text.
    The table at index 1 is taken, its row 1 fixes the width, and every row
    from row 1 on is padded with '' or cut to that width. */
module Extraction {
  import opened Wrappers
  import opened Text

  type Row = seq<string>
  type Table = seq<Row>

  /** A data frame: column names in order and rows of cell text. */
  datatype Frame = Frame(columns: seq<string>, rows: seq<Row>)

  /** Every row has one cell per column. */
  predicate WellShaped(f: Frame) {
    forall i :: 0 <= i < |f.rows| ==> |f.rows[i]| == |f.columns|
  }

  /** pandas' `df.empty`: no columns or no rows. */
  predicate IsEmpty(f: Frame) {
    |f.columns| == 0 || |f.rows| == 0
  }

  /** The position of the transaction table among the document's tables. */
  const TableIndex: nat := 1

  function Min(a: nat, b: nat): nat {
    if a <= b then a else b
  }

  /** One row forced to `width` cells: right-padded with '' or right-truncated. */
  function Fit(row: Row, width: nat): (r: Row)
  {
    if |row| < width then row + seq(width - |row|, _ => "") else row[..width]
  }

  /** The pad-or-truncate invariant: exactly `width` cells, the row's own
      cells where it has them and '' beyond its end. */
  lemma FitCells(row: Row, width: nat)
    ensures |Fit(row, width)| == width
    ensures forall k :: 0 <= k < width ==> Fit(row, width)[k] == if k < |row| then row[k] else ""
  {
  }

  /** Names `Column_1` .. `Column_n` used when the header row has no cells. */
  function ColumnNames(n: nat): (names: seq<string>)
    ensures |names| == n
  {
    seq(n, i requires 0 <= i < n => "Column_" + NatToString(i + 1))
  }

  /** The stripped text of the first `n` header cells. */
  function HeaderNames(header: Row, n: nat): (names: seq<string>)
    ensures |names| == Min(|header|, n)
    ensures forall k :: 0 <= k < |names| ==> names[k] == Strip(header[k])
  {
    seq(Min(|header|, n), k requires 0 <= k < Min(|header|, n) => Strip(header[k]))
  }

  /** What extraction yields: None when the table at index 1 is missing,
      when it has no row 0 to read the header from, or when the frame
      constructor raises (a non-empty header narrower than the width); an
      empty frame when that table has a single row; otherwise the header
      names and the fitted rows 1 .. end. */
  function Extracted(tables: seq<Table>): Option<Frame> {
    if |tables| <= TableIndex then None
    else
      var table := tables[TableIndex];
      if |table| == 0 then None
      else if |table| < 2 then Some(Frame([], []))
      else
        var width := |table[1]|;
        var named := HeaderNames(table[0], width);
        var columns := if |named| == 0 then ColumnNames(width) else named;
        if |columns| != width then None
        else Some(Frame(columns, seq(|table| - 1, i requires 0 <= i < |table| - 1 => Fit(table[i + 1], width))))
  }

  /** The extraction loop: builds the fitted rows one at a time. */
  method ExtractTable(tables: seq<Table>) returns (r: Option<Frame>)
    ensures r == Extracted(tables)
  {
    if |tables| == 0 {
      return None;
    }
    if |tables| <= TableIndex {
      // indexing the missing table raises; the handler returns None
      return None;
    }
    var table := tables[TableIndex];
    if |table| == 0 {
      // reading the header row of a table without rows raises
      return None;
    }
    if |table| < 2 {
      return Some(Frame([], []));
    }
    var numCols := |table[1]|;
    var columns := HeaderNames(table[0], numCols);
    if |columns| == 0 {
      columns := ColumnNames(numCols);
    }
    var tableData: seq<Row> := [];
    var i := 1;
    while i < |table|
      invariant 1 <= i <= |table|
      invariant |tableData| == i - 1
      invariant forall k :: 0 <= k < i - 1 ==> tableData[k] == Fit(table[k + 1], numCols)
    {
      var rowValues := table[i];
      if |rowValues| < numCols {
        rowValues := rowValues + seq(numCols - |rowValues|, _ => "");
      } else if |rowValues| > numCols {
        rowValues := rowValues[..numCols];
      }
      tableData := tableData + [rowValues];
      i := i + 1;
    }
    if |columns| != numCols {
      // the frame constructor raises on a header narrower than the data
      return None;
    }
    assert tableData == seq(|table| - 1, k requires 0 <= k < |table| - 1 => Fit(table[k + 1], numCols));
    r := Some(Frame(columns, tableData));
  }

  /** Extraction yields None when the document has fewer than two tables. */
  lemma ExtractedNoSecondTable(tables: seq<Table>)
    requires |tables| < 2
    ensures Extracted(tables) == None
  {
  }

  /** The chosen table with a single row gives the empty frame. */
  lemma ExtractedShortTable(tables: seq<Table>)
    requires |tables| >= 2 && |tables[1]| == 1
    ensures Extracted(tables) == Some(Frame([], []))
    ensures IsEmpty(Extracted(tables).value)
  {
  }

  /** The chosen table without any row yields None: its header row cannot
      be read. */
  lemma ExtractedNoRows(tables: seq<Table>)
    requires |tables| >= 2 && |tables[1]| == 0
    ensures Extracted(tables) == None
  {
  }

  /** The shape of a successful extraction: one row per table row after the
      first, each exactly as wide as table row 1, holding that row's cells
      and '' past its end; the header decides only between success and
      failure. */
  lemma ExtractedShape(tables: seq<Table>)
    requires |tables| >= 2 && |tables[1]| >= 2
    ensures var t := tables[1];
      Extracted(tables).None? <==> 0 < |t[0]| < |t[1]|
    ensures var t := tables[1];
      Extracted(tables).Some? ==>
        var f := Extracted(tables).value;
        |f.columns| == |t[1]| && |f.rows| == |t| - 1 && WellShaped(f)
        && (forall i, k :: 0 <= i < |f.rows| && 0 <= k < |t[1]| ==>
              f.rows[i][k] == if k < |t[i + 1]| then t[i + 1][k] else "")
  {
    var t := tables[1];
    if Extracted(tables).Some? {
      var f := Extracted(tables).value;
      forall i | 0 <= i < |f.rows| ensures |f.rows[i]| == |t[1]|
        && forall k :: 0 <= k < |t[1]| ==> f.rows[i][k] == if k < |t[i + 1]| then t[i + 1][k] else ""
      {
        ExtractedRow(tables, i);
      }
    }
  }

  /** Row `i` of a successful extraction is table row `i + 1` fitted to the
      width of table row 1. */
  lemma ExtractedRow(tables: seq<Table>, i: nat)
    requires |tables| >= 2 && |tables[1]| >= 2
    requires Extracted(tables).Some? && i < |Extracted(tables).value.rows|
    ensures Extracted(tables).value.rows[i] == Fit(tables[1][i + 1], |tables[1][1]|)
    ensures |Extracted(tables).value.rows[i]| == |tables[1][1]|
    ensures forall k :: 0 <= k < |tables[1][1]| ==>
      (Extracted(tables).value.rows[i][k] == if k < |tables[1][i + 1]| then tables[1][i + 1][k] else "")
  {
    FitCells(tables[1][i + 1], |tables[1][1]|);
  }

  /** Every extracted frame has one cell per column in every row. */
  lemma ExtractedWellShaped(tables: seq<Table>)
    requires Extracted(tables).Some?
    ensures WellShaped(Extracted(tables).value)
  {
    if |tables[1]| >= 2 {
      ExtractedShape(tables);
    }
  }

  /** A frame that `process_data` can use (not None, not empty) comes from a
      document whose table 1 has at least two rows, a non-empty row 1, and a
      header row that is either empty or at least as wide as row 1. */
  lemma ExtractedUsable(tables: seq<Table>)
    ensures (Extracted(tables).Some? && !IsEmpty(Extracted(tables).value)) <==>
      (|tables| >= 2 && |tables[1]| >= 2 && |tables[1][1]| > 0
       && !(0 < |tables[1][0]| < |tables[1][1]|))
  {
  }
}
