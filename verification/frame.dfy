/** The grid `pd.read_csv(..., header=None)` produces, reduced to what the formatters use:
    a rectangle of optional cells held column by column, plus the column filter behind
    `df.dropna(axis=1, how="all")`. */
module Frames {
  import opened Results

  /** A parsed field; `None` is pandas' NaN for an empty field. */
  type Cell = Option<string>

  /** Why the CSV reader raises. */
  datatype ParseError =
    | NoData                  // `EmptyDataError`: no line to read
    | RaggedRow(line: nat)    // `ParserError`: a row with more fields than the first

  /** `height` rows held as columns; every column has exactly `height` cells. */
  datatype Grid = Grid(height: nat, columns: seq<seq<Cell>>)

  predicate ValidGrid(g: Grid) {
    forall j :: 0 <= j < |g.columns| ==> |g.columns[j]| == g.height
  }

  /** Row `i` of a grid, left to right. */
  function RowOf(g: Grid, i: nat): (r: seq<Cell>)
    requires ValidGrid(g) && i < g.height
    ensures |r| == |g.columns|
    ensures forall j :: 0 <= j < |r| ==> r[j] == g.columns[j][i]
  {
    seq(|g.columns|, j requires 0 <= j < |g.columns| => g.columns[j][i])
  }

  /** A short row is padded with missing cells on the right. */
  function Pad(row: seq<Cell>, w: nat): (r: seq<Cell>)
    requires |row| <= w
    ensures |r| == w
    ensures forall j :: 0 <= j < |row| ==> r[j] == row[j]
    ensures forall j :: |row| <= j < w ==> r[j] == None
  {
    row + seq(w - |row|, _ => None)
  }

  /** Index of the first row wider than `w`, or `|rows|` when none is. */
  function FirstTooWide(rows: seq<seq<Cell>>, w: nat): (i: nat)
    ensures i <= |rows|
    ensures forall k :: 0 <= k < i ==> |rows[k]| <= w
    ensures i < |rows| ==> |rows[i]| > w
    decreases |rows|
  {
    if rows == [] || |rows[0]| > w then 0 else 1 + FirstTooWide(rows[1..], w)
  }

  /** The rows of fields read into a grid: the first row fixes the number of columns,
      shorter rows are padded, a longer row raises, and no row at all raises too. */
  function ToGrid(rows: seq<seq<Cell>>): (r: Result<Grid, ParseError>)
    ensures r.Ok? ==> ValidGrid(r.value) && r.value.height == |rows|
    ensures r.Ok? ==> rows != [] && |r.value.columns| == |rows[0]|
  {
    if rows == [] then Err(NoData)
    else
      var w := |rows[0]|;
      var bad := FirstTooWide(rows, w);
      if bad < |rows| then Err(RaggedRow(bad))
      else
        Ok(Grid(|rows|, seq(w, j requires 0 <= j < w =>
             seq(|rows|, i requires 0 <= i < |rows| => Pad(rows[i], w)[j]))))
  }

  /** The reader fails exactly on no rows or a row wider than the first; otherwise every
      field lands at its own row and column and the padding is missing. */
  lemma ToGridCells(rows: seq<seq<Cell>>)
    ensures ToGrid(rows).Err? <==> rows == [] || exists i :: 0 <= i < |rows| && |rows[i]| > |rows[0]|
    ensures ToGrid(rows).Ok? ==>
      forall i, j :: 0 <= i < |rows| && 0 <= j < |rows[0]| ==>
        ToGrid(rows).value.columns[j][i] == (if j < |rows[i]| then rows[i][j] else None)
  {
    if rows != [] {
      var w := |rows[0]|;
      var bad := FirstTooWide(rows, w);
      if bad == |rows| {
        var g := ToGrid(rows).value;
        forall i, j | 0 <= i < |rows| && 0 <= j < w
          ensures g.columns[j][i] == (if j < |rows[i]| then rows[i][j] else None)
        {
          assert g.columns[j][i] == Pad(rows[i], w)[j];
        }
      }
    }
  }

  /** A column with at least one present cell, which `dropna(how="all")` keeps. */
  predicate HasValue(cells: seq<Cell>) {
    exists i :: 0 <= i < |cells| && cells[i].Some?
  }

  /** `df.dropna(axis=1, how="all")`: the columns, in order, that have a present cell;
      `cellsOf` reads a column's cells, whatever else the column carries. */
  function DropEmpty<T>(columns: seq<T>, cellsOf: T -> seq<Cell>): (r: seq<T>)
    ensures |r| <= |columns|
    ensures forall j :: 0 <= j < |r| ==> HasValue(cellsOf(r[j])) && r[j] in columns
    decreases |columns|
  {
    if columns == [] then []
    else (if HasValue(cellsOf(columns[0])) then [columns[0]] else []) + DropEmpty(columns[1..], cellsOf)
  }

  /** Nothing is dropped exactly when every column has a value. */
  lemma {:induction false} DropEmptyKeepsValued<T>(columns: seq<T>, cellsOf: T -> seq<Cell>)
    ensures (forall j :: 0 <= j < |columns| ==> HasValue(cellsOf(columns[j])))
            <==> DropEmpty(columns, cellsOf) == columns
    decreases |columns|
  {
    if columns != [] {
      DropEmptyKeepsValued(columns[1..], cellsOf);
      if !HasValue(cellsOf(columns[0])) {
        assert |DropEmpty(columns, cellsOf)| <= |columns[1..]| < |columns|;
      } else {
        assert forall j :: 1 <= j < |columns| ==> columns[j] == columns[1..][j - 1];
      }
    }
  }

  /** Dropping twice drops nothing more. */
  lemma DropEmptyIdempotent<T>(columns: seq<T>, cellsOf: T -> seq<Cell>)
    ensures DropEmpty(DropEmpty(columns, cellsOf), cellsOf) == DropEmpty(columns, cellsOf)
  {
    DropEmptyKeepsValued(DropEmpty(columns, cellsOf), cellsOf);
  }

  /** With no rows every column is all-missing, so every column goes. */
  lemma {:induction false} DropEmptyNoRows<T>(columns: seq<T>, cellsOf: T -> seq<Cell>)
    requires forall j :: 0 <= j < |columns| ==> cellsOf(columns[j]) == []
    ensures DropEmpty(columns, cellsOf) == []
    decreases |columns|
  {
    if columns != [] {
      DropEmptyNoRows(columns[1..], cellsOf);
    }
  }

  function CellsOf(cells: seq<Cell>): seq<Cell> {
    cells
  }

  /** The grid with its empty columns dropped; the rows stay. */
  function DropEmptyColumns(g: Grid): (r: Grid)
    requires ValidGrid(g)
    ensures ValidGrid(r) && r.height == g.height
  {
    Grid(g.height, DropEmpty(g.columns, CellsOf))
  }
}
