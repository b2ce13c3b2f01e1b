/** `_clean_and_format_table` of the current formatter
    (src/main/tablebeautifier/utils/table_formatter.py, lines 191-306): one detected block
    is cleaned, read as a grid, given a header or positional names, numbered, coerced, and
    measured. The CSV text pandas writes is not modelled; the table's columns stand for it. */
module Formatter {
  import opened Results
  import opened Text
  import opened Frames
  import opened Cleaning
  import opened Separators
  import opened Reading
  import opened Header
  import opened RowIndex
  import opened Coercion

  /** The formatted block: its columns, its row count and its column count. */
  datatype Table = Table(columns: seq<OutColumn>, rows: nat, cols: nat)

  /** `("", 0, 0)`. */
  const EmptyTable: Table := Table([], 0, 0)

  /** Every column holds one cell per row and the column count is the number of columns. */
  predicate Measured(t: Table) {
    t.cols == |t.columns| && forall j :: 0 <= j < |t.columns| ==> |t.columns[j].cells| == t.rows
  }

  /** The grid read from the block with its empty columns dropped, when the text is not
      empty and the reader does not raise. */
  function Parsed(raw: string): (r: Result<Grid, FormatError>)
    ensures r.Ok? ==> ValidGrid(r.value)
  {
    var text := TableText(raw);
    var parsed := ReadGrid(text, DetectDelimiter(text));
    if parsed.Err? then Err(Unreadable(parsed.error)) else Ok(DropEmptyColumns(parsed.value))
  }

  /** Whether the first row of a grid becomes the header. */
  predicate HasHeader(g: Grid)
    requires ValidGrid(g) && g.height >= 1
  {
    FirstRowLooksLikeHeader(RowOf(g, 0))
  }

  /** The data rows: one fewer when the first row is the header. */
  function DataRows(g: Grid): (n: nat)
    requires ValidGrid(g) && g.height >= 1
    ensures n == g.height - 1 || n == g.height
  {
    if HasHeader(g) then g.height - 1 else g.height
  }

  /** The named columns, each with `DataRows(g)` cells. */
  function Named(g: Grid): (cols: seq<Column>)
    requires ValidGrid(g) && g.height >= 1
    ensures |cols| == |g.columns|
    ensures forall j :: 0 <= j < |cols| ==> |cols[j].cells| == DataRows(g)
  {
    if HasHeader(g) then NameFromHeader(g) else NamePositional(g)
  }

  /** The named columns that still hold a value once the header row is gone. */
  function Kept(g: Grid): (cols: seq<Column>)
    requires ValidGrid(g) && g.height >= 1
    ensures forall j :: 0 <= j < |cols| ==> |cols[j].cells| == DataRows(g) && HasValue(cols[j].cells)
  {
    DropEmpty(Named(g), ColumnCells)
  }

  /** Naming, numbering, coercion and the final drop, for a grid with a row. */
  function FromGrid(g: Grid): (r: Result<Table, FormatError>)
    requires ValidGrid(g) && g.height >= 1
    ensures r.Err? <==> !HasRowIndexColumn(Kept(g)) && exists j :: 0 <= j < |Kept(g)| && Kept(g)[j].name == RowName
    ensures r.Err? ==> r.error == DuplicateRow
    ensures r.Ok? ==> Measured(r.value) && r.value.rows == DataRows(g)
    ensures r.Ok? ==> (r.value.rows == 0 <==> r.value.cols == 0)
    ensures r.Ok? && r.value.rows > 0 ==>
      r.value.cols == |Kept(g)| + (if HasRowIndexColumn(Kept(g)) then 0 else 1)
  {
    Numbered(Kept(g), DataRows(g))
  }

  /** Numbering, coercion and the final drop of columns that hold `n` cells each. */
  function Numbered(kept: seq<Column>, n: nat): (r: Result<Table, FormatError>)
    requires forall j :: 0 <= j < |kept| ==> |kept[j].cells| == n
    ensures r.Err? <==> !HasRowIndexColumn(kept) && exists j :: 0 <= j < |kept| && kept[j].name == RowName
    ensures r.Err? ==> r.error == DuplicateRow
    ensures r.Ok? ==> Measured(r.value) && r.value.rows == n
    ensures r.Ok? ==> (r.value.rows == 0 <==> r.value.cols == 0)
    ensures r.Ok? && n > 0 ==> r.value.cols == |kept| + (if HasRowIndexColumn(kept) then 0 else 1)
  {
    var indexed := WithRowIndex(kept, n);
    WithRowIndexShape(kept, n);
    if indexed.Err? then Err(indexed.error) else Ok(Finish(indexed.value, n))
  }

  /** Coercion and the final drop: with no rows every column goes, otherwise none does. */
  function Finish(indexed: seq<Column>, n: nat): (t: Table)
    requires |indexed| > 0
    requires forall j :: 0 <= j < |indexed| ==> |indexed[j].cells| == n
    ensures Measured(t) && t.rows == n
    ensures n == 0 ==> t.cols == 0
    ensures n > 0 ==> t.cols == |indexed|
  {
    var coerced := CoerceAll(indexed);
    CoercedShape(indexed, n);
    var outs := DropEmpty(coerced, OutCells);
    FinalDrop(coerced, n);
    Table(outs, n, |outs|)
  }

  /** Coercion keeps the column count, and every column keeps `n` cells. */
  lemma CoercedShape(indexed: seq<Column>, n: nat)
    requires forall j :: 0 <= j < |indexed| ==> |indexed[j].cells| == n
    ensures forall j :: 0 <= j < |indexed| ==> |CoerceAll(indexed)[j].cells| == n
    ensures forall j :: 0 <= j < |indexed| ==>
      (CoerceAll(indexed)[j].numeric ==> HasValue(CoerceAll(indexed)[j].cells))
      && (!CoerceAll(indexed)[j].numeric ==> forall i :: 0 <= i < n ==> CoerceAll(indexed)[j].cells[i].Some?)
  {
    forall j | 0 <= j < |indexed| && CoerceAll(indexed)[j].numeric
      ensures HasValue(CoerceAll(indexed)[j].cells)
    {
      NumericKeepsValue(indexed[j]);
    }
  }

  /** The final drop removes every column of a frame with no rows and none otherwise. */
  lemma FinalDrop(coerced: seq<OutColumn>, n: nat)
    requires forall j :: 0 <= j < |coerced| ==> |coerced[j].cells| == n
    requires forall j :: 0 <= j < |coerced| ==>
      (coerced[j].numeric ==> HasValue(coerced[j].cells))
      && (!coerced[j].numeric ==> forall i :: 0 <= i < n ==> coerced[j].cells[i].Some?)
    ensures n == 0 ==> DropEmpty(coerced, OutCells) == []
    ensures n > 0 ==> DropEmpty(coerced, OutCells) == coerced
  {
    if n == 0 {
      DropEmptyNoRows(coerced, OutCells);
    } else {
      forall j | 0 <= j < |coerced| ensures HasValue(OutCells(coerced[j])) {
        if !coerced[j].numeric {
          assert coerced[j].cells[0].Some?;
        }
      }
      DropEmptyKeepsValued(coerced, OutCells);
    }
  }

  /** `_clean_and_format_table`: the empty table for a block with no text or no cell,
      an error when the reader or the numbering raises, the measured table otherwise. */
  function CleanAndFormat(raw: string): (r: Result<Table, FormatError>)
    ensures TableText(raw) == [] ==> r == Ok(EmptyTable)
    ensures r.Err? ==> TableText(raw) != [] && (Parsed(raw).Err? || r.error == DuplicateRow)
    ensures r.Ok? ==> Measured(r.value) && (r.value.rows == 0 <==> r.value.cols == 0)
  {
    if TableText(raw) == [] then Ok(EmptyTable)
    else
      var parsed := Parsed(raw);
      if parsed.Err? then Err(parsed.error)
      else if |parsed.value.columns| == 0 || parsed.value.height == 0 then Ok(EmptyTable)
      else FromGrid(parsed.value)
  }

  /** A table with columns counts the block's non-blank lines, less the header line. */
  lemma RowsAreDataLines(raw: string)
    requires CleanAndFormat(raw).Ok? && CleanAndFormat(raw).value.cols > 0
    ensures Parsed(raw).Ok? && Parsed(raw).value.height >= 1
    ensures CleanAndFormat(raw).value.rows
      == |NonBlankLines(SplitLines(TableText(raw)))| - (if HasHeader(Parsed(raw).value) then 1 else 0)
  {
  }

  /** When the frame does not number its rows, the first column of the table is "Row",
      numeric, holding 1..n. */
  lemma InsertedRowFirst(g: Grid)
    requires ValidGrid(g) && g.height >= 1 && DataRows(g) > 0
    requires !HasRowIndexColumn(Kept(g)) && FromGrid(g).Ok?
    ensures var t := FromGrid(g).value;
      t.cols >= 1 && t.columns[0] == OutColumn(RowName, true, RowNumbers(DataRows(g)))
  {
    var n := DataRows(g);
    var kept := Kept(g);
    var indexed := WithRowIndex(kept, n).value;
    assert indexed[0] == Column(RowName, RowNumbers(n));
    WithRowIndexShape(kept, n);
    var coerced := CoerceAll(indexed);
    CoercedShape(indexed, n);
    FinalDrop(coerced, n);
    RowNumbersNumeric(RowName, n);
    assert FromGrid(g).value.columns == coerced;
  }

  /** When the frame already numbers its rows, no column is added and the first column
      keeps its name. */
  lemma ExistingIndexKept(g: Grid)
    requires ValidGrid(g) && g.height >= 1 && DataRows(g) > 0
    requires HasRowIndexColumn(Kept(g))
    ensures FromGrid(g).Ok?
    ensures var t := FromGrid(g).value;
      t.cols == |Kept(g)| >= 1 && t.columns[0].name == Kept(g)[0].name
  {
    var n := DataRows(g);
    var kept := Kept(g);
    WithRowIndexShape(kept, n);
    var coerced := CoerceAll(kept);
    CoercedShape(kept, n);
    FinalDrop(coerced, n);
    assert FromGrid(g).value.columns == coerced;
  }
}
