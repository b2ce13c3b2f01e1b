/** Row numbering of the current formatter
    (src/main/tablebeautifier/utils/table_formatter.py, lines 20, 264-266 and 377-403): the
    first column already numbers the rows when its name is "#", "row" or "id" (ignoring
    case and surrounding whitespace), or when its values, read as integers, are 1, 2, ...
    up to their count; otherwise a "Row" column numbering the rows from 1 is put first. */
module RowIndex {
  import opened Results
  import opened Text
  import opened Numbers
  import opened Frames
  import opened Header

  /** `ROW_COLUMN_NAMES`, compared with the lower-cased, stripped name. */
  predicate IsIndexName(name: string) {
    var n := ToLower(Strip(name));
    n == "#" || n == "row" || n == "id"
  }

  /** A cell as `pd.to_numeric` reads it once stripped and rid of commas, truncated to
      an integer; `None` for a missing or unreadable cell. */
  function CellNumber(c: Cell): Option<int> {
    match c
    case None => None
    case Some(v) => ParseNumber(RemoveChar(Strip(v), ','))
  }

  /** The present values, in order (`.dropna()`). */
  function Present<T>(xs: seq<Option<T>>): (r: seq<T>)
    ensures |r| <= |xs|
    decreases |xs|
  {
    if xs == [] then [] else (if xs[0].Some? then [xs[0].value] else []) + Present(xs[1..])
  }

  /** Every value, present. */
  function AllPresent<T>(xs: seq<T>): (r: seq<Option<T>>)
    ensures |r| == |xs| && forall i :: 0 <= i < |xs| ==> r[i] == Some(xs[i])
  {
    seq(|xs|, i requires 0 <= i < |xs| => Some(xs[i]))
  }

  /** When nothing is missing, every value is kept, in place. */
  lemma {:induction false} PresentAll<T>(xs: seq<T>)
    ensures Present(AllPresent(xs)) == xs
    decreases |xs|
  {
    if xs != [] {
      PresentAll(xs[1..]);
      assert AllPresent(xs)[1..] == AllPresent(xs[1..]);
    }
  }

  function CellNumbers(cells: seq<Cell>): (r: seq<Option<int>>)
    ensures |r| == |cells| && forall i :: 0 <= i < |cells| ==> r[i] == CellNumber(cells[i])
  {
    seq(|cells|, i requires 0 <= i < |cells| => CellNumber(cells[i]))
  }

  /** The column's readable values, in order. */
  function IndexValues(cells: seq<Cell>): (vals: seq<int>)
    ensures |vals| <= |cells|
  {
    Present(CellNumbers(cells))
  }

  /** 1, 2, ..., k for some k >= 1. */
  predicate IsCounting(vals: seq<int>) {
    |vals| >= 1 && forall i :: 0 <= i < |vals| ==> vals[i] == i + 1
  }

  /** `_has_row_index_column`. */
  predicate HasRowIndexColumn(cols: seq<Column>) {
    |cols| > 0 && (IsIndexName(cols[0].name) || IsCounting(IndexValues(cols[0].cells)))
  }

  /** The cells of the inserted column: the row numbers 1..n as text. */
  function RowNumbers(n: nat): (cells: seq<Cell>)
    ensures |cells| == n
    ensures forall i :: 0 <= i < n ==> cells[i] == Some(NatToString(i + 1))
  {
    seq(n, i requires 0 <= i < n => Some(NatToString(i + 1)))
  }

  const RowName: string := "Row"

  /** What makes the formatter raise for a block. */
  datatype FormatError =
    | Unreadable(cause: ParseError)  // the CSV reader raised
    | DuplicateRow                   // `df.insert` met an existing "Row" column

  /** `df.insert(0, "Row", range(1, n + 1))`, which raises when a column is already
      named exactly "Row". */
  function InsertRowColumn(cols: seq<Column>, n: nat): (r: Result<seq<Column>, FormatError>)
    ensures r.Err? <==> exists j :: 0 <= j < |cols| && cols[j].name == RowName
    ensures r.Ok? ==>
      |r.value| == |cols| + 1 && r.value[1..] == cols && r.value[0].name == RowName && |r.value[0].cells| == n
  {
    if exists j :: 0 <= j < |cols| && cols[j].name == RowName then Err(DuplicateRow)
    else Ok([Column(RowName, RowNumbers(n))] + cols)
  }

  /** The numbering step: keep a frame that already numbers its rows, else insert one. */
  function WithRowIndex(cols: seq<Column>, n: nat): (r: Result<seq<Column>, FormatError>)
    ensures r.Ok? ==> HasRowIndexColumn(r.value)
    ensures HasRowIndexColumn(cols) ==> r == Ok(cols)
    ensures r.Err? <==> !HasRowIndexColumn(cols) && exists j :: 0 <= j < |cols| && cols[j].name == RowName
    ensures r.Err? ==> r.error == DuplicateRow
    ensures r.Ok? ==> |r.value| == |cols| + (if HasRowIndexColumn(cols) then 0 else 1)
  {
    if HasRowIndexColumn(cols) then Ok(cols)
    else
      RowNameIsIndexName();
      InsertRowColumn(cols, n)
  }

  /** Numbering keeps every column at `n` cells. */
  lemma WithRowIndexShape(cols: seq<Column>, n: nat)
    requires forall j :: 0 <= j < |cols| ==> |cols[j].cells| == n
    ensures var r := WithRowIndex(cols, n);
      r.Ok? ==> forall j :: 0 <= j < |r.value| ==> |r.value[j].cells| == n
  {
    var r := WithRowIndex(cols, n);
    if r.Ok? && !HasRowIndexColumn(cols) {
      assert r.value == [Column(RowName, RowNumbers(n))] + cols;
    }
  }

  lemma RowNameIsIndexName()
    ensures IsIndexName(RowName)
  {
    StripNoOp(RowName);
    assert ToLower(RowName) == "row";
  }

  /** 1, 2, ..., n. */
  function Counting(n: nat): (r: seq<int>)
    ensures IsCounting(r) || n == 0
    ensures |r| == n
  {
    seq(n, i requires 0 <= i < n => i + 1)
  }

  /** Row numbers are read back as the counting sequence. */
  lemma RowNumbersCount(n: nat)
    ensures IndexValues(RowNumbers(n)) == Counting(n)
  {
    var nums := CellNumbers(RowNumbers(n));
    forall i | 0 <= i < n ensures nums[i] == AllPresent(Counting(n))[i] {
      RowNumberCell(n, i);
    }
    assert nums == AllPresent(Counting(n));
    PresentAll(Counting(n));
  }

  lemma RowNumberCell(n: nat, i: nat)
    requires i < n
    ensures CellNumbers(RowNumbers(n))[i] == Some(i + 1)
  {
    NumberCellValue(RowNumbers(n)[i], i + 1);
  }

  lemma NumberCellValue(c: Cell, n: nat)
    requires c == Some(NatToString(n))
    ensures CellNumber(c) == Some(n)
  {
    var s := NatToString(n);
    StripNoOp(s);
    NatToStringHasNoComma(n);
    RemoveCharAbsent(s, ',');
    ParseNatToString(n);
  }

  /** The inserted column numbers the rows: after it, numbering finds nothing to add. */
  lemma WithRowIndexIdempotent(cols: seq<Column>, n: nat)
    requires WithRowIndex(cols, n).Ok?
    ensures WithRowIndex(WithRowIndex(cols, n).value, n) == WithRowIndex(cols, n)
  {
  }

  /** A first column holding 1..n (n >= 1) is taken as the numbering, whatever its name. */
  lemma CountingColumnIsIndex(name: string, n: nat, rest: seq<Column>)
    requires n >= 1
    ensures HasRowIndexColumn([Column(name, RowNumbers(n))] + rest)
  {
    RowNumbersCount(n);
  }
}
