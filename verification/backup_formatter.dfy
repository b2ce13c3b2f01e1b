/** The rest of the older formatter's `_clean_and_format_table`, and its
    `process_all_inputs` (backup/table_formatter.py, lines 7, 27-62, 115-141, 158-174):
    comma, tab and semicolon fields are read as they are, the pipe and whitespace-run
    patterns cut the stripped line, the first row becomes the header when at
    least half of its cells are text, a "Row" column numbering the rows is inserted unless
    some column is already named like an index, missing cells are filled with empty text,
    and any block that cannot be read stops the whole scan. */
module BackupFormatter {
  import opened Results
  import opened Text
  import opened Numbers
  import opened Frames
  import opened Separators
  import opened Grouping
  import opened Header
  import opened RowIndex
  import opened BackupDetection
  import opened BackupCleaning

  // ---------------------------------------------------------------------------------
  // Reading
  // ---------------------------------------------------------------------------------

  /** A field as read: an empty field is missing, any other is kept with its spaces. */
  function RawCell(field: string): (c: Cell)
    ensures c == None <==> field == []
    ensures c.Some? ==> c.value == field
  {
    if field == [] then None else Some(field)
  }

  /** How the python engine cuts a line. The separators `\|` and `\s{2,}` are regexes,
      which split the stripped line; a single character goes through the `csv` module,
      which cuts the line as it is. */
  function RawFields(line: string, d: Delimiter): (r: seq<string>)
    ensures |r| >= 1
  {
    if d == Pipe then Split(Strip(line), '|') else Fields(line, d)
  }

  function RawRow(line: string, d: Delimiter): (row: seq<Cell>)
    ensures |row| == |RawFields(line, d)|
    ensures forall j :: 0 <= j < |row| ==> row[j] == RawCell(RawFields(line, d)[j])
  {
    var fields := RawFields(line, d);
    seq(|fields|, j requires 0 <= j < |fields| => RawCell(fields[j]))
  }

  /** `pd.read_csv(text, sep=d, engine="python", header=None, skip_blank_lines=True)`:
      blank lines are skipped and the rest go through the same grid rules as the current
      reader, without stripping the fields. */
  function RawGrid(text: string, d: Delimiter): (r: Result<Grid, ParseError>)
    ensures r.Ok? ==> ValidGrid(r.value) && r.value.height == |NonBlankLines(SplitLines(text))|
  {
    var lines := NonBlankLines(SplitLines(text));
    ToGrid(seq(|lines|, i requires 0 <= i < |lines| => RawRow(lines[i], d)))
  }

  /** Non-empty fields joined by a comma, tab or semicolon they do not hold are read back
      as they are, surrounding spaces included. */
  lemma RawRowOfJoin(cells: seq<string>, d: Delimiter)
    requires (d == Comma || d == Tab || d == Semicolon) && |cells| >= 1
    requires forall i :: 0 <= i < |cells| ==> cells[i] != [] && CharOf(d) !in cells[i]
    ensures var row := RawRow(Join(cells, [CharOf(d)]), d);
      |row| == |cells| && forall j :: 0 <= j < |cells| ==> row[j] == Some(cells[j])
  {
    FieldsOfJoin(cells, d);
  }

  /** With the pipe, whitespace around the line is not read: only the spaces inside it
      stay with their fields. */
  lemma RawPipeRow(pad1: string, cells: seq<string>, pad2: string)
    requires IsBlank(pad1) && IsBlank(pad2) && |cells| >= 1
    requires forall i :: 0 <= i < |cells| ==> cells[i] != [] && '|' !in cells[i]
    requires !IsSpace(cells[0][0]) && var last := cells[|cells| - 1]; !IsSpace(last[|last| - 1])
    ensures var row := RawRow(pad1 + Join(cells, "|") + pad2, Pipe);
      |row| == |cells| && forall j :: 0 <= j < |cells| ==> row[j] == Some(cells[j])
  {
    var line := Join(cells, "|");
    JoinEnds(cells, "|");
    StripPadded(pad1, line, pad2);
    JoinSplit(cells, '|');
  }

  /** With whitespace runs, likewise: an indented line has as many fields as the first. */
  lemma RawSpacedRow(pad1: string, cells: seq<string>, sep: string, pad2: string)
    requires IsBlank(pad1) && IsBlank(pad2) && |sep| >= 2 && IsBlank(sep) && |cells| >= 1
    requires forall i :: 0 <= i < |cells| ==> Trimmed(cells[i]) && !HasMultiSpace(cells[i])
    ensures var row := RawRow(pad1 + Join(cells, sep) + pad2, MultiSpace);
      |row| == |cells| && forall j :: 0 <= j < |cells| ==> row[j] == Some(cells[j])
  {
    FieldsOfSpacedLine(pad1, cells, sep, pad2);
  }

  /** A column pandas reads as numbers: every present cell is a number. */
  predicate NumericTyped(cells: seq<Cell>)
    decreases |cells|
  {
    cells == [] || ((cells[0].None? || IsNumber(Strip(cells[0].value))) && NumericTyped(cells[1..]))
  }

  // ---------------------------------------------------------------------------------
  // Header
  // ---------------------------------------------------------------------------------

  /** A first-row value `_detect_header` counts: text (a present cell of a column not read
      as numbers) that is neither blank nor all digits once stripped. */
  predicate StringLike(column: seq<Cell>) {
    |column| >= 1 && !NumericTyped(column) && column[0].Some?
    && !IsBlank(column[0].value) && !AllDigits(Strip(column[0].value))
  }

  function StringLikeCount(columns: seq<seq<Cell>>): (n: nat)
    ensures n <= |columns|
    decreases |columns|
  {
    if columns == [] then 0
    else (if StringLike(columns[0]) then 1 else 0) + StringLikeCount(columns[1..])
  }

  /** `_detect_header`: an empty frame has none; otherwise the first row is the header
      when at least half of its values are string-like. */
  predicate DetectHeader(g: Grid) {
    g.height >= 1 && |g.columns| >= 1 && 2 * StringLikeCount(g.columns) >= |g.columns|
  }

  lemma {:induction false} StringLikeNone(columns: seq<seq<Cell>>)
    requires forall j :: 0 <= j < |columns| ==> !StringLike(columns[j])
    ensures StringLikeCount(columns) == 0
    decreases |columns|
  {
    if columns != [] {
      StringLikeNone(columns[1..]);
    }
  }

  lemma {:induction false} StringLikeAll(columns: seq<seq<Cell>>)
    requires forall j :: 0 <= j < |columns| ==> StringLike(columns[j])
    ensures StringLikeCount(columns) == |columns|
    decreases |columns|
  {
    if columns != [] {
      StringLikeAll(columns[1..]);
    }
  }

  /** A first row whose cells are all missing or digits is data. */
  lemma DigitFirstRowIsData(g: Grid)
    requires ValidGrid(g) && g.height >= 1 && |g.columns| >= 1
    requires forall j :: 0 <= j < |g.columns| ==>
      g.columns[j][0] == None || AllDigits(Strip(g.columns[j][0].value))
    ensures !DetectHeader(g)
  {
    StringLikeNone(g.columns);
  }

  /** A first row whose cells are all non-blank and not numbers is the header: each of
      its cells also makes its column text. */
  lemma WordFirstRowIsHeader(g: Grid)
    requires ValidGrid(g) && g.height >= 1 && |g.columns| >= 1
    requires forall j :: 0 <= j < |g.columns| ==>
      g.columns[j][0].Some? && !IsBlank(g.columns[j][0].value) && !IsNumber(Strip(g.columns[j][0].value))
    ensures DetectHeader(g)
  {
    forall j | 0 <= j < |g.columns| ensures StringLike(g.columns[j]) {
      var v := g.columns[j][0].value;
      assert !NumericTyped(g.columns[j]);
      DigitsOrNot(Strip(v));
    }
    StringLikeAll(g.columns);
  }

  /** A title over missing cells: the title is the one string-like value. */
  lemma TitleOverMissing(t: string, k: nat)
    requires Trimmed(t) && !IsNumber(t) && !AllDigits(t)
    ensures StringLikeCount([[Some(t)]] + seq(k, _ => [None])) == 1
  {
    var cols: seq<seq<Cell>> := [[Some(t)]] + seq(k, _ => [None]);
    TrimmedStrip(t);
    assert [Some(t)][1..] == [];
    assert StringLike(cols[0]);
    assert cols[1..] == seq(k, _ => [None]);
    StringLikeNone(cols[1..]);
  }

  /** Missing cells count against a header here, where the current formatter leaves them
      out of the vote: a title word over two or more missing cells is data for the older
      formatter and a header for the current one. */
  lemma MissingCellsOutvote(t: string, k: nat)
    requires k >= 2 && Trimmed(t) && Counted(Some(t)) && WordLike(Some(t))
    ensures !DetectHeader(Grid(1, [[Some(t)]] + seq(k, _ => [None])))
    ensures FirstRowLooksLikeHeader([Some(t)] + seq(k, _ => None))
  {
    TrimmedStrip(t);
    assert !HasDigit(t);
    if IsNumber(t) {
      NumberHasDigit(t);
    }
    assert !IsDigit(t[0]);
    TitleOverMissing(t, k);
    var row: seq<Cell> := [Some(t)] + seq(k, _ => None);
    assert row[1..] == seq(k, _ => None);
    MissingCellsUncounted(row[1..]);
  }

  lemma DigitsOrNot(s: string)
    requires s != [] && !IsNumber(s)
    ensures !AllDigits(s)
  {
    if AllDigits(s) {
      DigitsAreNumber(s);
    }
  }

  /** Digits, with at least one when the text is not empty, read as a number. */
  lemma DigitsAreNumber(s: string)
    requires AllDigits(s)
    ensures s != [] ==> IsNumber(s)
  {
    if s != [] {
      var k := IndexOf(s, '.');
      assert forall i :: 0 <= i < |s| ==> s[i] != '.' by {
        forall i | 0 <= i < |s| ensures s[i] != '.' {
          assert IsDigit(s[i]);
        }
      }
      assert k == |s|;
      assert s[0] != '+' && s[0] != '-' by { assert IsDigit(s[0]); }
      assert Unsigned(s) == s;
      assert s[..k] == s;
    }
  }

  /** The name a header cell gives: its stripped text, "nan" when missing. */
  function BackupHeaderName(c: Cell): string {
    match c
    case None => "nan"
    case Some(v) => Strip(v)
  }

  /** The columns named from the first row, which leaves the data, or positionally. */
  function BackupNamed(g: Grid, header: bool): (cols: seq<Column>)
    requires ValidGrid(g) && (header ==> g.height >= 1)
    ensures |cols| == |g.columns|
    ensures forall j :: 0 <= j < |cols| ==> |cols[j].cells| == DataRows(g, header)
  {
    if header then
      seq(|g.columns|, j requires 0 <= j < |g.columns| =>
        Column(BackupHeaderName(g.columns[j][0]), g.columns[j][1..]))
    else NamePositional(g)
  }

  // ---------------------------------------------------------------------------------
  // Row index
  // ---------------------------------------------------------------------------------

  /** `_has_row_index_column`: some column, wherever it stands, is named "#", "row" or "id"
      up to case and surrounding spaces. */
  predicate HasIndexName(cols: seq<Column>) {
    exists j :: 0 <= j < |cols| && IsIndexName(cols[j].name)
  }

  /** `df.insert(0, "Row", range(1, n + 1))` unless an index column is there. */
  function AddRowColumn(cols: seq<Column>, n: nat): (r: seq<Column>)
    ensures HasIndexName(r)
    ensures HasIndexName(cols) ==> r == cols
    ensures !HasIndexName(cols) ==> |r| == |cols| + 1 && r[1..] == cols && r[0] == Column(RowName, RowNumbers(n))
  {
    RowNameIsIndexName();
    if HasIndexName(cols) then cols
    else
      var r := [Column(RowName, RowNumbers(n))] + cols;
      assert IsIndexName(r[0].name);
      r
  }

  /** The inserted column never duplicates a name: "Row" is itself an index name, so a
      frame that gets one had no column named "Row" before. */
  lemma InsertedRowIsUnique(cols: seq<Column>, n: nat)
    requires !HasIndexName(cols)
    ensures var r := AddRowColumn(cols, n);
      r[0].name == RowName && forall j :: 1 <= j < |r| ==> r[j].name != RowName
  {
    RowNameIsIndexName();
  }

  /** Numbering twice numbers once. */
  lemma AddRowColumnIdempotent(cols: seq<Column>, n: nat)
    ensures AddRowColumn(AddRowColumn(cols, n), n) == AddRowColumn(cols, n)
  {
  }

  /** The current formatter only looks at the first column; this one finds an index
      column anywhere, so an "ID" column at the end keeps the frame as it is. */
  lemma IndexAnywhere(cols: seq<Column>, id: seq<Cell>, n: nat)
    ensures AddRowColumn(cols + [Column("ID", id)], n) == cols + [Column("ID", id)]
  {
    var all := cols + [Column("ID", id)];
    StripNoOp("ID");
    assert ToLower("ID") == "id";
    assert IsIndexName(all[|cols|].name);
  }

  // ---------------------------------------------------------------------------------
  // The formatted block
  // ---------------------------------------------------------------------------------

  /** `df.fillna("")`. */
  function Filled(c: Cell): (r: Cell)
    ensures r.Some?
    ensures c.Some? ==> r == c
  {
    if c.None? then Some([]) else c
  }

  function FillColumn(col: Column): (r: Column)
    ensures r.name == col.name && |r.cells| == |col.cells|
    ensures forall i :: 0 <= i < |r.cells| ==> r.cells[i] == Filled(col.cells[i])
  {
    Column(col.name, seq(|col.cells|, i requires 0 <= i < |col.cells| => Filled(col.cells[i])))
  }

  function FillAll(cols: seq<Column>): (r: seq<Column>)
    ensures |r| == |cols| && forall j :: 0 <= j < |r| ==> r[j] == FillColumn(cols[j])
  {
    seq(|cols|, j requires 0 <= j < |cols| => FillColumn(cols[j]))
  }

  /** Filling keeps names and lengths and leaves no cell missing. */
  lemma FillAllFacts(cols: seq<Column>)
    ensures var r := FillAll(cols);
      (HasIndexName(r) <==> HasIndexName(cols))
      && (forall j :: 0 <= j < |r| ==> |r[j].cells| == |cols[j].cells|)
      && (forall j, i :: 0 <= j < |r| && 0 <= i < |r[j].cells| ==> r[j].cells[i].Some?)
  {
    var r := FillAll(cols);
    assert forall j :: 0 <= j < |r| ==> r[j].name == cols[j].name;
  }

  /** Numbering keeps every column at `n` cells. */
  lemma AddRowColumnCells(cols: seq<Column>, n: nat)
    requires forall j :: 0 <= j < |cols| ==> |cols[j].cells| == n
    ensures var r := AddRowColumn(cols, n);
      forall j :: 0 <= j < |r| ==> |r[j].cells| == n
  {
    var r := AddRowColumn(cols, n);
    if !HasIndexName(cols) {
      assert forall j :: 1 <= j < |r| ==> r[j] == cols[j - 1];
    }
  }

  /** The frame that leaves `_clean_and_format_table`, with its row and column counts. */
  datatype Sheet = Sheet(columns: seq<Column>, rows: nat, cols: nat)

  /** The numbered, filled frame of a read grid. */
  function Finished(g: Grid): (s: Sheet)
    requires ValidGrid(g)
  {
    var header := DetectHeader(g);
    Assembled(BackupNamed(g, header), DataRows(g, header))
  }

  /** The rows left once a header row leaves. */
  function DataRows(g: Grid, header: bool): nat
    requires header ==> g.height >= 1
  {
    if header then g.height - 1 else g.height
  }

  /** The named columns of `n` data rows, numbered and filled. */
  function Assembled(named: seq<Column>, n: nat): Sheet {
    var numbered := AddRowColumn(named, n);
    Sheet(FillAll(numbered), n, |numbered|)
  }

  lemma AssembledShape(named: seq<Column>, n: nat)
    requires forall j :: 0 <= j < |named| ==> |named[j].cells| == n
    ensures var s := Assembled(named, n);
      s.rows == n
      && s.cols == |s.columns|
      && s.cols == |named| + (if HasIndexName(named) then 0 else 1)
      && HasIndexName(s.columns)
      && (forall j :: 0 <= j < |s.columns| ==> |s.columns[j].cells| == n)
      && (forall j, i :: 0 <= j < |s.columns| && 0 <= i < |s.columns[j].cells| ==> s.columns[j].cells[i].Some?)
  {
    AddRowColumnCells(named, n);
    FillAllFacts(AddRowColumn(named, n));
  }

  /** `_clean_and_format_table` of the older formatter; only the reader can raise. */
  function BackupCleanAndFormat(raw: string): (r: Result<Sheet, ParseError>)
    ensures r.Err? <==> var text := BackupTableText(raw);
      RawGrid(text, PickDelimiter(text)).Err?
  {
    var text := BackupTableText(raw);
    match RawGrid(text, PickDelimiter(text))
    case Err(e) => Err(e)
    case Ok(g) => Ok(Finished(g))
  }

  /** The sheet keeps every read row but the header, has one more column than the grid
      exactly when a "Row" column went in, holds an index column, and has no missing
      cell. */
  lemma FinishedShape(g: Grid, header: bool)
    requires ValidGrid(g) && header == DetectHeader(g)
    ensures var s := Finished(g);
      s.rows == DataRows(g, header)
      && s.cols == |s.columns|
      && s.cols == |g.columns| + (if HasIndexName(BackupNamed(g, header)) then 0 else 1)
      && HasIndexName(s.columns)
      && (forall j :: 0 <= j < |s.columns| ==> |s.columns[j].cells| == s.rows)
      && (forall j, i :: 0 <= j < |s.columns| && 0 <= i < |s.columns[j].cells| ==> s.columns[j].cells[i].Some?)
  {
    AssembledShape(BackupNamed(g, header), DataRows(g, header));
  }

  /** A block whose lines all open like a divider leaves nothing to read, and the reader
      raises on empty text. */
  lemma DividerOnlyBlockFails(raw: string)
    requires forall i :: 0 <= i < |SplitLines(raw)| ==> OpensWithDivider(SplitLines(raw)[i])
    ensures BackupCleanAndFormat(raw) == Err(NoData)
  {
    DividersOnlyLeaveNothing(raw);
  }

  // ---------------------------------------------------------------------------------
  // The scan
  // ---------------------------------------------------------------------------------

  datatype BackupExtracted = BackupExtracted(context: string, sheet: Sheet)

  datatype BackupOutput = BackupOutput(tables: seq<BackupExtracted>, remaining: string)

  /** The block formatter; `BackupCleanAndFormat` in the formatter itself. */
  type SheetFormat = string -> Result<Sheet, ParseError>

  function BlockText(b: Block): string {
    Join(b.rows, "\n")
  }

  function BlockContext(b: Block): string {
    Strip(Join(b.context, "\n"))
  }

  /** The blocks formatted in order; the first that raises ends the scan with its error. */
  function FormatBlocks(blocks: seq<Block>, format: SheetFormat): (r: Result<seq<BackupExtracted>, ParseError>)
    ensures r.Ok? ==> |r.value| == |blocks|
    decreases |blocks|
  {
    if blocks == [] then Ok([])
    else
      match format(BlockText(blocks[0]))
      case Err(e) => Err(e)
      case Ok(s) =>
        match FormatBlocks(blocks[1..], format)
        case Err(e) => Err(e)
        case Ok(rest) => Ok([BackupExtracted(BlockContext(blocks[0]), s)] + rest)
  }

  /** `format` reads the block. */
  predicate Formats(format: SheetFormat, b: Block) {
    format(BlockText(b)).Ok?
  }

  /** What a block that formats contributes. */
  function Extract(format: SheetFormat, b: Block): BackupExtracted
    requires Formats(format, b)
  {
    BackupExtracted(BlockContext(b), format(BlockText(b)).value)
  }

  /** The scan succeeds exactly when every block formats. */
  lemma {:induction false} FormatBlocksOk(blocks: seq<Block>, format: SheetFormat)
    ensures FormatBlocks(blocks, format).Ok? <==> forall i :: 0 <= i < |blocks| ==> Formats(format, blocks[i])
    decreases |blocks|
  {
    if blocks != [] {
      var tail := blocks[1..];
      FormatBlocksOk(tail, format);
      if Formats(format, blocks[0]) && FormatBlocks(tail, format).Ok? {
        forall i | 1 <= i < |blocks| ensures Formats(format, blocks[i]) {
          assert blocks[i] == tail[i - 1];
        }
      } else if Formats(format, blocks[0]) {
        var k :| 0 <= k < |tail| && !Formats(format, tail[k]);
        assert blocks[k + 1] == tail[k];
      }
    }
  }

  /** A successful scan yields, for each block in order, its own sheet with its own
      context. */
  lemma {:induction false} FormatBlocksValues(blocks: seq<Block>, format: SheetFormat)
    requires FormatBlocks(blocks, format).Ok?
    ensures var r := FormatBlocks(blocks, format).value;
      forall i :: 0 <= i < |blocks| ==> Formats(format, blocks[i]) && r[i] == Extract(format, blocks[i])
    decreases |blocks|
  {
    if blocks != [] {
      var tail := blocks[1..];
      FormatBlocksValues(tail, format);
      assert Formats(format, blocks[0]) && FormatBlocks(tail, format).Ok?;
      var r := FormatBlocks(blocks, format).value;
      var rest := FormatBlocks(tail, format).value;
      assert r == [Extract(format, blocks[0])] + rest;
      assert r[0] == Extract(format, blocks[0]) && r[1..] == rest;
      forall i | 1 <= i < |blocks| ensures Formats(format, blocks[i]) && r[i] == Extract(format, blocks[i]) {
        assert blocks[i] == tail[i - 1];
        assert r[i] == rest[i - 1];
      }
    }
  }

  /** A failed scan reports the error of the first block that raises. */
  lemma {:induction false} FormatBlocksErr(blocks: seq<Block>, format: SheetFormat)
    requires FormatBlocks(blocks, format).Err?
    ensures exists k :: 0 <= k < |blocks| && format(BlockText(blocks[k])) == Err(FormatBlocks(blocks, format).error)
                        && (forall i :: 0 <= i < k ==> format(BlockText(blocks[i])).Ok?)
    decreases |blocks|
  {
    if format(BlockText(blocks[0])).Err? {
      assert format(BlockText(blocks[0])) == Err(FormatBlocks(blocks, format).error);
    } else {
      var tail := blocks[1..];
      FormatBlocksErr(tail, format);
      var k :| 0 <= k < |tail| && format(BlockText(tail[k])) == Err(FormatBlocks(tail, format).error)
        && (forall i :: 0 <= i < k ==> format(BlockText(tail[i])).Ok?);
      assert forall i :: 1 <= i < |blocks| ==> blocks[i] == tail[i - 1];
      assert format(BlockText(blocks[k + 1])) == Err(FormatBlocks(blocks, format).error);
    }
  }

  /** The scan with a given block formatter: no fence is removed and no early return is
      taken for empty text. */
  function BackupProcessWith(text: string, format: SheetFormat): (r: Result<BackupOutput, ParseError>)
    ensures text == [] ==> r == Ok(BackupOutput([], []))
  {
    var g := Group(SplitLines(text), BackupLooksLikeTableLine);
    if text == [] then
      assert g == Grouped([], []) by { GroupIsThePartition([], BackupLooksLikeTableLine, Grouped([], [])); }
      Ok(BackupOutput([], []))
    else
      match FormatBlocks(g.blocks, format)
      case Err(e) => Err(e)
      case Ok(ts) => Ok(BackupOutput(ts, Strip(Join(g.trailing, "\n"))))
  }

  /** `process_all_inputs` of the older formatter. */
  function BackupProcessAllInputs(text: string): Result<BackupOutput, ParseError> {
    BackupProcessWith(text, BackupCleanAndFormat)
  }

  /** A message with no table line comes back whole, stripped, as the remaining text. */
  lemma BackupNoTableLines(text: string, format: SheetFormat)
    requires NoTable(BackupLooksLikeTableLine, SplitLines(text))
    ensures BackupProcessWith(text, format) == Ok(BackupOutput([], Strip(Join(SplitLines(text), "\n"))))
  {
    var lines := SplitLines(text);
    var g := Group(lines, BackupLooksLikeTableLine);
    NoBlocksIffNoTable(lines, BackupLooksLikeTableLine, g);
    assert g.trailing == lines;
    if text == [] {
      assert Join([], "\n") == [];
    }
  }

  /** Any split of the lines into maximal table runs with their contexts gives the same
      result, and the scan succeeds with one sheet per block exactly when every block
      formats. */
  lemma BackupScanOfPartition(text: string, g: Grouped, format: SheetFormat)
    requires text != []
    requires IsPartition(SplitLines(text), BackupLooksLikeTableLine, g)
    ensures var r := BackupProcessWith(text, format);
      (r.Ok? <==> forall i :: 0 <= i < |g.blocks| ==> Formats(format, g.blocks[i]))
      && (r.Ok? ==> |r.value.tables| == |g.blocks| && r.value.remaining == Strip(Join(g.trailing, "\n")))
  {
    GroupIsThePartition(SplitLines(text), BackupLooksLikeTableLine, g);
    FormatBlocksOk(g.blocks, format);
  }
}
