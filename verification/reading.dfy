/** The CSV reader call of `_clean_and_format_table`
    (src/main/tablebeautifier/utils/table_formatter.py, lines 218-246): blank lines are
    skipped, each line is cut at the chosen separator (the whitespace-run pattern cuts
    the stripped line), surrounding whitespace is dropped from each field, an empty field
    is missing, and the rows are assembled into a grid. */
module Reading {
  import opened Results
  import opened Text
  import opened Separators
  import opened Frames

  /** One field as read: missing when it is blank, otherwise without surrounding
      whitespace. */
  function ReadCell(field: string): (c: Cell)
    ensures c == None <==> IsBlank(field)
    ensures c.Some? ==> Trimmed(c.value) && c.value == Strip(field)
  {
    var s := Strip(field);
    if s == [] then None
    else
      StripFacts(field);
      Some(s)
  }

  function ReadRow(line: string, d: Delimiter): (row: seq<Cell>)
    ensures |row| == |Fields(line, d)|
    ensures forall j :: 0 <= j < |row| ==> row[j] == ReadCell(Fields(line, d)[j])
  {
    var fields := Fields(line, d);
    seq(|fields|, j requires 0 <= j < |fields| => ReadCell(fields[j]))
  }

  /** The rows of the non-blank lines, in order. */
  function ReadRows(text: string, d: Delimiter): (rows: seq<seq<Cell>>)
    ensures |rows| == |NonBlankLines(SplitLines(text))|
  {
    var lines := NonBlankLines(SplitLines(text));
    seq(|lines|, i requires 0 <= i < |lines| => ReadRow(lines[i], d))
  }

  /** `pd.read_csv(text, sep=d, header=None, skip_blank_lines=True, skipinitialspace=True,
      dtype=str)`. */
  function ReadGrid(text: string, d: Delimiter): (r: Result<Grid, ParseError>)
    ensures r.Ok? ==> ValidGrid(r.value) && r.value.height == |NonBlankLines(SplitLines(text))|
  {
    ToGrid(ReadRows(text, d))
  }

  /** Trimmed cells joined by a separator they do not contain are read back as the same
      cells, all present. */
  lemma ReadRowOfJoin(cells: seq<string>, d: Delimiter)
    requires d != MultiSpace && |cells| >= 1
    requires forall i :: 0 <= i < |cells| ==> Trimmed(cells[i]) && CharOf(d) !in cells[i]
    ensures var row := ReadRow(Join(cells, [CharOf(d)]), d);
      |row| == |cells| && forall j :: 0 <= j < |cells| ==> row[j] == Some(cells[j])
  {
    FieldsOfJoin(cells, d);
    forall j | 0 <= j < |cells| ensures ReadCell(cells[j]) == Some(cells[j]) {
      TrimmedStrip(cells[j]);
    }
  }

  /** A line of cells separated by whitespace runs is read back as those cells, all
      present, whatever whitespace surrounds the line. */
  lemma ReadRowOfSpacedLine(pad1: string, cells: seq<string>, sep: string, pad2: string)
    requires IsBlank(pad1) && IsBlank(pad2) && |sep| >= 2 && IsBlank(sep) && |cells| >= 1
    requires forall i :: 0 <= i < |cells| ==> Trimmed(cells[i]) && !HasMultiSpace(cells[i])
    ensures var row := ReadRow(pad1 + Join(cells, sep) + pad2, MultiSpace);
      |row| == |cells| && forall j :: 0 <= j < |cells| ==> row[j] == Some(cells[j])
  {
    FieldsOfSpacedLine(pad1, cells, sep, pad2);
    forall j | 0 <= j < |cells| ensures ReadCell(cells[j]) == Some(cells[j]) {
      TrimmedStrip(cells[j]);
    }
  }
}
