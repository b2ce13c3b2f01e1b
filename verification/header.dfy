/** Header detection and column naming of the current formatter
    (src/main/tablebeautifier/utils/table_formatter.py, lines 251-258 and 342-375): the
    first row is a header when at least half of its counted cells read as words, a cell
    being counted unless it is missing, blank, "nan" or "null". Character classes are
    modelled on ASCII and on the Latin range the source names explicitly. */
module Header {
  import opened Results
  import opened Text
  import opened Numbers
  import opened Frames

  /** `[A-Za-zÀ-ſ]`. */
  predicate IsLetter(c: char) {
    IsAsciiLetter(c) || ('À' <= c <= 'ſ')
  }

  /** `\w`: letters, digits and the underscore; the multiplication and division signs of
      the Latin range are not letters. */
  predicate IsWordChar(c: char) {
    (IsLetter(c) && c != '×' && c != '÷') || IsDigit(c) || c == '_'
  }

  predicate HasLetter(s: string) {
    exists i :: 0 <= i < |s| && IsLetter(s[i])
  }

  predicate HasDigit(s: string) {
    exists i :: 0 <= i < |s| && IsDigit(s[i])
  }

  /** `[^\w\s]`: a character that is neither a word character nor whitespace. */
  predicate HasSymbol(s: string) {
    exists i :: 0 <= i < |s| && !IsWordChar(s[i]) && !IsSpace(s[i])
  }

  /** A cell that takes part in the vote: present, not blank, and not the text of a
      missing value. */
  predicate Counted(c: Cell) {
    c.Some? && var s := Strip(c.value); s != [] && ToLower(s) != "nan" && ToLower(s) != "null"
  }

  /** A counted cell reads as a header word: no digit, and a letter or a symbol. */
  predicate WordLike(c: Cell)
    requires Counted(c)
  {
    var s := Strip(c.value);
    !HasDigit(s) && (HasLetter(s) || HasSymbol(s))
  }

  function CountedCells(row: seq<Cell>): (n: nat)
    ensures n <= |row|
    decreases |row|
  {
    if row == [] then 0 else (if Counted(row[0]) then 1 else 0) + CountedCells(row[1..])
  }

  function WordCells(row: seq<Cell>): (n: nat)
    ensures n <= CountedCells(row)
    decreases |row|
  {
    if row == [] then 0
    else (if Counted(row[0]) && WordLike(row[0]) then 1 else 0) + WordCells(row[1..])
  }

  /** `_first_row_looks_like_header`: some cell is counted and at least half of the
      counted cells are word-like. */
  predicate FirstRowLooksLikeHeader(row: seq<Cell>) {
    row != [] && CountedCells(row) > 0 && 2 * WordCells(row) >= CountedCells(row)
  }

  /** A row in which every counted cell holds a digit is data, never a header: numbers,
      dates and codes such as "alpha-01" all keep the first row as data. */
  lemma {:induction false} DigitRowIsData(row: seq<Cell>)
    requires forall i :: 0 <= i < |row| && Counted(row[i]) ==> HasDigit(Strip(row[i].value))
    ensures WordCells(row) == 0
    ensures !FirstRowLooksLikeHeader(row)
    decreases |row|
  {
    if row != [] {
      DigitRowIsData(row[1..]);
    }
  }

  /** A row of counted word-like cells, such as a row of column titles, is a header. */
  lemma {:induction false} WordRowIsHeader(row: seq<Cell>)
    requires row != []
    requires forall i :: 0 <= i < |row| ==> Counted(row[i]) && WordLike(row[i])
    ensures CountedCells(row) == |row| == WordCells(row)
    ensures FirstRowLooksLikeHeader(row)
    decreases |row|
  {
    if |row| > 1 {
      WordRowIsHeader(row[1..]);
    }
  }

  /** Missing cells take no part in the vote: appending one changes nothing. */
  lemma {:induction false} MissingCellIgnored(row: seq<Cell>)
    ensures CountedCells(row + [None]) == CountedCells(row)
    ensures WordCells(row + [None]) == WordCells(row)
    decreases |row|
  {
    if row == [] {
      assert row + [None] == [None];
    } else {
      assert (row + [None])[1..] == row[1..] + [None];
      MissingCellIgnored(row[1..]);
    }
  }

  function Indicator(b: bool): nat { if b then 1 else 0 }

  /** The vote over a three-cell row, cell by cell. */
  lemma ThreeCells(a: Cell, b: Cell, c: Cell)
    ensures CountedCells([a, b, c]) == Indicator(Counted(a)) + Indicator(Counted(b)) + Indicator(Counted(c))
    ensures WordCells([a, b, c]) == Indicator(Counted(a) && WordLike(a))
      + Indicator(Counted(b) && WordLike(b)) + Indicator(Counted(c) && WordLike(c))
  {
    assert [a, b, c][1..] == [b, c] && [b, c][1..] == [c] && [c][1..] == [];
    assert CountedCells([c]) == Indicator(Counted(c));
    assert CountedCells([b, c]) == Indicator(Counted(b)) + CountedCells([c]);
    assert CountedCells([a, b, c]) == Indicator(Counted(a)) + CountedCells([b, c]);
    assert WordCells([c]) == Indicator(Counted(c) && WordLike(c));
    assert WordCells([b, c]) == Indicator(Counted(b) && WordLike(b)) + WordCells([c]);
  }

  lemma CodeCell(s: string)
    requires s == "alpha-01"
    ensures Counted(Some(s)) && !WordLike(Some(s))
  {
    TrimmedStrip(s);
    assert IsDigit(s[6]);
  }

  lemma NumberCell(s: string)
    requires s == "150"
    ensures Counted(Some(s)) && !WordLike(Some(s))
  {
    TrimmedStrip(s);
    assert ToLower(s)[0] == '1';
    assert IsDigit(s[0]);
  }

  lemma BooleanCell(s: string)
    requires s == "true"
    ensures Counted(Some(s)) && WordLike(Some(s))
  {
    TrimmedStrip(s);
    assert ToLower(s)[0] == 't';
    assert forall i :: 0 <= i < |s| ==> !IsDigit(s[i]);
    assert IsLetter(s[0]);
  }

  /** `alpha-01;150;true` is data: only "true" reads as a word, one vote in three. */
  lemma MixedCodeRowIsData()
    ensures !FirstRowLooksLikeHeader([Some("alpha-01"), Some("150"), Some("true")])
  {
    ThreeCells(Some("alpha-01"), Some("150"), Some("true"));
    CodeCell("alpha-01");
    NumberCell("150");
    BooleanCell("true");
  }

  /** Every number is written with at least one digit. */
  lemma NumberHasDigit(s: string)
    requires IsNumber(s)
    ensures HasDigit(s)
  {
    var body := Unsigned(s);
    var k := IndexOf(body, '.');
    var off := |s| - |body|;
    assert forall j :: 0 <= j < |body| ==> s[off + j] == body[j];
    if k > 0 {
      assert body[..k][0] == body[0];
      assert IsDigit(s[off]);
    } else {
      assert body[k + 1..][0] == body[k + 1];
      assert IsDigit(s[off + k + 1]);
    }
  }

  /** Missing cells are never counted, so they add nothing to either side of the vote. */
  lemma {:induction false} MissingCellsUncounted(row: seq<Cell>)
    requires forall i :: 0 <= i < |row| ==> row[i] == None
    ensures CountedCells(row) == 0 && WordCells(row) == 0
    decreases |row|
  {
    if row != [] {
      MissingCellsUncounted(row[1..]);
    }
  }

  /** `f"Column_{i+1}"`. */
  function Placeholder(i: nat): (name: string)
    ensures |name| > 7 && name[..7] == "Column_"
  {
    "Column_" + NatToString(i + 1)
  }

  /** Different positions get different placeholder names. */
  lemma PlaceholdersDistinct(i: nat, j: nat)
    requires i != j
    ensures Placeholder(i) != Placeholder(j)
  {
    NatToStringInjective(i + 1, j + 1);
    assert Placeholder(i)[7..] == NatToString(i + 1);
    assert Placeholder(j)[7..] == NatToString(j + 1);
  }

  /** The name a header cell gives its column: its stripped text, "nan" for a missing
      cell (pandas' text for NaN), the placeholder for blank text. */
  function HeaderName(c: Cell, i: nat): (name: string)
    ensures name != []
    ensures c.Some? && !IsBlank(c.value) ==> name == Strip(c.value)
    ensures c.Some? && IsBlank(c.value) ==> name == Placeholder(i)
    ensures c.None? ==> name == "nan"
  {
    match c
    case None => "nan"
    case Some(v) =>
      var h := Strip(v);
      if h == [] then Placeholder(i) else h
  }

  /** A named column of the frame. */
  datatype Column = Column(name: string, cells: seq<Cell>)

  function ColumnCells(c: Column): seq<Cell> {
    c.cells
  }

  /** The columns named from the header row, which leaves the data. */
  function NameFromHeader(g: Grid): (cols: seq<Column>)
    requires ValidGrid(g) && g.height >= 1
    ensures |cols| == |g.columns|
    ensures forall j :: 0 <= j < |cols| ==>
      cols[j].name == HeaderName(g.columns[j][0], j) && cols[j].cells == g.columns[j][1..]
  {
    seq(|g.columns|, j requires 0 <= j < |g.columns| =>
      Column(HeaderName(g.columns[j][0], j), g.columns[j][1..]))
  }

  /** The columns named `Column_1`, `Column_2`, ... with all rows as data. */
  function NamePositional(g: Grid): (cols: seq<Column>)
    ensures |cols| == |g.columns|
    ensures forall j :: 0 <= j < |cols| ==> cols[j] == Column(Placeholder(j), g.columns[j])
  {
    seq(|g.columns|, j requires 0 <= j < |g.columns| => Column(Placeholder(j), g.columns[j]))
  }

  /** Positional names never collide. */
  lemma PositionalNamesDistinct(g: Grid)
    ensures var cols := NamePositional(g);
      forall i, j :: 0 <= i < j < |cols| ==> cols[i].name != cols[j].name
  {
    forall i, j | 0 <= i < j < |g.columns| ensures Placeholder(i) != Placeholder(j) {
      PlaceholdersDistinct(i, j);
    }
  }
}
