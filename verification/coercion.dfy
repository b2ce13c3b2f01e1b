/** Numeric coercion of the current formatter
    (src/main/tablebeautifier/utils/table_formatter.py, lines 272-296): every column is
    stripped; commas are taken out of its cells when some cell has a digit-comma-digit
    run; and the column turns numeric when at least 60% of its non-empty cells read as
    numbers. A missing cell enters the loop as the text "nan" (`astype(str)`), so it
    counts as a non-empty cell that is not a number. A numeric column keeps the readable
    cells and loses the rest; a text column keeps its stripped cells, with "nan" for the
    missing ones and "" for blank ones. */
module Coercion {
  import opened Results
  import opened Text
  import opened Numbers
  import opened Patterns
  import opened Frames
  import opened Header
  import RowIndex

  /** A column after coercion; `numeric` says whether it was converted. */
  datatype OutColumn = OutColumn(name: string, numeric: bool, cells: seq<Cell>)

  function OutCells(c: OutColumn): seq<Cell> {
    c.cells
  }

  /** The text `str(NaN)` gives. */
  const NanText: string := "nan"

  /** `.astype(str).str.strip().replace({"": NA})` on one cell: a missing cell becomes
      "nan", a blank one becomes missing, any other is stripped. */
  function Clean(c: Cell): (r: Cell)
    ensures r.Some? ==> Trimmed(r.value)
    ensures c.Some? && r.Some? ==> r.value == Strip(c.value)
    ensures c.None? ==> r == Some(NanText)
    ensures r == None <==> c.Some? && IsBlank(c.value)
  {
    match c
    case None => Some(NanText)
    case Some(v) =>
      var s := Strip(v);
      if s == [] then None
      else
        StripFacts(v);
        Some(s)
  }

  function CleanCells(cells: seq<Cell>): (r: seq<Cell>)
    ensures |r| == |cells| && forall i :: 0 <= i < |cells| ==> r[i] == Clean(cells[i])
  {
    seq(|cells|, i requires 0 <= i < |cells| => Clean(cells[i]))
  }

  /** `cleaned.str.contains(r"\d,\d").any()`. */
  predicate HasThousands(cleaned: seq<Cell>) {
    exists i :: 0 <= i < |cleaned| && cleaned[i].Some? && HasDigitCommaDigit(cleaned[i].value)
  }

  /** A cleaned cell as handed to `pd.to_numeric`, and what comes back: the cell when it
      reads as a number, missing otherwise. */
  function NumericCell(c: Cell, thousands: bool): (r: Cell)
    ensures r.Some? ==> IsNumber(r.value)
  {
    match c
    case None => None
    case Some(v) =>
      var candidate := if thousands then RemoveChar(v, ',') else v;
      if IsNumber(candidate) then Some(candidate) else None
  }

  function NumericCells(cleaned: seq<Cell>, thousands: bool): (r: seq<Cell>)
    ensures |r| == |cleaned| && forall i :: 0 <= i < |r| ==> r[i] == NumericCell(cleaned[i], thousands)
  {
    seq(|cleaned|, i requires 0 <= i < |cleaned| => NumericCell(cleaned[i], thousands))
  }

  /** `.notna().sum()`. */
  function CountPresent(cells: seq<Cell>): (n: nat)
    ensures n <= |cells|
    decreases |cells|
  {
    if cells == [] then 0 else (if cells[0].Some? then 1 else 0) + CountPresent(cells[1..])
  }

  /** `.fillna("")`. */
  function Filled(cells: seq<Cell>): (r: seq<Cell>)
    ensures |r| == |cells|
    ensures forall i :: 0 <= i < |cells| ==> r[i] == (if cells[i].Some? then cells[i] else Some([]))
  {
    seq(|cells|, i requires 0 <= i < |cells| => if cells[i].Some? then cells[i] else Some([]))
  }

  /** The 60% rule, `non_na / non_empty >= 0.6`, in exact arithmetic. */
  predicate MostlyNumeric(nonNa: nat, nonEmpty: nat) {
    nonEmpty > 0 && 5 * nonNa >= 3 * nonEmpty
  }

  /** One column through the coercion loop. */
  function Coerce(c: Column): (o: OutColumn)
    ensures o.name == c.name && |o.cells| == |c.cells|
    ensures o.numeric ==> forall i :: 0 <= i < |o.cells| && o.cells[i].Some? ==> IsNumber(o.cells[i].value)
    ensures !o.numeric ==> forall i :: 0 <= i < |o.cells| ==> o.cells[i].Some?
    ensures forall i :: 0 <= i < |c.cells| && c.cells[i] == None ==>
      o.cells[i] == (if o.numeric then None else Some(NanText))
  {
    var cleaned := CleanCells(c.cells);
    var nums := NumericCells(cleaned, HasThousands(cleaned));
    MissingCellsCoerced(c.cells, HasThousands(cleaned));
    if MostlyNumeric(CountPresent(nums), CountPresent(cleaned)) then OutColumn(c.name, true, nums)
    else OutColumn(c.name, false, Filled(cleaned))
  }

  function CoerceAll(cols: seq<Column>): (r: seq<OutColumn>)
    ensures |r| == |cols| && forall j :: 0 <= j < |cols| ==> r[j] == Coerce(cols[j])
  {
    seq(|cols|, j requires 0 <= j < |cols| => Coerce(cols[j]))
  }

  /** A converted column always keeps a value, since at least one cell read as a number. */
  lemma NumericKeepsValue(c: Column)
    requires Coerce(c).numeric
    ensures HasValue(Coerce(c).cells)
  {
    var cleaned := CleanCells(c.cells);
    var nums := NumericCells(cleaned, HasThousands(cleaned));
    PresentSome(nums);
  }

  lemma {:induction false} PresentSome(cells: seq<Cell>)
    requires CountPresent(cells) > 0
    ensures HasValue(cells)
    decreases |cells|
  {
    if !cells[0].Some? {
      PresentSome(cells[1..]);
      var i :| 0 <= i < |cells[1..]| && cells[1..][i].Some?;
      assert cells[i + 1].Some?;
    }
  }

  lemma {:induction false} CountPresentAll(cells: seq<Cell>)
    requires forall i :: 0 <= i < |cells| ==> cells[i].Some?
    ensures CountPresent(cells) == |cells|
    decreases |cells|
  {
    if cells != [] {
      CountPresentAll(cells[1..]);
    }
  }

  lemma {:induction false} CountPresentNone(cells: seq<Cell>)
    requires forall i :: 0 <= i < |cells| ==> cells[i] == None
    ensures CountPresent(cells) == 0
    decreases |cells|
  {
    if cells != [] {
      CountPresentNone(cells[1..]);
    }
  }

  lemma {:induction false} CountPresentSame(a: seq<Cell>, b: seq<Cell>)
    requires |a| == |b| && forall i :: 0 <= i < |a| ==> (a[i].Some? <==> b[i].Some?)
    ensures CountPresent(a) == CountPresent(b)
    decreases |a|
  {
    if a != [] {
      CountPresentSame(a[1..], b[1..]);
    }
  }

  /** Missing cells vote as text: a column of numbers and missing cells whose numbers fill
      less than 60% of it stays text, and shows "nan" where a cell was missing. */
  lemma MissingCellsKeepText(c: Column)
    requires forall i :: 0 <= i < |c.cells| ==> c.cells[i].None? || IsNumber(Strip(c.cells[i].value))
    requires 5 * CountPresent(c.cells) < 3 * |c.cells|
    ensures !Coerce(c).numeric
    ensures forall i :: 0 <= i < |c.cells| && c.cells[i].None? ==> Coerce(c).cells[i] == Some(NanText)
  {
    var cleaned := CleanCells(c.cells);
    var t := HasThousands(cleaned);
    var nums := NumericCells(cleaned, t);
    forall i | 0 <= i < |c.cells| ensures cleaned[i].Some? && (nums[i].Some? <==> c.cells[i].Some?) {
      if c.cells[i].None? {
        NanNotNumber(t);
      } else {
        NumberIsCell(c.cells[i], t);
      }
    }
    CountPresentAll(cleaned);
    CountPresentSame(nums, c.cells);
  }

  /** The characters a number is written with. */
  lemma NumberChars(s: string)
    ensures IsNumber(s) ==> s != []
    ensures IsNumber(s) ==> forall i :: 0 <= i < |s| ==> IsDigit(s[i]) || s[i] == '.' || s[i] == '+' || s[i] == '-'
  {
    if IsNumber(s) {
      NumberCharsOf(s);
    }
  }

  lemma NumberCharsOf(s: string)
    requires IsNumber(s)
    ensures s != []
    ensures forall i :: 0 <= i < |s| ==> IsDigit(s[i]) || s[i] == '.' || s[i] == '+' || s[i] == '-'
  {
    var body := Unsigned(s);
    var k := IndexOf(body, '.');
    var off := |s| - |body|;
    forall i | 0 <= i < |s| ensures IsDigit(s[i]) || s[i] == '.' || s[i] == '+' || s[i] == '-' {
      if i >= off {
        var j := i - off;
        assert s[i] == body[j];
        if j < k {
          assert body[..k][j] == body[j];
        } else if j > k {
          assert body[k + 1..][j - k - 1] == body[j];
        }
      }
    }
  }

  /** A column whose present cells are all numbers, with at least one cell, is converted
      and keeps each number as it was written. */
  lemma AllNumbersConvert(c: Column)
    requires |c.cells| > 0
    requires forall i :: 0 <= i < |c.cells| ==> c.cells[i].Some? && IsNumber(Strip(c.cells[i].value))
    ensures Coerce(c).numeric
    ensures forall i :: 0 <= i < |c.cells| ==> Coerce(c).cells[i] == Some(Strip(c.cells[i].value))
  {
    var cleaned := CleanCells(c.cells);
    var t := HasThousands(cleaned);
    var nums := NumericCells(cleaned, t);
    forall i | 0 <= i < |c.cells| ensures cleaned[i] == Some(Strip(c.cells[i].value)) && nums[i] == cleaned[i] {
      NumberIsCell(c.cells[i], t);
    }
    CountPresentAll(cleaned);
    CountPresentAll(nums);
  }

  lemma NumberIsCell(c: Cell, t: bool)
    requires c.Some? && IsNumber(Strip(c.value))
    ensures Clean(c) == Some(Strip(c.value)) && NumericCell(Clean(c), t) == Clean(c)
  {
    var s := Strip(c.value);
    NumberChars(s);
    assert ',' !in s;
    RemoveCharAbsent(s, ',');
  }

  /** Removing commas keeps every other character. */
  lemma {:induction false} RemoveCharKeeps(s: string, c: char, x: char)
    requires x in s && x != c
    ensures x in RemoveChar(s, c)
    decreases |s|
  {
    if s[0] != x {
      RemoveCharKeeps(s[1..], c, x);
    }
  }

  /** A column whose present cells all hold a letter stays text, with its stripped cells,
      "nan" for the missing ones and "" for the blank ones. */
  lemma WordsStayText(c: Column)
    requires forall i :: 0 <= i < |c.cells| && c.cells[i].Some? ==> HasLetter(Strip(c.cells[i].value))
    ensures !Coerce(c).numeric
    ensures Coerce(c).cells == Filled(CleanCells(c.cells))
  {
    var cleaned := CleanCells(c.cells);
    var t := HasThousands(cleaned);
    var nums := NumericCells(cleaned, t);
    forall i | 0 <= i < |c.cells| ensures nums[i] == None {
      LetterCellNotNumber(c.cells[i], t);
    }
    CountPresentNone(nums);
  }

  lemma LetterCellNotNumber(c: Cell, t: bool)
    requires c.Some? ==> HasLetter(Strip(c.value))
    ensures NumericCell(Clean(c), t) == None
  {
    if Clean(c).Some? {
      var s := Clean(c).value;
      assert HasLetter(s) by {
        if c.None? {
          assert IsLetter(s[0]);
        }
      }
      var k :| 0 <= k < |s| && IsLetter(s[k]);
      var candidate := if t then RemoveChar(s, ',') else s;
      RemoveCharKeeps(s, ',', s[k]);
      assert s[k] in candidate;
      var m :| 0 <= m < |candidate| && candidate[m] == s[k];
      LetterNotNumber(candidate, m);
    }
  }

  /** Where a cell is missing, the numeric reading holds nothing and the text reading
      holds "nan". */
  lemma MissingCellsCoerced(cells: seq<Cell>, t: bool)
    ensures forall i :: 0 <= i < |cells| && cells[i] == None ==>
      NumericCells(CleanCells(cells), t)[i] == None && Filled(CleanCells(cells))[i] == Some(NanText)
  {
    NanNotNumber(t);
  }

  /** "nan" is not read as a number, with or without the comma removal. */
  lemma NanNotNumber(t: bool)
    ensures NumericCell(Some(NanText), t) == None
  {
    assert IsLetter(NanText[0]);
    RemoveCharAbsent(NanText, ',');
    LetterNotNumber(NanText, 0);
  }

  /** Text with a letter does not read as a number. */
  lemma LetterNotNumber(s: string, m: nat)
    requires m < |s| && IsLetter(s[m])
    ensures !IsNumber(s)
  {
    NumberChars(s);
  }

  /** The inserted row numbers survive coercion unchanged, as a numeric column. */
  lemma RowNumbersNumeric(name: string, n: nat)
    requires n > 0
    ensures var o := Coerce(Column(name, RowIndex.RowNumbers(n)));
      o.numeric && o.cells == RowIndex.RowNumbers(n)
  {
    var cells := RowIndex.RowNumbers(n);
    RowCellsAreNumbers(cells, n);
    CleanNumbersUnchanged(Column(name, cells));
  }

  /** A column of numbers written without outer spaces converts to itself. */
  lemma CleanNumbersUnchanged(c: Column)
    requires |c.cells| > 0
    requires forall i :: 0 <= i < |c.cells| ==>
      c.cells[i].Some? && IsNumber(Strip(c.cells[i].value)) && Strip(c.cells[i].value) == c.cells[i].value
    ensures Coerce(c).numeric && Coerce(c).cells == c.cells
  {
    AllNumbersConvert(c);
    var o := Coerce(c);
    assert |o.cells| == |c.cells|;
    forall i | 0 <= i < |c.cells| ensures o.cells[i] == c.cells[i] {
      assert o.cells[i] == Some(Strip(c.cells[i].value));
    }
  }

  lemma RowCellsAreNumbers(cells: seq<Cell>, n: nat)
    requires cells == RowIndex.RowNumbers(n)
    ensures forall i :: 0 <= i < |cells| ==>
      cells[i].Some? && IsNumber(Strip(cells[i].value)) && Strip(cells[i].value) == cells[i].value
  {
    forall i | 0 <= i < |cells|
      ensures cells[i].Some? && IsNumber(Strip(cells[i].value)) && Strip(cells[i].value) == cells[i].value
    {
      RowNumberIsNumber(cells[i], i + 1);
    }
  }

  lemma RowNumberIsNumber(c: Cell, k: nat)
    requires c == Some(NatToString(k))
    ensures IsNumber(Strip(c.value)) && Strip(c.value) == c.value
  {
    StripNoOp(c.value);
    ParseNatToString(k);
  }
}
