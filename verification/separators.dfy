/** The separator choice of `_detect_delimiter`
    (src/main/tablebeautifier/utils/table_formatter.py, lines 311-340) and how a row is
    cut into fields once the separator is chosen. */
module Separators {
  import opened Results
  import opened Text

  /** The separators the reader can be given; `MultiSpace` is the regex `\s{2,}`. */
  datatype Delimiter = Comma | Tab | Semicolon | Pipe | MultiSpace

  /** A separator of one character. */
  type SingleDelimiter = d: Delimiter | d != MultiSpace witness Comma

  /** The single-character separators, in the order they are counted. */
  const Candidates: seq<SingleDelimiter> := [Comma, Tab, Semicolon, Pipe]

  function CharOf(d: Delimiter): char
    requires d != MultiSpace
  {
    match d
    case Comma => ','
    case Tab => '\t'
    case Semicolon => ';'
    case Pipe => '|'
  }

  /** Position of a single-character separator in `Candidates`. */
  function Rank(d: Delimiter): (k: nat)
    requires d != MultiSpace
    ensures k < |Candidates| && Candidates[k] == d
  {
    match d
    case Comma => 0
    case Tab => 1
    case Semicolon => 2
    case Pipe => 3
  }

  /** The first non-blank line, stripped; the stripped text when every line is blank. */
  function FirstContentLine(text: string): (first: string)
    ensures first == [] || Trimmed(first)
  {
    var lines := NonBlankLines(SplitLines(text));
    if lines != [] then Strip(lines[0]) else Strip(text)
  }

  /** How often the separator occurs in a line. */
  function Occurrences(line: string, d: Delimiter): nat
    requires d != MultiSpace
  {
    CountChar(line, CharOf(d))
  }

  function Counts(line: string): (c: seq<nat>)
    ensures |c| == |Candidates|
    ensures forall k :: 0 <= k < |c| ==> c[k] == Occurrences(line, Candidates[k])
  {
    seq(|Candidates|, k requires 0 <= k < |Candidates| => Occurrences(line, Candidates[k]))
  }

  /** Python's `max` with a key: the first position holding the largest value. */
  function ArgMax(c: seq<nat>): (k: nat)
    requires |c| >= 1
    ensures k < |c|
    ensures forall j :: 0 <= j < |c| ==> c[j] <= c[k]
    ensures forall j :: 0 <= j < k ==> c[j] < c[k]
    decreases |c|
  {
    if |c| == 1 then 0
    else
      var k := ArgMax(c[..|c| - 1]);
      if c[|c| - 1] > c[k] then |c| - 1 else k
  }

  /** `_detect_delimiter`: the multi-space pattern when the first content line has a
      whitespace run and no separator occurs twice in it; otherwise the most frequent
      separator of that line, the earliest of `, \t ; |` on a tie, with the comma as the
      fallback when none occurs. */
  function DetectDelimiter(text: string): (d: Delimiter)
    ensures var first := FirstContentLine(text);
      d == MultiSpace <==> HasMultiSpace(first) && forall e :: e in Candidates ==> Occurrences(first, e) < 2
    ensures var first := FirstContentLine(text);
      d != MultiSpace ==>
        (forall e :: e in Candidates ==> Occurrences(first, e) <= Occurrences(first, d))
        && (forall j :: 0 <= j < Rank(d) ==> Occurrences(first, Candidates[j]) < Occurrences(first, d))
  {
    var first := FirstContentLine(text);
    ChooseMeets(first);
    Choose(first)
  }

  /** The choice made on the first content line. */
  function Choose(first: string): Delimiter {
    var c := Counts(first);
    var k := ArgMax(c);
    if HasMultiSpace(first) && c[k] < 2 then MultiSpace
    else if c[k] >= 1 then Candidates[k]
    else Comma
  }

  lemma ChooseMeets(first: string)
    ensures Choose(first) == MultiSpace <==>
      HasMultiSpace(first) && forall e :: e in Candidates ==> Occurrences(first, e) < 2
    ensures Choose(first) != MultiSpace ==>
      (forall e :: e in Candidates ==> Occurrences(first, e) <= Occurrences(first, Choose(first)))
      && (forall j :: 0 <= j < Rank(Choose(first)) ==>
            Occurrences(first, Candidates[j]) < Occurrences(first, Choose(first)))
  {
    var c := Counts(first);
    var k := ArgMax(c);
    CountsBound(first, k);
    var top := Candidates[k];
    var m := Occurrences(first, top);
    assert c[k] == m;
    if HasMultiSpace(first) && m < 2 {
      assert Choose(first) == MultiSpace;
    } else if m >= 1 {
      assert Choose(first) == top;
      forall j | 0 <= j < Rank(top) ensures Occurrences(first, Candidates[j]) < m {
        assert c[j] < c[k];
      }
      assert HasMultiSpace(first) ==> m >= 2;
    } else {
      assert Choose(first) == Comma;
      assert Occurrences(first, Comma) == c[0];
    }
  }

  /** The largest count bounds every separator's occurrences, and the comma's count is
      the first one. */
  lemma CountsBound(first: string, k: nat)
    requires k < |Candidates|
    requires forall j :: 0 <= j < |Candidates| ==> Counts(first)[j] <= Counts(first)[k]
    ensures forall e :: e in Candidates ==> Occurrences(first, e) <= Counts(first)[k]
    ensures Counts(first)[0] == Occurrences(first, Comma) && Rank(Candidates[k]) == k
    ensures Candidates[k] in Candidates && Counts(first)[k] == Occurrences(first, Candidates[k])
  {
    forall e | e in Candidates ensures Occurrences(first, e) <= Counts(first)[k] {
      assert Counts(first)[Rank(e)] == Occurrences(first, e);
    }
  }

  /** The two properties above pin the separator down: no other choice meets them. */
  lemma DelimiterUnique(first: string, d1: Delimiter, d2: Delimiter)
    requires d1 != MultiSpace && d2 != MultiSpace
    requires forall e :: e in Candidates ==> Occurrences(first, e) <= Occurrences(first, d1)
    requires forall e :: e in Candidates ==> Occurrences(first, e) <= Occurrences(first, d2)
    requires forall j :: 0 <= j < Rank(d1) ==> Occurrences(first, Candidates[j]) < Occurrences(first, d1)
    requires forall j :: 0 <= j < Rank(d2) ==> Occurrences(first, Candidates[j]) < Occurrences(first, d2)
    ensures d1 == d2
  {
    assert Candidates[Rank(d1)] == d1 && Candidates[Rank(d2)] == d2;
  }

  /** A line with no separator and no whitespace run is read with the comma, so as one
      field. */
  lemma NoSeparatorMeansComma(text: string)
    requires var first := FirstContentLine(text);
      !HasMultiSpace(first) && forall e :: e in Candidates ==> Occurrences(first, e) == 0
    ensures DetectDelimiter(text) == Comma
  {
    var d := DetectDelimiter(text);
    if d != MultiSpace {
      assert Candidates[0] == Comma;
      assert Rank(d) == 0;
    }
  }

  /** The fields of one line for the chosen separator. A single character cuts the line
      as it is; the whitespace-run pattern is a regex, and the python engine splits the
      stripped line with it (`re.split(sep, line.strip())`). */
  function Fields(line: string, d: Delimiter): (r: seq<string>)
    ensures |r| >= 1
  {
    if d == MultiSpace then SplitMultiSpace(Strip(line)) else Split(line, CharOf(d))
  }

  /** Cells separated by whitespace runs are read back whatever whitespace surrounds the
      line, so an indented later line has as many fields as the first. */
  lemma FieldsOfSpacedLine(pad1: string, cells: seq<string>, sep: string, pad2: string)
    requires IsBlank(pad1) && IsBlank(pad2) && |sep| >= 2 && IsBlank(sep) && |cells| >= 1
    requires forall i :: 0 <= i < |cells| ==> Trimmed(cells[i]) && !HasMultiSpace(cells[i])
    ensures Fields(pad1 + Join(cells, sep) + pad2, MultiSpace) == cells
  {
    var line := Join(cells, sep);
    JoinEnds(cells, sep);
    StripPadded(pad1, line, pad2);
    SplitMultiSpaceJoin(cells, sep);
  }

  /** Fields joined by a single-character separator they do not contain are cut back
      into the same fields. */
  lemma FieldsOfJoin(cells: seq<string>, d: Delimiter)
    requires d != MultiSpace && |cells| >= 1
    requires forall i :: 0 <= i < |cells| ==> CharOf(d) !in cells[i]
    ensures Fields(Join(cells, [CharOf(d)]), d) == cells
  {
    JoinSplit(cells, CharOf(d));
  }
}
