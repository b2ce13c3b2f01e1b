/** The text clean-up and separator choice of the older formatter's
    `_clean_and_format_table` (backup/table_formatter.py, lines 102-114 and 143-156): lines
    that open like a Markdown divider go, each line loses its edge pipes, the lines are
    joined back as they are, and the separator is the first of pipe, tab, semicolon and
    whitespace run found anywhere in the text, comma otherwise. */
module BackupCleaning {
  import opened Text
  import opened Patterns
  import opened Separators
  import Cleaning

  /** The position of the first non-space at or after `i`. */
  function SkipSpaces(s: string, i: nat): (j: nat)
    requires i <= |s|
    ensures i <= j <= |s|
    decreases |s| - i
  {
    if i < |s| && IsSpace(s[i]) then SkipSpaces(s, i + 1) else i
  }

  /** Past one `c` at `i`, if it is there. */
  function SkipChar(s: string, i: nat, c: char): (j: nat)
    requires i <= |s|
    ensures j == if i < |s| && s[i] == c then i + 1 else i
  {
    if i < |s| && s[i] == c then i + 1 else i
  }

  /** The position of the first non-dash at or after `i`. */
  function SkipDashes(s: string, i: nat): (j: nat)
    requires i <= |s|
    ensures i <= j <= |s|
    decreases |s| - i
  {
    if i < |s| && s[i] == '-' then SkipDashes(s, i + 1) else i
  }

  /** `re.match(r"^\s*\|?\s*:?-+:?\s*\|", line)`: the line opens with a dash cell closed by
      a pipe. No step of the pattern can give back what it took and still let the next
      step match (a pipe, colon or dash is never whitespace, and a dash is not a colon),
      so reading each step greedily, as here, decides the match. */
  predicate OpensWithDivider(line: string) {
    var a := SkipChar(line, SkipSpaces(line, 0), '|');
    var b := SkipChar(line, SkipSpaces(line, a), ':');
    var c := SkipDashes(line, b);
    c > b && var e := SkipSpaces(line, SkipChar(line, c, ':'));
    e < |line| && line[e] == '|'
  }

  /** A line that opens like a divider holds a pipe. */
  lemma DividerHasPipe(line: string)
    requires OpensWithDivider(line)
    ensures '|' in line
  {
    var a := SkipChar(line, SkipSpaces(line, 0), '|');
    var b := SkipChar(line, SkipSpaces(line, a), ':');
    var e := SkipSpaces(line, SkipChar(line, SkipDashes(line, b), ':'));
    assert line[e] == '|';
  }

  lemma {:induction false} SkipSpacesOver(s: string, i: nat, j: nat)
    requires i <= j <= |s|
    requires forall k :: i <= k < j ==> IsSpace(s[k])
    requires j < |s| ==> !IsSpace(s[j])
    ensures SkipSpaces(s, i) == j
    decreases j - i
  {
    if i < j {
      SkipSpacesOver(s, i + 1, j);
    }
  }

  lemma {:induction false} SkipDashesOver(s: string, i: nat, j: nat)
    requires i <= j <= |s|
    requires forall k :: i <= k < j ==> s[k] == '-'
    requires j < |s| ==> s[j] != '-'
    ensures SkipDashes(s, i) == j
    decreases j - i
  {
    if i < j {
      SkipDashesOver(s, i + 1, j);
    }
  }

  /** A line whose first non-space character is not a pipe, colon or dash is kept. */
  lemma OtherLinesKept(line: string, i: nat)
    requires i < |line| && IsBlank(line[..i]) && !IsSpace(line[i])
    requires line[i] != '|' && line[i] != ':' && line[i] != '-'
    ensures !OpensWithDivider(line)
  {
    assert forall k :: 0 <= k < i ==> IsSpace(line[..i][k]);
    SkipSpacesOver(line, 0, i);
    SkipSpacesOver(line, i, i);
  }

  /** A pipe, optional whitespace, a run of dashes, optional whitespace and a pipe open a
      divider, whatever follows. */
  lemma DashCellOpensDivider(sp1: string, dashes: string, sp2: string, rest: string)
    requires IsBlank(sp1) && IsBlank(sp2)
    requires dashes != [] && forall i :: 0 <= i < |dashes| ==> dashes[i] == '-'
    ensures OpensWithDivider("|" + sp1 + dashes + sp2 + "|" + rest)
  {
    var line := "|" + sp1 + dashes + sp2 + "|" + rest;
    var p1 := 1 + |sp1|;
    var p2 := p1 + |dashes|;
    var p3 := p2 + |sp2|;
    assert forall k :: 1 <= k < p1 ==> line[k] == sp1[k - 1];
    assert forall k :: p1 <= k < p2 ==> line[k] == dashes[k - p1];
    assert forall k :: p2 <= k < p3 ==> line[k] == sp2[k - p2];
    assert line[0] == '|' && line[p1] == dashes[0] && line[p3] == '|';
    SkipSpacesOver(line, 0, 0);
    SkipSpacesOver(line, 1, p1);
    SkipDashesOver(line, p1, p2);
    if sp2 != [] {
      assert line[p2] == sp2[0];
    }
    SkipSpacesOver(line, p2, p3);
  }

  /** A Markdown divider row opens like one. */
  lemma DividerRowDropped()
    ensures OpensWithDivider("|---|---|")
  {
    DashCellOpensDivider([], "---", [], "---|");
    assert "|" + [] + "---" + [] + "|" + "---|" == "|---|---|";
  }

  /** So does a data row whose first cell is a lone dash, a common mark for a missing
      value: the pattern is anchored only at the start, so that row is dropped too. */
  lemma DashCellRowDropped()
    ensures OpensWithDivider("| - | 5 |")
  {
    DashCellOpensDivider(" ", "-", " ", " 5 |");
    assert "|" + " " + "-" + " " + "|" + " 5 |" == "| - | 5 |";
  }

  /** The lines kept, each without its edge pipes. */
  function BackupCleanLines(raw: string): (r: seq<string>)
    ensures |r| <= |SplitLines(raw)|
  {
    Cleaning.EdgeStripAll(Cleaning.DropLines(SplitLines(raw), OpensWithDivider))
  }

  /** `table_text`: the cleaned lines joined, with nothing stripped. */
  function BackupTableText(raw: string): string {
    Join(BackupCleanLines(raw), "\n")
  }

  /** A block without a pipe is handed to the reader as it is (less a final "\n"). */
  lemma PipeFreeBlockUnchanged(raw: string)
    requires '|' !in raw && OnlyNewlines(raw)
    ensures BackupTableText(raw) == DropFinalNewline(raw)
  {
    var lines := SplitLines(raw);
    Cleaning.PipeFreeLines(raw);
    forall i | 0 <= i < |lines| ensures !OpensWithDivider(lines[i]) {
      if OpensWithDivider(lines[i]) {
        DividerHasPipe(lines[i]);
      }
    }
    Cleaning.DropLinesNone(lines, OpensWithDivider);
    Cleaning.EdgeStripNone(lines);
    SplitLinesJoin(raw);
  }

  /** A block made of divider-opening lines leaves no text. */
  lemma DividersOnlyLeaveNothing(raw: string)
    requires forall i :: 0 <= i < |SplitLines(raw)| ==> OpensWithDivider(SplitLines(raw)[i])
    ensures BackupTableText(raw) == []
  {
    Cleaning.DropLinesAll(SplitLines(raw), OpensWithDivider);
  }

  // ---------------------------------------------------------------------------------
  // The separator
  // ---------------------------------------------------------------------------------

  /** `_detect_delimiter` of the older formatter: the whole text is searched, pipe first,
      then tab, semicolon, and a run of two whitespace characters. */
  function PickDelimiter(text: string): (d: Delimiter)
    ensures d == Pipe <==> '|' in text
    ensures d == Tab <==> '|' !in text && '\t' in text
    ensures d == Semicolon <==> '|' !in text && '\t' !in text && ';' in text
    ensures d == MultiSpace <==> '|' !in text && '\t' !in text && ';' !in text && HasMultiSpace(text)
    ensures d == Comma <==> '|' !in text && '\t' !in text && ';' !in text && !HasMultiSpace(text)
  {
    if '|' in text then Pipe
    else if '\t' in text then Tab
    else if ';' in text then Semicolon
    else if HasMultiSpace(text) then MultiSpace
    else Comma
  }

  /** The search spans line ends: a space at the end of a line followed by the line break
      is a whitespace run, so text with no pipe, tab or semicolon is then cut on
      whitespace runs rather than commas, whatever its commas. */
  lemma LineEndSpaceMeansRuns(a: string, b: string)
    requires '|' !in a + " \n" + b && '\t' !in a + " \n" + b && ';' !in a + " \n" + b
    ensures PickDelimiter(a + " \n" + b) == MultiSpace
  {
    var text := a + " \n" + b;
    assert text[|a|] == ' ' && text[|a| + 1] == '\n';
    assert SpacePairAt(text, |a|);
    HasMultiSpaceAt(text);
  }
}
