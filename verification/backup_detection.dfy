/** The line classifier `_looks_like_table_line` and the gate `is_table_like` of the older
    formatter kept under backup/ (backup/table_formatter.py, lines 12-25 and 64-93). Its
    delimiter and multi-space rules are those of the current classifier; what differs is
    the pipe handling: only a line that starts and ends with a pipe is decided by its pipe
    cells, and elsewhere `|` is one more delimiter. */
module BackupDetection {
  import opened Text
  import opened Detection

  /** The delimiters the classifier tries, in its order. */
  const BackupDelimiters: seq<char> := [',', '\t', '|', ';']

  /** `re.match(r"^\|.*\|$", s)` on a stripped line: a pipe at both ends and no `\n`
      between them (`.` stops at `\n`). */
  predicate PipeRow(s: string) {
    |s| >= 2 && s[0] == '|' && s[|s| - 1] == '|' && '\n' !in s
  }

  /** `s.strip("|")`: every pipe off both ends. */
  function StripPipes(s: string): (r: string)
    ensures |r| <= |s|
    ensures r == [] || (r[0] != '|' && r[|r| - 1] != '|')
    decreases |s|
  {
    if s != [] && s[0] == '|' then StripPipes(s[1..])
    else if s != [] && s[|s| - 1] == '|' then StripPipes(s[..|s| - 1])
    else s
  }

  /** What `strip("|")` leaves is the text less a run of pipes at each end. */
  lemma {:induction false} StripPipesSlice(s: string) returns (i: nat)
    ensures PipesAround(s, i, StripPipes(s))
    decreases |s|
  {
    var r := StripPipes(s);
    if s != [] && s[0] == '|' {
      assert r == StripPipes(s[1..]);
      var j := StripPipesSlice(s[1..]);
      PipesAroundFront(s, j, r);
      i := j + 1;
    } else if s != [] && s[|s| - 1] == '|' {
      assert r == StripPipes(s[..|s| - 1]);
      i := StripPipesSlice(s[..|s| - 1]);
      PipesAroundBack(s, i, r);
    } else {
      i := 0;
    }
  }

  /** `r` sits at `i` in `s` with only pipes on either side. */
  predicate PipesAround(s: string, i: nat, r: string) {
    i + |r| <= |s| && r == s[i..i + |r|]
    && (forall k :: 0 <= k < i ==> s[k] == '|')
    && (forall k :: i + |r| <= k < |s| ==> s[k] == '|')
  }

  /** A pipe put in front moves the middle one place right. */
  lemma PipesAroundFront(s: string, j: nat, r: string)
    requires s != [] && s[0] == '|' && PipesAround(s[1..], j, r)
    ensures PipesAround(s, j + 1, r)
  {
    var t := s[1..];
    assert s[j + 1..j + 1 + |r|] == t[j..j + |r|];
    forall k | 0 <= k < j + 1 ensures s[k] == '|' {
      if k > 0 {
        assert s[k] == t[k - 1];
      }
    }
    forall k | j + 1 + |r| <= k < |s| ensures s[k] == '|' {
      assert s[k] == t[k - 1];
    }
  }

  /** A pipe put at the back leaves the middle where it is. */
  lemma PipesAroundBack(s: string, i: nat, r: string)
    requires s != [] && s[|s| - 1] == '|' && PipesAround(s[..|s| - 1], i, r)
    ensures PipesAround(s, i, r)
  {
    var t := s[..|s| - 1];
    assert s[i..i + |r|] == t[i..i + |r|];
    forall k | 0 <= k < i ensures s[k] == '|' {
      assert s[k] == t[k];
    }
    forall k | i + |r| <= k < |s| ensures s[k] == '|' {
      if k < |t| {
        assert s[k] == t[k];
      }
    }
  }

  /** A pipe row counts when at least two of its cells are non-empty. */
  predicate PipeCellsRule(s: string) {
    NonEmptyCount(Split(StripPipes(s), '|')) >= 2
  }

  predicate AnyBackupDelimiterRule(s: string) {
    exists i :: 0 <= i < |BackupDelimiters| && DelimiterRule(s, BackupDelimiters[i])
  }

  /** The rules applied to the stripped line. */
  predicate BackupLineRule(s: string) {
    if PipeRow(s) then PipeCellsRule(s) else AnyBackupDelimiterRule(s) || MultiSpaceRule(s)
  }

  /** `_looks_like_table_line` of the older formatter. */
  predicate BackupLooksLikeTableLine(line: string) {
    !IsBlank(line) && BackupLineRule(Strip(line))
  }

  lemma AnyDelimiterCases(s: string)
    ensures AnyDelimiterRule(s) <==>
      DelimiterRule(s, ',') || DelimiterRule(s, '\t') || DelimiterRule(s, ';') || DelimiterRule(s, '|')
  {
    assert Delimiters[0] == ',' && Delimiters[1] == '\t' && Delimiters[2] == ';' && Delimiters[3] == '|';
  }

  lemma AnyBackupDelimiterCases(s: string)
    ensures AnyBackupDelimiterRule(s) <==>
      DelimiterRule(s, ',') || DelimiterRule(s, '\t') || DelimiterRule(s, ';') || DelimiterRule(s, '|')
  {
    assert BackupDelimiters[0] == ',' && BackupDelimiters[1] == '\t';
    assert BackupDelimiters[2] == '|' && BackupDelimiters[3] == ';';
  }

  /** On a line without a pipe the two formatters classify alike: the pipe handling is
      their only difference. */
  lemma PipeFreeLinesAgree(line: string)
    requires '|' !in Strip(line)
    ensures BackupLooksLikeTableLine(line) <==> LooksLikeTableLine(line)
  {
    var s := Strip(line);
    if |s| >= 2 {
      assert s[0] in s;
    }
    AnyDelimiterCases(s);
    AnyBackupDelimiterCases(s);
  }

  /** A pipe row whose inner text holds no further pipe has a single cell, so it is never
      a table line, whatever commas or tabs it holds. */
  lemma SingleCellPipeRow(line: string)
    requires PipeRow(Strip(line)) && '|' !in StripPipes(Strip(line))
    ensures !BackupLooksLikeTableLine(line)
  {
    SplitOfPart(StripPipes(Strip(line)), '|');
  }

  /** Three or more trimmed cells free of the delimiter and of pipes, joined by any of the
      four delimiters, pipe included, make a table line. */
  lemma DelimitedCellsAreBackupLine(cells: seq<string>, d: char)
    requires d in BackupDelimiters
    requires |cells| >= MinColumns
    requires forall i :: 0 <= i < |cells| ==> Trimmed(cells[i])
    requires forall i :: 0 <= i < |cells| ==> d !in cells[i] && '|' !in cells[i]
    ensures BackupLooksLikeTableLine(Join(cells, [d]))
  {
    var line := Join(cells, [d]);
    JoinTrimmed(cells, [d]);
    TrimmedStrip(line);
    JoinSplit(cells, d);
    TrimmedNotBlank(cells);
    NonEmptyCountAll(cells);
    DelimiterGuardRedundant(line, d);
    assert line[0] == cells[0][0] && cells[0][0] in cells[0];
    AnyBackupDelimiterCases(line);
  }

  /** Two cells around a single pipe: the current formatter takes the line for a table
      line, the older one does not, since the line is no pipe row, holds one pipe only and
      no other delimiter or whitespace run. */
  lemma SinglePipeLine(a: string, b: string)
    requires Trimmed(a) && Trimmed(b) && !HasMultiSpace(a) && !HasMultiSpace(b)
    requires '|' !in a && ',' !in a && '\t' !in a && ';' !in a
    requires '|' !in b && ',' !in b && '\t' !in b && ';' !in b
    ensures LooksLikeTableLine(a + "|" + b)
    ensures !BackupLooksLikeTableLine(a + "|" + b)
  {
    assert Join([a, b], "|") == a + "|" + b by {
      assert [a, b][1..] == [b];
    }
    PipeCellsAreTableLine([a, b]);
    SinglePipeNotBackupLine(a, b);
  }

  lemma SinglePipeNotBackupLine(a: string, b: string)
    requires Trimmed(a) && Trimmed(b) && !HasMultiSpace(a) && !HasMultiSpace(b)
    requires '|' !in a && ',' !in a && '\t' !in a && ';' !in a
    requires '|' !in b && ',' !in b && '\t' !in b && ';' !in b
    ensures !BackupLooksLikeTableLine(a + "|" + b)
  {
    var line := a + "|" + b;
    assert line[0] == a[0] && a[0] in a;
    assert line[|line| - 1] == b[|b| - 1];
    TrimmedStrip(line);
    assert !PipeRow(line);
    SinglePipeCounts(a, b);
    AnyBackupDelimiterCases(line);
    NoRunAcross(a, '|', b);
  }

  /** The line holds exactly one pipe and none of the other delimiters. */
  lemma SinglePipeCounts(a: string, b: string)
    requires '|' !in a && ',' !in a && '\t' !in a && ';' !in a
    requires '|' !in b && ',' !in b && '\t' !in b && ';' !in b
    ensures CountChar(a + "|" + b, '|') == 1
    ensures CountChar(a + "|" + b, ',') == 0 && CountChar(a + "|" + b, '\t') == 0
    ensures CountChar(a + "|" + b, ';') == 0
  {
    forall c | c in "|,\t;" ensures CountChar(a + "|" + b, c) == CountChar(a, c) + CountChar("|", c) + CountChar(b, c) {
      CountCharConcat(a + "|", b, c);
      CountCharConcat(a, "|", c);
    }
    assert '|' in "|,\t;" && ',' in "|,\t;" && '\t' in "|,\t;" && ';' in "|,\t;";
    CountCharZero(a, '|');
    CountCharZero(b, '|');
    CountCharZero(a, ',');
    CountCharZero(b, ',');
    CountCharZero(a, '\t');
    CountCharZero(b, '\t');
    CountCharZero(a, ';');
    CountCharZero(b, ';');
  }

  // ---------------------------------------------------------------------------------
  // The gate
  // ---------------------------------------------------------------------------------

  /** Every line stripped. */
  function StripEach(lines: seq<string>): (r: seq<string>)
    ensures |r| == |lines|
    ensures forall i :: 0 <= i < |r| ==> r[i] == Strip(lines[i])
  {
    seq(|lines|, i requires 0 <= i < |lines| => Strip(lines[i]))
  }

  /** `[line.strip() for line in text.strip().splitlines() if line.strip()]`: trimmed,
      non-empty lines. */
  function BackupGateLines(text: string): (r: seq<string>)
    ensures forall i :: 0 <= i < |r| ==> Trimmed(r[i])
  {
    var lines := NonBlankLines(SplitLines(Strip(text)));
    var r := StripEach(lines);
    assert forall i :: 0 <= i < |r| ==> Trimmed(r[i]) by {
      forall i | 0 <= i < |r| ensures Trimmed(r[i]) {
        assert !IsBlank(lines[i]);
      }
    }
    r
  }

  /** How many lines hold `c` (`re.search` of a one-character pattern). */
  function LinesHolding(lines: seq<string>, c: char): (n: nat)
    ensures n <= |lines|
    decreases |lines|
  {
    if lines == [] then 0 else (if c in lines[0] then 1 else 0) + LinesHolding(lines[1..], c)
  }

  /** The one-character patterns of the gate. */
  const GateChars: seq<char> := [',', '\t', '|', ';']

  /** A pattern signals when it is found on at least `n // 2` of the `n` lines. */
  predicate CharSignal(lines: seq<string>) {
    exists i :: 0 <= i < |GateChars| && LinesHolding(lines, GateChars[i]) >= |lines| / 2
  }

  predicate SpaceSignal(lines: seq<string>) {
    LinesWithMultiSpace(lines) >= |lines| / 2
  }

  /** `is_table_like` of the older formatter. */
  predicate BackupIsTableLike(text: string) {
    var lines := BackupGateLines(text);
    |lines| >= 2 && (CharSignal(lines) || SpaceSignal(lines))
  }

  lemma {:induction false} LinesHoldingPositive(lines: seq<string>, c: char, k: nat)
    requires k < |lines| && c in lines[k]
    ensures LinesHolding(lines, c) >= 1
    decreases |lines|
  {
    if k > 0 {
      LinesHoldingPositive(lines[1..], c, k - 1);
    }
  }

  lemma {:induction false} LinesHoldingNone(lines: seq<string>, c: char)
    requires forall k :: 0 <= k < |lines| ==> c !in lines[k]
    ensures LinesHolding(lines, c) == 0
    decreases |lines|
  {
    if lines != [] {
      LinesHoldingNone(lines[1..], c);
    }
  }

  /** The threshold `n // 2` is 1 for two or three lines: one line holding a comma, tab,
      pipe or semicolon is then enough. */
  lemma FewLinesOneSignal(text: string, k: nat, i: nat)
    requires 2 <= |BackupGateLines(text)| <= 3
    requires i < |GateChars| && k < |BackupGateLines(text)| && GateChars[i] in BackupGateLines(text)[k]
    ensures BackupIsTableLike(text)
  {
    LinesHoldingPositive(BackupGateLines(text), GateChars[i], k);
  }

  /** Two or more lines none of which holds a gate character or a whitespace run (plain
      prose) never pass, since the threshold is at least 1. */
  lemma ProseIsNotTableLike(text: string)
    requires forall k, i :: 0 <= k < |BackupGateLines(text)| && 0 <= i < |GateChars| ==>
      GateChars[i] !in BackupGateLines(text)[k]
    requires forall k :: 0 <= k < |BackupGateLines(text)| ==> !HasMultiSpace(BackupGateLines(text)[k])
    ensures !BackupIsTableLike(text)
  {
    var lines := BackupGateLines(text);
    forall i | 0 <= i < |GateChars| ensures LinesHolding(lines, GateChars[i]) == 0 {
      LinesHoldingNone(lines, GateChars[i]);
    }
    LinesWithMultiSpaceNone(lines);
  }

  lemma {:induction false} LinesWithMultiSpacePositive(lines: seq<string>, k: nat)
    requires k < |lines| && HasMultiSpace(lines[k])
    ensures LinesWithMultiSpace(lines) >= 1
    decreases |lines|
  {
    if k > 0 {
      LinesWithMultiSpacePositive(lines[1..], k - 1);
    }
  }

  /** A line holds a comma, tab, pipe or semicolon, or a whitespace run. */
  predicate SignalLine(line: string) {
    HasMultiSpace(line) || exists i :: 0 <= i < |GateChars| && GateChars[i] in line
  }

  /** With two or three lines the threshold is one line, so the gate passes exactly when
      some line holds one of the patterns. */
  lemma FewLinesGate(text: string)
    requires 2 <= |BackupGateLines(text)| <= 3
    ensures BackupIsTableLike(text) <==>
      exists k :: 0 <= k < |BackupGateLines(text)| && SignalLine(BackupGateLines(text)[k])
  {
    var lines := BackupGateLines(text);
    if k :| 0 <= k < |lines| && SignalLine(lines[k]) {
      if HasMultiSpace(lines[k]) {
        LinesWithMultiSpacePositive(lines, k);
      } else {
        var i :| 0 <= i < |GateChars| && GateChars[i] in lines[k];
        FewLinesOneSignal(text, k, i);
      }
    } else {
      ProseIsNotTableLike(text);
    }
  }
}
