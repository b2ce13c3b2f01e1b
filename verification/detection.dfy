/** The line classifier `_looks_like_table_line` and the quick gate `is_table_like` of the
    current formatter (src/main/tablebeautifier/utils/table_formatter.py, lines 31-36,
    41-78 and 151-186). */
module Detection {
  import opened Text
  import opened Patterns

  /** A delimiter rule needs this many non-empty cells on the line. */
  const MinColumns: nat := 3
  /** ... and this many occurrences of the delimiter. */
  const MinDelims: nat := 2
  /** The candidate delimiters, in the order every scan tries them. */
  const Delimiters: seq<char> := [',', '\t', ';', '|']

  /** Markdown pipe row: after the edge pipes go, at least two non-empty cells. */
  predicate PipeRowRule(s: string) {
    NonEmptyCount(Split(StripEdgePipes(s), '|')) >= 2
  }

  /** Delimiter row: at least two delimiters and at least three non-empty cells. Splitting
      on `\s*d\s*` and trimming yields the same non-empty cells as splitting on `d`. */
  predicate DelimiterRule(s: string, d: char) {
    CountChar(s, d) >= MinDelims && NonEmptyCount(Split(s, d)) >= MinColumns
  }

  predicate AnyDelimiterRule(s: string) {
    exists i :: 0 <= i < |Delimiters| && DelimiterRule(s, Delimiters[i])
  }

  /** Aligned columns: a run of two or more whitespace characters, and at least three
      non-empty parts between such runs. */
  predicate MultiSpaceRule(s: string) {
    HasMultiSpace(s) && NonEmptyCount(SplitMultiSpace(s)) >= MinColumns
  }

  /** The rules applied to the stripped line. A line holding a pipe is decided by the
      pipe rule alone, so the `|` delimiter can never fire in the delimiter scan. */
  predicate StrippedLineRule(s: string) {
    if '|' in s then PipeRowRule(s) else AnyDelimiterRule(s) || MultiSpaceRule(s)
  }

  /** `_looks_like_table_line`. */
  predicate LooksLikeTableLine(line: string) {
    !IsBlank(line) && StrippedLineRule(Strip(line))
  }

  /** The classifier only sees the stripped line. */
  lemma ClassifierSeesStripped(line: string)
    ensures LooksLikeTableLine(Strip(line)) == LooksLikeTableLine(line)
  {
    StripIdempotent(line);
    StripBlank(line);
  }

  /** A trimmed line is a table line when the rules accept it. */
  lemma TrimmedTableLine(line: string)
    requires Trimmed(line) && StrippedLineRule(line)
    ensures LooksLikeTableLine(line)
  {
    TrimmedStrip(line);
  }

  /** The occurrence guard of a delimiter rule never decides anything: three non-empty
      cells need at least two delimiters. */
  lemma DelimiterGuardRedundant(s: string, d: char)
    ensures DelimiterRule(s, d) <==> NonEmptyCount(Split(s, d)) >= MinColumns
  {
  }

  /** Nor does the multi-space guard: without a run there is a single part. */
  lemma MultiSpaceGuardRedundant(s: string)
    ensures MultiSpaceRule(s) <==> NonEmptyCount(SplitMultiSpace(s)) >= MinColumns
  {
    SplitMultiSpaceSingle(s);
  }

  /** Text without any delimiter character and without a whitespace run (a plain sentence)
      is never a table line. */
  lemma PlainTextIsNotTableLine(line: string)
    requires forall i :: 0 <= i < |Delimiters| ==> Delimiters[i] !in Strip(line)
    requires !HasMultiSpace(Strip(line))
    ensures !LooksLikeTableLine(line)
  {
    var s := Strip(line);
    forall i | 0 <= i < |Delimiters|
      ensures !DelimiterRule(s, Delimiters[i])
    {
      CountCharZero(s, Delimiters[i]);
    }
    assert Delimiters[3] == '|';
  }

  /** Cells that are trimmed, non-empty and free of the separator and of pipes, joined by
      `,`, tab or `;`: with three or more of them the line is a table line. */
  lemma DelimitedCellsAreTableLine(cells: seq<string>, d: char)
    requires d == ',' || d == '\t' || d == ';'
    requires |cells| >= MinColumns
    requires forall i :: 0 <= i < |cells| ==> Trimmed(cells[i])
    requires forall i :: 0 <= i < |cells| ==> d !in cells[i] && '|' !in cells[i]
    ensures LooksLikeTableLine(Join(cells, [d]))
  {
    DelimitedLine(cells, d);
    DelimiterFires(Join(cells, [d]), d);
  }

  lemma DelimitedLine(cells: seq<string>, d: char)
    requires d == ',' || d == '\t' || d == ';'
    requires |cells| >= MinColumns
    requires forall i :: 0 <= i < |cells| ==> Trimmed(cells[i])
    requires forall i :: 0 <= i < |cells| ==> d !in cells[i] && '|' !in cells[i]
    ensures var line := Join(cells, [d]);
      Trimmed(line) && '|' !in line && DelimiterRule(line, d)
  {
    PipeFreeJoin(cells, d);
    JoinSplit(cells, d);
    TrimmedNotBlank(cells);
    NonEmptyCountAll(cells);
    DelimiterGuardRedundant(Join(cells, [d]), d);
    JoinTrimmed(cells, [d]);
  }

  lemma PipeFreeJoin(cells: seq<string>, d: char)
    requires d != '|'
    requires forall i :: 0 <= i < |cells| ==> '|' !in cells[i]
    ensures '|' !in Join(cells, [d])
  {
    CharNotInJoin(cells, [d], '|');
  }

  /** A trimmed, non-blank, pipe-free line that passes the rule of `,`, tab or `;` is a
      table line. */
  lemma DelimiterFires(line: string, d: char)
    requires d == ',' || d == '\t' || d == ';'
    requires Trimmed(line) && '|' !in line && DelimiterRule(line, d)
    ensures LooksLikeTableLine(line)
  {
    TrimmedStrip(line);
    if d == ',' {
      assert Delimiters[0] == d;
    } else if d == '\t' {
      assert Delimiters[1] == d;
    } else {
      assert Delimiters[2] == d;
    }
  }

  /** Two or more trimmed, non-empty, pipe-free cells joined by `|` make a table line. */
  lemma PipeCellsAreTableLine(cells: seq<string>)
    requires |cells| >= 2
    requires forall i :: 0 <= i < |cells| ==> Trimmed(cells[i])
    requires forall i :: 0 <= i < |cells| ==> '|' !in cells[i]
    ensures LooksLikeTableLine(Join(cells, "|"))
  {
    PipeLine(cells);
    TrimmedTableLine(Join(cells, "|"));
  }

  lemma PipeLine(cells: seq<string>)
    requires |cells| >= 2
    requires forall i :: 0 <= i < |cells| ==> Trimmed(cells[i])
    requires forall i :: 0 <= i < |cells| ==> '|' !in cells[i]
    ensures Trimmed(Join(cells, "|")) && StrippedLineRule(Join(cells, "|"))
  {
    var line := Join(cells, "|");
    JoinTrimmed(cells, "|");
    var last := cells[|cells| - 1];
    assert '|' !in cells[0] && '|' !in last;
    EdgePipesAbsent(line);
    JoinSplit(cells, '|');
    TrimmedNotBlank(cells);
    NonEmptyCountAll(cells);
    assert line == cells[0] + "|" + Join(cells[1..], "|");
    assert line[|cells[0]|] == '|';
  }

  /** A trimmed line that neither starts nor ends with a pipe has no edge pipes to lose. */
  lemma EdgePipesAbsent(line: string)
    requires Trimmed(line) && line[0] != '|' && line[|line| - 1] != '|'
    ensures StripEdgePipes(line) == line
  {
    assert LeadingSpaces(line) == 0 && TrailingSpaces(line) == 0;
    assert StripLeadingPipe(line) == line;
  }

  /** Joining trimmed cells gives a trimmed line that starts with the first cell and ends
      with the last. */
  lemma JoinTrimmed(cells: seq<string>, sep: string)
    requires |cells| >= 1
    requires forall i :: 0 <= i < |cells| ==> Trimmed(cells[i])
    ensures Trimmed(Join(cells, sep))
    ensures var line := Join(cells, sep); var last := cells[|cells| - 1];
      Trimmed(cells[0]) && Trimmed(last) && line[0] == cells[0][0] && line[|line| - 1] == last[|last| - 1]
  {
    JoinEnds(cells, sep);
    assert Trimmed(cells[0]) && Trimmed(cells[|cells| - 1]);
  }

  lemma TrimmedNotBlank(cells: seq<string>)
    requires forall i :: 0 <= i < |cells| ==> Trimmed(cells[i])
    ensures forall i :: 0 <= i < |cells| ==> !IsBlank(cells[i])
  {
    forall i | 0 <= i < |cells| ensures !IsBlank(cells[i]) {
      assert !IsSpace(cells[i][0]);
    }
  }

  // ---------------------------------------------------------------------------------
  // The quick gate
  // ---------------------------------------------------------------------------------

  /** How many lines hold `d` at least `MinDelims` times. */
  function LinesWithDelimiter(lines: seq<string>, d: char): (n: nat)
    ensures n <= |lines|
    decreases |lines|
  {
    if lines == [] then 0
    else (if CountChar(lines[0], d) >= MinDelims then 1 else 0) + LinesWithDelimiter(lines[1..], d)
  }

  /** How many lines hold a run of two or more whitespace characters. */
  function LinesWithMultiSpace(lines: seq<string>): (n: nat)
    ensures n <= |lines|
    decreases |lines|
  {
    if lines == [] then 0
    else (if HasMultiSpace(lines[0]) then 1 else 0) + LinesWithMultiSpace(lines[1..])
  }

  /** `t[3:-3]`, which is empty when the text is shorter than two fences. */
  function FenceInner(t: string): (r: string)
    ensures |t| >= 6 ==> t == t[..3] + r + t[|t| - 3..]
    ensures |t| < 6 ==> r == []
  {
    if |t| >= 6 then t[3..|t| - 3] else []
  }

  predicate Fenced(t: string) {
    StartsWith(t, "```") && EndsWith(t, "```")
  }

  /** The non-blank lines the gate looks at, unstripped, after an outer fence goes. */
  function GateLines(text: string): seq<string> {
    var t := Strip(text);
    var inner := if Fenced(t) then Strip(FenceInner(t)) else t;
    NonBlankLines(SplitLines(inner))
  }

  /** The first six lines are sampled; a signal needs `max(1, n // 2)` of them. */
  function Sample(lines: seq<string>): (r: seq<string>)
    ensures |r| == if |lines| < 6 then |lines| else 6
    ensures r == lines[..|r|]
  {
    if |lines| < 6 then lines else lines[..6]
  }

  /** `max(1, n // 2)`: the least value that is at least one and at least half the
      sample, rounded down. */
  function Needed(sample: seq<string>): (k: nat)
    ensures k >= 1 && k >= |sample| / 2
    ensures k == 1 || k == |sample| / 2
  {
    if |sample| / 2 < 1 then 1 else |sample| / 2
  }

  predicate DelimiterSignal(sample: seq<string>) {
    exists i :: 0 <= i < |Delimiters| && LinesWithDelimiter(sample, Delimiters[i]) >= Needed(sample)
  }

  predicate MultiSpaceSignal(sample: seq<string>) {
    LinesWithMultiSpace(sample) >= Needed(sample)
  }

  /** A header line with a pipe over a Markdown divider line. */
  predicate MarkdownSignal(lines: seq<string>) {
    |lines| >= 2 && '|' in lines[0] && IsDivider(lines[1])
  }

  /** `is_table_like`. */
  predicate IsTableLike(text: string) {
    !IsBlank(text)
    && var lines := GateLines(text);
    |lines| >= 2
    && (DelimiterSignal(Sample(lines)) || MultiSpaceSignal(Sample(lines)) || MarkdownSignal(lines))
  }

  /** Blank text, and text with fewer than two non-blank lines, is never table-like. */
  lemma GateNeedsTwoLines(text: string)
    requires IsBlank(text) || |GateLines(text)| < 2
    ensures !IsTableLike(text)
  {
  }

  lemma {:induction false} LinesWithDelimiterAll(lines: seq<string>, d: char)
    requires forall i :: 0 <= i < |lines| ==> CountChar(lines[i], d) >= MinDelims
    ensures LinesWithDelimiter(lines, d) == |lines|
    decreases |lines|
  {
    if lines != [] {
      LinesWithDelimiterAll(lines[1..], d);
    }
  }

  /** Two or more lines that each hold a delimiter twice make the text table-like,
      whatever the rest of the lines look like. */
  lemma UniformDelimiterIsTableLike(text: string, i: nat)
    requires i < |Delimiters|
    requires |GateLines(text)| >= 2
    requires forall k :: 0 <= k < |GateLines(text)| ==> CountChar(GateLines(text)[k], Delimiters[i]) >= MinDelims
    ensures IsTableLike(text)
  {
    var lines := GateLines(text);
    var sample := Sample(lines);
    assert forall k :: 0 <= k < |sample| ==> sample[k] == lines[k];
    LinesWithDelimiterAll(sample, Delimiters[i]);
    BlankHasNoGateLines(text);
  }

  /** Blank text has no gate lines. */
  lemma BlankHasNoGateLines(text: string)
    ensures IsBlank(text) ==> GateLines(text) == []
  {
    if IsBlank(text) {
      assert Strip(text) == [];
    }
  }

  /** A pipe header over a divider row is enough on its own. */
  lemma MarkdownHeaderIsTableLike(text: string)
    requires MarkdownSignal(GateLines(text))
    ensures IsTableLike(text)
  {
    BlankHasNoGateLines(text);
  }

  lemma {:induction false} LinesWithDelimiterNone(lines: seq<string>, d: char)
    requires forall i :: 0 <= i < |lines| ==> CountChar(lines[i], d) < MinDelims
    ensures LinesWithDelimiter(lines, d) == 0
    decreases |lines|
  {
    if lines != [] {
      LinesWithDelimiterNone(lines[1..], d);
    }
  }

  lemma {:induction false} LinesWithMultiSpaceNone(lines: seq<string>)
    requires forall k :: 0 <= k < |lines| ==> !HasMultiSpace(lines[k])
    ensures LinesWithMultiSpace(lines) == 0
    decreases |lines|
  {
    if lines != [] {
      LinesWithMultiSpaceNone(lines[1..]);
    }
  }

  /** When no sampled line holds a delimiter twice or a whitespace run, and the second
      line is not a divider under a pipe header, the gate refuses the text. */
  lemma NoSignalIsNotTableLike(text: string)
    requires var sample := Sample(GateLines(text));
      forall k, i :: 0 <= k < |sample| && 0 <= i < |Delimiters| ==> CountChar(sample[k], Delimiters[i]) < MinDelims
    requires var sample := Sample(GateLines(text));
      forall k :: 0 <= k < |sample| ==> !HasMultiSpace(sample[k])
    requires !MarkdownSignal(GateLines(text))
    ensures !IsTableLike(text)
  {
    var sample := Sample(GateLines(text));
    forall i | 0 <= i < |Delimiters| ensures LinesWithDelimiter(sample, Delimiters[i]) == 0 {
      LinesWithDelimiterNone(sample, Delimiters[i]);
    }
    LinesWithMultiSpaceNone(sample);
  }

  /** Wrapping text in a code fence does not change the gate's answer: the fence is taken
      off before the lines are looked at. */
  lemma FenceInvariant(t: string)
    requires !Fenced(Strip(t))
    ensures IsTableLike("```" + t + "```") == IsTableLike(t)
  {
    FencedGateLines(t);
    BlankHasNoGateLines(t);
  }

  lemma FencedGateLines(t: string)
    requires !Fenced(Strip(t))
    ensures var w := "```" + t + "```"; !IsBlank(w) && GateLines(w) == GateLines(t)
  {
    var w := "```" + t + "```";
    assert w[0] == '`' && w[|w| - 1] == '`';
    StripNoOp(w);
    assert w[..3] == "```" && w[|w| - 3..] == "```";
    assert FenceInner(w) == t;
  }
}
