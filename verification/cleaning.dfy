/** The text clean-up at the start of `_clean_and_format_table`
    (src/main/tablebeautifier/utils/table_formatter.py, lines 197-216): the block is
    stripped, a leading and a trailing code fence go, inline code markers go, Markdown
    divider rows are dropped, each row loses its edge pipes, and the rows are joined back
    and stripped into the text handed to the CSV reader. */
module Cleaning {
  import opened Text
  import opened Patterns

  const Fence: string := "```"

  /** `re.sub(r"^```", "", b)` then `re.sub(r"```$", "", ...)`: one fence off the front,
      then one off the back of what is left. */
  function Unfence(b: string): (r: string)
    ensures |r| <= |b|
  {
    var b1 := if StartsWith(b, Fence) then b[3..] else b;
    if EndsWith(b1, Fence) then b1[..|b1| - 3] else b1
  }

  /** The block once stripped, unfenced, and rid of inline code markers. */
  function Unmarked(raw: string): string {
    RemoveInlineCode(Unfence(Strip(raw)))
  }

  /** The lines `drop` does not hold of, in order. */
  function DropLines(lines: seq<string>, drop: string -> bool): (r: seq<string>)
    ensures |r| <= |lines|
    ensures forall i :: 0 <= i < |r| ==> !drop(r[i]) && r[i] in lines
    decreases |lines|
  {
    if lines == [] then []
    else (if drop(lines[0]) then [] else [lines[0]]) + DropLines(lines[1..], drop)
  }

  /** The lines that are not Markdown dividers. */
  function NonDividers(lines: seq<string>): (r: seq<string>)
    ensures forall i :: 0 <= i < |r| ==> !IsDivider(r[i]) && r[i] in lines
  {
    DropLines(lines, IsDivider)
  }

  /** Both edge-pipe substitutions applied to every line. */
  function EdgeStripAll(lines: seq<string>): (r: seq<string>)
    ensures |r| == |lines|
    ensures forall i :: 0 <= i < |r| ==> r[i] == StripEdgePipes(lines[i])
  {
    seq(|lines|, i requires 0 <= i < |lines| => StripEdgePipes(lines[i]))
  }

  /** `cleaned_lines`: one per non-divider line of the unmarked block. */
  function CleanLines(raw: string): seq<string> {
    EdgeStripAll(NonDividers(SplitLines(Unmarked(raw))))
  }

  /** `table_text`: empty, or text with no whitespace at either end. */
  function TableText(raw: string): (r: string)
    ensures r == [] || Trimmed(r)
  {
    Strip(Join(CleanLines(raw), "\n"))
  }

  /** A block wrapped in fences loses exactly the two fences. */
  lemma UnfenceWrapped(x: string)
    ensures Unfence(Fence + x + Fence) == x
  {
    var b := Fence + x + Fence;
    assert b[..3] == Fence;
    assert b[3..] == x + Fence;
    assert (x + Fence)[|x|..] == Fence;
    assert (x + Fence)[..|x|] == x;
  }

  /** Text without a backtick has no fence to lose. */
  lemma UnfenceNoBacktick(b: string)
    requires '`' !in b
    ensures Unfence(b) == b
  {
    if |b| >= 3 {
      assert b[0] in b;
      assert b[|b| - 1] in b;
    }
  }

  /** Inline code removal leaves text without backticks alone. */
  lemma NoInlineCode(b: string)
    requires '`' !in b
    ensures RemoveInlineCode(b) == b
  {
    var r := RemoveInlineCode(b);
    CountCharZero(b, '`');
    CountCharZero(r, '`');
    RemoveCharAbsent(b, '`');
    RemoveCharAbsent(r, '`');
  }

  /** A pipe-free line has no edge pipe to lose. */
  lemma EdgePipesOfPipeFree(line: string)
    requires '|' !in line
    ensures StripEdgePipes(line) == line
  {
    var t := TrimLeft(line);
    if t != [] {
      assert t[0] == line[|line| - |t|];
    }
    assert StripLeadingPipe(line) == line;
    var u := TrimRight(line);
    if u != [] {
      assert u[|u| - 1] == line[|u| - 1];
    }
  }

  lemma {:induction false} DropLinesNone(lines: seq<string>, drop: string -> bool)
    requires forall i :: 0 <= i < |lines| ==> !drop(lines[i])
    ensures DropLines(lines, drop) == lines
    decreases |lines|
  {
    if lines != [] {
      DropLinesNone(lines[1..], drop);
      assert [lines[0]] + lines[1..] == lines;
    }
  }

  lemma {:induction false} DropLinesAll(lines: seq<string>, drop: string -> bool)
    requires forall i :: 0 <= i < |lines| ==> drop(lines[i])
    ensures DropLines(lines, drop) == []
    decreases |lines|
  {
    if lines != [] {
      DropLinesAll(lines[1..], drop);
    }
  }

  /** A block made only of divider rows leaves nothing to read. */
  lemma DividersOnlyIsEmpty(raw: string)
    requires forall i :: 0 <= i < |SplitLines(Unmarked(raw))| ==> IsDivider(SplitLines(Unmarked(raw))[i])
    ensures TableText(raw) == []
  {
    DropLinesAll(SplitLines(Unmarked(raw)), IsDivider);
    assert CleanLines(raw) == [];
  }

  /** A block with no backtick, no pipe, no divider row and only "\n" line breaks is
      handed to the reader as it is, stripped. */
  lemma PlainBlockUnchanged(raw: string)
    requires '`' !in raw && '|' !in raw && OnlyNewlines(raw)
    requires forall i :: 0 <= i < |SplitLines(Strip(raw))| ==> !IsDivider(SplitLines(Strip(raw))[i])
    ensures TableText(raw) == Strip(raw)
  {
    var b := Strip(raw);
    var at := StripSlice(raw);
    assert forall k :: 0 <= k < |b| ==> b[k] == raw[at + k];
    assert '`' !in b && '|' !in b by {
      forall k | 0 <= k < |b| ensures b[k] != '`' && b[k] != '|' {
        assert b[k] in raw;
      }
    }
    assert OnlyNewlines(b);
    UnfenceNoBacktick(b);
    NoInlineCode(b);
    assert Unmarked(raw) == b;
    var lines := SplitLines(b);
    DropLinesNone(lines, IsDivider);
    PipeFreeLines(b);
    EdgeStripNone(lines);
    assert CleanLines(raw) == lines;
    SplitLinesJoin(b);
    if b != [] {
      assert IsSpace(b[|b| - 1]) == false;
    }
    assert Join(lines, "\n") == b;
    StripIdempotent(raw);
  }

  /** The lines of pipe-free text are pipe-free. */
  lemma {:induction false} PipeFreeLines(b: string)
    requires '|' !in b
    ensures forall i :: 0 <= i < |SplitLines(b)| ==> '|' !in SplitLines(b)[i]
    decreases |b|
  {
    if b != [] {
      var i := LineEnd(b);
      if i < |b| {
        var rest := b[BreakEnd(b, i)..];
        assert forall c :: c in rest ==> c in b;
        PipeFreeLines(rest);
        assert forall c :: c in b[..i] ==> c in b;
      }
    }
  }

  lemma {:induction false} EdgeStripNone(lines: seq<string>)
    requires forall i :: 0 <= i < |lines| ==> '|' !in lines[i]
    ensures EdgeStripAll(lines) == lines
  {
    forall i | 0 <= i < |lines| ensures EdgeStripAll(lines)[i] == lines[i] {
      EdgePipesOfPipeFree(lines[i]);
    }
  }
}
