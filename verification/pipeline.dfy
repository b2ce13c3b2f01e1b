/** `process_all_inputs` of the current formatter
    (src/main/tablebeautifier/utils/table_formatter.py, lines 83-146): an outer code fence
    is dropped, the lines are grouped into table blocks with their preceding context,
    each block is formatted on its own, and a block whose formatting raises is returned
    as text after the trailing context instead of stopping the others. */
module Pipeline {
  import opened Results
  import opened Text
  import opened Grouping
  import opened Detection
  import opened RowIndex
  import opened Formatter

  /** A formatted table with the stripped context lines before it. */
  datatype Extracted = Extracted(context: string, table: Table)

  /** The tables, and the text left after the last one. */
  datatype Output = Output(tables: seq<Extracted>, finalContext: string)

  /** The lines scanned: those of the fenced content when the whole stripped message is
      fenced, otherwise those of the message as it is. */
  function TopLines(text: string): seq<string> {
    var t := Strip(text);
    SplitLines(if Fenced(t) then FenceInner(t) else text)
  }

  /** The block's rows as the formatter receives them. */
  function RawTable(b: Block): string {
    Join(b.rows, "\n")
  }

  /** The block formatter; `CleanAndFormat` in the formatter itself. */
  type Format = string -> Result<Table, FormatError>

  /** What one block contributes: its table with its context, or its raw text. */
  function Outcome(b: Block, format: Format): Result<Extracted, string> {
    match format(RawTable(b))
    case Ok(t) => Ok(Extracted(Strip(Join(b.context, "\n")), t))
    case Err(_) => Err(RawTable(b))
  }

  function Outcomes(blocks: seq<Block>, format: Format): (r: seq<Result<Extracted, string>>)
    ensures |r| == |blocks| && forall i :: 0 <= i < |blocks| ==> r[i] == Outcome(blocks[i], format)
  {
    seq(|blocks|, i requires 0 <= i < |blocks| => Outcome(blocks[i], format))
  }

  /** Outcomes taken in order: the successes in one list, the failures in the other,
      each outcome landing in exactly one of the two. */
  function Collect<X, E>(rs: seq<Result<X, E>>): (r: (seq<X>, seq<E>))
    ensures |r.0| + |r.1| == |rs|
    decreases |rs|
  {
    if rs == [] then ([], [])
    else
      var before := Collect(rs[..|rs| - 1]);
      match rs[|rs| - 1]
      case Ok(x) => (before.0 + [x], before.1)
      case Err(e) => (before.0, before.1 + [e])
  }

  /** The tables of the blocks that format and the raw text of those that raise. */
  function ProcessBlocks(blocks: seq<Block>, format: Format): (r: (seq<Extracted>, seq<string>))
    ensures |r.0| + |r.1| == |blocks|
  {
    Collect(Outcomes(blocks, format))
  }

  /** The output once the lines are grouped: the trailing context first, then the raw
      text of the failed blocks, joined and stripped. */
  function Assemble(g: Grouped, format: Format): (out: Output)
    ensures |out.tables| <= |g.blocks|
  {
    var done := ProcessBlocks(g.blocks, format);
    Output(done.0, Strip(Join(g.trailing + done.1, "\n")))
  }

  /** The scan with a given block formatter. */
  function ProcessWith(text: string, format: Format): (out: Output)
    ensures text == [] ==> out == Output([], [])
  {
    if text == [] then Output([], [])
    else Assemble(Group(TopLines(text), LooksLikeTableLine), format)
  }

  /** `process_all_inputs`. */
  function ProcessAllInputs(text: string): Output {
    ProcessWith(text, CleanAndFormat)
  }

  /** Any split of the lines into maximal table runs with their contexts gives the same
      output, because there is only one such split. */
  lemma OutputOfPartition(text: string, g: Grouped, format: Format)
    requires text != []
    requires IsPartition(TopLines(text), LooksLikeTableLine, g)
    ensures ProcessWith(text, format) == Assemble(g, format)
  {
    GroupIsThePartition(TopLines(text), LooksLikeTableLine, g);
  }

  predicate OkAt<X(==), E(==)>(rs: seq<Result<X, E>>, x: X) {
    exists i :: 0 <= i < |rs| && rs[i] == Ok(x)
  }

  predicate ErrAt<X(==), E(==)>(rs: seq<Result<X, E>>, e: E) {
    exists i :: 0 <= i < |rs| && rs[i] == Err(e)
  }

  /** Every success and every failure collected is one of the outcomes: for the blocks,
      every table comes from a block that formatted, with that block's own context, and
      every failed text is the raw text of a block whose formatting raised. */
  lemma {:induction false} CollectFrom<X, E>(rs: seq<Result<X, E>>)
    ensures forall k :: 0 <= k < |Collect(rs).0| ==> OkAt(rs, Collect(rs).0[k])
    ensures forall k :: 0 <= k < |Collect(rs).1| ==> ErrAt(rs, Collect(rs).1[k])
    decreases |rs|
  {
    if rs != [] {
      var init := rs[..|rs| - 1];
      var before, r := Collect(init), Collect(rs);
      CollectFrom(init);
      forall k | 0 <= k < |r.0| ensures OkAt(rs, r.0[k]) {
        if k < |before.0| {
          assert r.0[k] == before.0[k];
          assert OkAt(init, before.0[k]);
          var i :| 0 <= i < |init| && init[i] == Ok(before.0[k]);
          assert rs[i] == Ok(r.0[k]);
        } else {
          assert rs[|rs| - 1] == Ok(r.0[k]);
        }
      }
      forall k | 0 <= k < |r.1| ensures ErrAt(rs, r.1[k]) {
        if k < |before.1| {
          assert r.1[k] == before.1[k];
          assert ErrAt(init, before.1[k]);
          var i :| 0 <= i < |init| && init[i] == Err(before.1[k]);
          assert rs[i] == Err(r.1[k]);
        } else {
          assert rs[|rs| - 1] == Err(r.1[k]);
        }
      }
    }
  }

  /** With no failure, the successes are all the outcomes, in order. */
  lemma {:induction false} CollectAllOk<X, E>(rs: seq<Result<X, E>>)
    requires forall i :: 0 <= i < |rs| ==> rs[i].Ok?
    ensures var r := Collect(rs);
      r.1 == [] && |r.0| == |rs| && forall i :: 0 <= i < |rs| ==> rs[i] == Ok(r.0[i])
    decreases |rs|
  {
    if rs != [] {
      var init := rs[..|rs| - 1];
      assert forall i :: 0 <= i < |init| ==> init[i] == rs[i];
      CollectAllOk(init);
    }
  }

  /** When every block formats, each yields its table in order and no text is added to
      the trailing context. */
  lemma AllBlocksFormat(blocks: seq<Block>, format: Format)
    requires forall i :: 0 <= i < |blocks| ==> Outcome(blocks[i], format).Ok?
    ensures var r := ProcessBlocks(blocks, format);
      r.1 == [] && |r.0| == |blocks| && forall i :: 0 <= i < |blocks| ==> Outcome(blocks[i], format) == Ok(r.0[i])
  {
    CollectAllOk(Outcomes(blocks, format));
  }

  /** A message with no table line yields no table; its whole text, stripped, comes back
      as the final context. */
  lemma NoTableLines(text: string, format: Format)
    requires text != []
    requires NoTable(LooksLikeTableLine, TopLines(text))
    ensures ProcessWith(text, format) == Output([], Strip(Join(TopLines(text), "\n")))
  {
    var g := Group(TopLines(text), LooksLikeTableLine);
    NoBlocksIffNoTable(TopLines(text), LooksLikeTableLine, g);
    assert g.trailing == TopLines(text);
    assert g.trailing + [] == g.trailing;
  }

  /** A block that fails does not disturb the others: adding an outcome at the end only
      adds that outcome. */
  lemma CollectIsolation<X, E>(rs: seq<Result<X, E>>, last: Result<X, E>)
    ensures var before := Collect(rs);
      var after := Collect(rs + [last]);
      (last.Ok? ==> after == (before.0 + [last.value], before.1))
      && (last.Err? ==> after == (before.0, before.1 + [last.error]))
  {
    assert (rs + [last])[..|rs|] == rs;
  }
}
