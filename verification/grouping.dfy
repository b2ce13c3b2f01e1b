/** The block grouper of `process_all_inputs`
    (src/main/tablebeautifier/utils/table_formatter.py, lines 103-127): lines are scanned
    once, each maximal run of table-like lines becomes a block paired with the non-table
    lines just before it, and the non-table lines after the last block are the trailing
    context. The line classifier is a parameter, so the same grouper serves both versions
    of the formatter. */
module Grouping {

  /** A table block: the context lines gathered since the previous block, then the table
      rows themselves. */
  datatype Block = Block(context: seq<string>, rows: seq<string>)

  datatype Grouped = Grouped(blocks: seq<Block>, trailing: seq<string>)

  /** The lines of the blocks, in order, each block's context before its rows. */
  function Flatten(blocks: seq<Block>): seq<string>
    decreases |blocks|
  {
    if blocks == [] then [] else blocks[0].context + blocks[0].rows + Flatten(blocks[1..])
  }

  predicate AllTable(isTable: string -> bool, lines: seq<string>) {
    forall i :: 0 <= i < |lines| ==> isTable(lines[i])
  }

  predicate NoTable(isTable: string -> bool, lines: seq<string>) {
    forall i :: 0 <= i < |lines| ==> !isTable(lines[i])
  }

  /** Rows are a non-empty run of table lines; the context holds none. */
  predicate BlockOk(isTable: string -> bool, b: Block) {
    b.rows != [] && AllTable(isTable, b.rows) && NoTable(isTable, b.context)
  }

  /** Every block is well formed, and every block but the first has a context: a block
      after another only starts once a non-table line has ended the one before. */
  predicate WellFormed(isTable: string -> bool, blocks: seq<Block>) {
    forall i :: 0 <= i < |blocks| ==> BlockOk(isTable, blocks[i]) && (i > 0 ==> blocks[i].context != [])
  }

  /** `g` splits `lines` into maximal table runs with their preceding context, without
      losing, reordering or duplicating a line. */
  predicate IsPartition(lines: seq<string>, isTable: string -> bool, g: Grouped) {
    Flatten(g.blocks) + g.trailing == lines
    && WellFormed(isTable, g.blocks)
    && NoTable(isTable, g.trailing)
  }

  lemma {:induction false} FlattenAppend(blocks: seq<Block>, b: Block)
    ensures Flatten(blocks + [b]) == Flatten(blocks) + b.context + b.rows
    decreases |blocks|
  {
    if blocks == [] {
      assert [] + [b] == [b];
    } else {
      assert (blocks + [b])[1..] == blocks[1..] + [b];
      FlattenAppend(blocks[1..], b);
    }
  }

  /** The scan after `done` blocks have been flushed, with `context` and `table` the lines
      collected since, and `lines` still to come. */
  function GroupFrom(lines: seq<string>, isTable: string -> bool, done: seq<Block>,
                     context: seq<string>, table: seq<string>): (g: Grouped)
    requires WellFormed(isTable, done) && NoTable(isTable, context) && AllTable(isTable, table)
    requires done != [] ==> context != []
    ensures IsPartition(Flatten(done) + context + table + lines, isTable, g)
    decreases |lines|
  {
    if lines == [] then
      if table != [] then
        Flush(isTable, done, context, table);
        Grouped(done + [Block(context, table)], [])
      else
        Grouped(done, context)
    else
      var line := lines[0];
      if isTable(line) then
        TakeLine(Flatten(done) + context, table, lines);
        assert AllTable(isTable, table + [line]);
        GroupFrom(lines[1..], isTable, done, context, table + [line])
      else if table != [] then
        Flush(isTable, done, context, table);
        TakeLine(Flatten(done) + context + table, [], lines);
        GroupFrom(lines[1..], isTable, done + [Block(context, table)], [line], [])
      else
        TakeLine(Flatten(done), context, lines);
        assert NoTable(isTable, context + [line]);
        GroupFrom(lines[1..], isTable, done, context + [line], [])
  }

  /** Moving the next line onto the collected ones keeps the scanned text. */
  lemma TakeLine(before: seq<string>, collected: seq<string>, lines: seq<string>)
    requires lines != []
    ensures before + (collected + [lines[0]]) + lines[1..] == before + collected + lines
  {
    assert lines == [lines[0]] + lines[1..];
  }

  /** Flushing a non-empty table run keeps the blocks well formed and the text in order. */
  lemma Flush(isTable: string -> bool, done: seq<Block>, context: seq<string>, table: seq<string>)
    requires WellFormed(isTable, done) && NoTable(isTable, context) && AllTable(isTable, table)
    requires done != [] ==> context != []
    requires table != []
    ensures WellFormed(isTable, done + [Block(context, table)])
    ensures Flatten(done + [Block(context, table)]) == Flatten(done) + context + table
  {
    FlattenAppend(done, Block(context, table));
  }

  /** The grouping `process_all_inputs` computes. */
  function Group(lines: seq<string>, isTable: string -> bool): (g: Grouped)
    ensures IsPartition(lines, isTable, g)
  {
    assert Flatten([]) + [] + [] + lines == lines;
    GroupFrom(lines, isTable, [], [], [])
  }

  /** Length of the leading run of lines whose class is `want`. */
  function Run(lines: seq<string>, isTable: string -> bool, want: bool): (n: nat)
    ensures n <= |lines|
    decreases |lines|
  {
    if lines != [] && isTable(lines[0]) == want then 1 + Run(lines[1..], isTable, want) else 0
  }

  /** A prefix of one class followed by a line of the other class (or by nothing) is the
      whole leading run of that class. */
  lemma {:induction false} RunOf(lines: seq<string>, isTable: string -> bool, want: bool,
                                 a: seq<string>, b: seq<string>)
    requires lines == a + b
    requires forall i :: 0 <= i < |a| ==> isTable(a[i]) == want
    requires b == [] || isTable(b[0]) != want
    ensures Run(lines, isTable, want) == |a|
    decreases |a|
  {
    if a == [] {
      assert lines == b;
    } else {
      assert lines[1..] == a[1..] + b;
      RunOf(lines[1..], isTable, want, a[1..], b);
    }
  }

  /** What follows the first block starts with a non-table line, and is itself partitioned
      by the remaining blocks. */
  lemma AfterFirstBlock(lines: seq<string>, isTable: string -> bool, g: Grouped)
    requires IsPartition(lines, isTable, g) && g.blocks != []
    ensures var rest := Flatten(g.blocks[1..]) + g.trailing;
      lines == g.blocks[0].context + (g.blocks[0].rows + rest)
      && (rest == [] || !isTable(rest[0]))
      && IsPartition(rest, isTable, Grouped(g.blocks[1..], g.trailing))
  {
    var tail := g.blocks[1..];
    var rest := Flatten(tail) + g.trailing;
    assert forall i :: 0 <= i < |tail| ==> tail[i] == g.blocks[i + 1];
    if tail != [] {
      assert BlockOk(isTable, g.blocks[1]) && g.blocks[1].context != [];
      assert rest[0] == tail[0].context[0];
    }
  }

  /** A partition has no block exactly when no line is a table line. */
  lemma NoBlocksIffNoTable(lines: seq<string>, isTable: string -> bool, g: Grouped)
    requires IsPartition(lines, isTable, g)
    ensures g.blocks == [] <==> NoTable(isTable, lines)
  {
    if g.blocks != [] {
      var b := g.blocks[0];
      assert BlockOk(isTable, b);
      AfterFirstBlock(lines, isTable, g);
      assert lines[|b.context|] == b.rows[0];
    }
  }

  /** There is only one way to partition lines into maximal table runs with their
      contexts, so `Group` computes exactly that partition. */
  lemma {:induction false} PartitionUnique(lines: seq<string>, isTable: string -> bool, g1: Grouped, g2: Grouped)
    requires IsPartition(lines, isTable, g1) && IsPartition(lines, isTable, g2)
    ensures g1 == g2
    decreases |lines|
  {
    NoBlocksIffNoTable(lines, isTable, g1);
    NoBlocksIffNoTable(lines, isTable, g2);
    if g1.blocks == [] {
      assert g1.trailing == lines == g2.trailing;
    } else {
      var b1, b2 := g1.blocks[0], g2.blocks[0];
      var rest1 := Flatten(g1.blocks[1..]) + g1.trailing;
      var rest2 := Flatten(g2.blocks[1..]) + g2.trailing;
      AfterFirstBlock(lines, isTable, g1);
      AfterFirstBlock(lines, isTable, g2);
      assert BlockOk(isTable, b1) && BlockOk(isTable, b2);
      RunOf(lines, isTable, false, b1.context, b1.rows + rest1);
      RunOf(lines, isTable, false, b2.context, b2.rows + rest2);
      assert b1.context == lines[..|b1.context|] == b2.context;
      var after := lines[|b1.context|..];
      assert after == b1.rows + rest1 == b2.rows + rest2;
      RunOf(after, isTable, true, b1.rows, rest1);
      RunOf(after, isTable, true, b2.rows, rest2);
      assert b1.rows == after[..|b1.rows|] == b2.rows;
      assert rest1 == after[|b1.rows|..] == rest2;
      PartitionUnique(rest1, isTable, Grouped(g1.blocks[1..], g1.trailing), Grouped(g2.blocks[1..], g2.trailing));
      assert g1.blocks == [b1] + g1.blocks[1..];
      assert g2.blocks == [b2] + g2.blocks[1..];
    }
  }

  /** `Group` is the one partition: any grouping meeting the partition rules is it. */
  lemma GroupIsThePartition(lines: seq<string>, isTable: string -> bool, g: Grouped)
    requires IsPartition(lines, isTable, g)
    ensures Group(lines, isTable) == g
  {
    PartitionUnique(lines, isTable, Group(lines, isTable), g);
  }
}
