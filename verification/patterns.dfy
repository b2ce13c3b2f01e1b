/** Hand-written equivalents of the regular expressions of the current formatter
    (src/main/tablebeautifier/utils/table_formatter.py, lines 23-27 and 279). Each is
    applied to single lines, which hold no line break, so `$` is the end of the text. */
module Patterns {
  import opened Text
  import opened Numbers

  /** One Markdown divider cell, `:?-{2,}:?`. */
  predicate IsDashCell(c: string) {
    var c1 := if StartsWith(c, ":") then c[1..] else c;
    var c2 := if EndsWith(c1, ":") then c1[..|c1| - 1] else c1;
    |c2| >= 2 && forall i :: 0 <= i < |c2| ==> c2[i] == '-'
  }

  predicate AllDashCells(parts: seq<string>) {
    forall i :: 0 <= i < |parts| ==> IsDashCell(Strip(parts[i]))
  }

  /** `_md_divider_re.match(line)`, i.e. the whole line is
      `\s*\|?\s*:?-{2,}:?\s*(\|\s*:?-{2,}:?\s*)*\|?\s*`. With the surrounding whitespace
      stripped, at most one edge pipe on each side is optional, and what is left splits on
      `|` into dash cells padded with whitespace. */
  predicate IsDivider(line: string) {
    var s := Strip(line);
    var a := if StartsWith(s, "|") then s[1..] else s;
    var b := if EndsWith(a, "|") then a[..|a| - 1] else a;
    AllDashCells(Split(b, '|'))
  }

  /** Text made of whitespace, exactly one pipe, and whitespace: what the edge-pipe
      patterns `^\s*\|\s*` and `\s*\|\s*$` match. */
  predicate IsPipeGap(g: string) {
    var k := LeadingSpaces(g);
    k < |g| && g[k] == '|' && IsBlank(g[k + 1..])
  }

  /** `_leading_pipe_re.sub("", line)`: when the line starts with whitespace and a pipe,
      that pipe and all whitespace around it go; otherwise the line is unchanged. */
  function StripLeadingPipe(line: string): (r: string)
    ensures !StartsWith(TrimLeft(line), "|") ==> r == line
    ensures StartsWith(TrimLeft(line), "|") ==>
      |r| < |line| && r == line[|line| - |r|..] && IsPipeGap(line[..|line| - |r|]) && (r == [] || !IsSpace(r[0]))
  {
    var t := TrimLeft(line);
    if StartsWith(t, "|") then
      LeadingPipeGap(line, t, TrimLeft(t[1..]));
      TrimLeft(t[1..])
    else line
  }

  lemma LeadingPipeGap(line: string, t: string, r: string)
    requires t == TrimLeft(line) && StartsWith(t, "|") && r == TrimLeft(t[1..])
    ensures |r| < |line| && r == line[|line| - |r|..] && IsPipeGap(line[..|line| - |r|])
  {
    var k := |line| - |t|;
    var g := line[..|line| - |r|];
    assert g[..k] == line[..k];
    assert g[k] == t[0] == '|';
    assert g[k + 1..] == t[1..][..|t| - 1 - |r|];
  }

  /** `_trailing_pipe_re.sub("", line)`: the leftmost match of `\s*\|\s*$` is the longest
      suffix made of whitespace, the line's last pipe and whitespace; it is removed. */
  function StripTrailingPipe(line: string): (r: string)
    ensures !EndsWith(TrimRight(line), "|") ==> r == line
    ensures EndsWith(TrimRight(line), "|") ==>
      |r| < |line| && r == line[..|r|] && IsPipeGap(line[|r|..]) && (r == [] || !IsSpace(r[|r| - 1]))
  {
    var t := TrimRight(line);
    if EndsWith(t, "|") then
      TrailingPipeGap(line, t, TrimRight(t[..|t| - 1]));
      TrimRight(t[..|t| - 1])
    else line
  }

  lemma TrailingPipeGap(line: string, t: string, r: string)
    requires t == TrimRight(line) && EndsWith(t, "|") && r == TrimRight(t[..|t| - 1])
    ensures |r| < |line| && r == line[..|r|] && IsPipeGap(line[|r|..])
  {
    var u := t[..|t| - 1];
    var g := line[|r|..];
    var k := |u| - |r|;
    assert g[..k] == u[|r|..];
    assert g[k] == t[|t| - 1] == '|';
    assert g[k + 1..] == line[|t|..];
    LeadingSpacesOf(g, k);
  }

  /** The leading whitespace run ends at the first non-space. */
  lemma LeadingSpacesOf(s: string, k: nat)
    requires k < |s| && IsBlank(s[..k]) && !IsSpace(s[k])
    ensures LeadingSpaces(s) == k
  {
    assert forall j :: 0 <= j < k ==> IsSpace(s[j]) by {
      forall j | 0 <= j < k ensures IsSpace(s[j]) {
        assert s[..k][j] == s[j];
      }
    }
  }

  /** Both edge-pipe substitutions, leading first, as every caller applies them. */
  function StripEdgePipes(line: string): string {
    StripTrailingPipe(StripLeadingPipe(line))
  }

  /** `_inline_code_re.sub(r"\1", text)`: each backtick pair, taken left to right, is
      removed with its content kept; an unpaired last backtick stays. */
  function RemoveInlineCode(s: string): (r: string)
    ensures RemoveChar(r, '`') == RemoveChar(s, '`')
    ensures CountChar(r, '`') == CountChar(s, '`') % 2
    decreases |s|
  {
    if s == [] then []
    else if s[0] == '`' then
      var j := IndexOf(s[1..], '`');
      if j == |s| - 1 then
        InlineCodeUnpaired(s);
        s
      else
        var tail := RemoveInlineCode(s[2 + j..]);
        InlineCodePair(s, j, tail);
        s[1..1 + j] + tail
    else
      var tail := RemoveInlineCode(s[1..]);
      InlineCodeKeep(s, tail);
      [s[0]] + tail
  }

  lemma InlineCodeUnpaired(s: string)
    requires s != [] && s[0] == '`' && IndexOf(s[1..], '`') == |s| - 1
    ensures CountChar(s, '`') == 1
  {
    CountCharZero(s[1..], '`');
  }

  lemma InlineCodeKeep(s: string, tail: string)
    requires s != [] && s[0] != '`'
    requires RemoveChar(tail, '`') == RemoveChar(s[1..], '`')
    requires CountChar(tail, '`') == CountChar(s[1..], '`') % 2
    ensures RemoveChar([s[0]] + tail, '`') == RemoveChar(s, '`')
    ensures CountChar([s[0]] + tail, '`') == CountChar(s, '`') % 2
  {
    var x := [s[0]] + tail;
    assert x[0] == s[0] && x[1..] == tail;
  }

  /** A backtick pair at the front: the inner text is backtick-free, so removing the pair
      keeps it whole. */
  lemma InlineCodePair(s: string, j: nat, tail: string)
    requires s != [] && s[0] == '`' && j < |s| - 1 && j == IndexOf(s[1..], '`')
    requires RemoveChar(tail, '`') == RemoveChar(s[2 + j..], '`')
    requires CountChar(tail, '`') == CountChar(s[2 + j..], '`') % 2
    ensures RemoveChar(s[1..1 + j] + tail, '`') == RemoveChar(s, '`')
    ensures CountChar(s[1..1 + j] + tail, '`') == CountChar(s, '`') % 2
  {
    var inner := s[1..1 + j];
    PairSplit(s, j);
    FreeConcat(inner, tail);
    ParityShift(CountChar(s[2 + j..], '`'));
  }

  lemma FreeConcat(inner: string, tail: string)
    requires '`' !in inner
    ensures RemoveChar(inner + tail, '`') == inner + RemoveChar(tail, '`')
    ensures CountChar(inner + tail, '`') == CountChar(tail, '`')
  {
    RemoveCharAbsent(inner, '`');
    CountCharZero(inner, '`');
    RemoveCharConcat(inner, tail, '`');
    CountCharConcat(inner, tail, '`');
  }

  lemma ParityShift(n: nat)
    ensures (n + 2) % 2 == n % 2
  {
  }

  /** The backtick-free inner text of a front pair, and what the pair contributes. */
  lemma PairSplit(s: string, j: nat)
    requires s != [] && s[0] == '`' && j < |s| - 1 && j == IndexOf(s[1..], '`')
    ensures '`' !in s[1..1 + j]
    ensures RemoveChar(s, '`') == s[1..1 + j] + RemoveChar(s[2 + j..], '`')
    ensures CountChar(s, '`') == CountChar(s[2 + j..], '`') + 2
  {
    var inner := s[1..1 + j];
    var x := s[1 + j..];
    PairInnerFree(s, j);
    assert s[1..] == inner + x;
    assert x[1..] == s[2 + j..];
    FreeThenBacktickRemove(inner, x);
    FreeThenBacktickCount(inner, x);
  }

  lemma PairInnerFree(s: string, j: nat)
    requires s != [] && j < |s| - 1 && j == IndexOf(s[1..], '`')
    ensures '`' !in s[1..1 + j] && s[1 + j] == '`'
  {
    var s1 := s[1..];
    assert forall k :: 0 <= k < j ==> s1[k] != '`';
    assert s[1..1 + j] == s1[..j];
  }

  lemma FreeThenBacktickRemove(inner: string, x: string)
    requires '`' !in inner && x != [] && x[0] == '`'
    ensures RemoveChar(inner + x, '`') == inner + RemoveChar(x[1..], '`')
  {
    RemoveCharAbsent(inner, '`');
    RemoveCharConcat(inner, x, '`');
  }

  lemma FreeThenBacktickCount(inner: string, x: string)
    requires '`' !in inner && x != [] && x[0] == '`'
    ensures CountChar(inner + x, '`') == 1 + CountChar(x[1..], '`')
  {
    CountCharZero(inner, '`');
    CountCharConcat(inner, x, '`');
  }

  /** `re.search(r"\d,\d", s)`: a comma between two digits, a thousands separator. */
  predicate HasDigitCommaDigit(s: string) {
    exists i :: 0 <= i < |s| - 2 && IsDigit(s[i]) && s[i + 1] == ',' && IsDigit(s[i + 2])
  }
}
