/** Python string primitives the formatter relies on: whitespace, strip, split, join,
    splitlines and the `\s{2,}` search and split. */
module Text {

  /** Python's `str.isspace`, which is also the class the `re` module's `\s` matches. */
  predicate IsSpace(c: char) {
    c == ' ' || c == '\t' || c == '\n' || c == '\U{0B}' || c == '\U{0C}' || c == '\r'
    || c == '\U{1C}' || c == '\U{1D}' || c == '\U{1E}' || c == '\U{1F}' || c == '\U{85}'
    || c == '\U{A0}' || c == '\U{1680}' || c == '\U{2000}' || c == '\U{2001}'
    || c == '\U{2002}' || c == '\U{2003}' || c == '\U{2004}' || c == '\U{2005}'
    || c == '\U{2006}' || c == '\U{2007}' || c == '\U{2008}' || c == '\U{2009}'
    || c == '\U{200A}' || c == '\U{2028}' || c == '\U{2029}' || c == '\U{202F}'
    || c == '\U{205F}' || c == '\U{3000}'
  }

  /** The characters at which `str.splitlines` ends a line. */
  predicate IsLineBreak(c: char) {
    c == '\n' || c == '\r' || c == '\U{0B}' || c == '\U{0C}' || c == '\U{1C}' || c == '\U{1D}'
    || c == '\U{1E}' || c == '\U{85}' || c == '\U{2028}' || c == '\U{2029}'
  }

  /** True when the string is empty or whitespace only (`not s.strip()`). */
  predicate IsBlank(s: string) {
    forall i :: 0 <= i < |s| ==> IsSpace(s[i])
  }

  /** Length of the leading whitespace run. */
  function LeadingSpaces(s: string): (k: nat)
    ensures k <= |s|
    ensures forall j :: 0 <= j < k ==> IsSpace(s[j])
    ensures k < |s| ==> !IsSpace(s[k])
    decreases |s|
  {
    if s != [] && IsSpace(s[0]) then 1 + LeadingSpaces(s[1..]) else 0
  }

  /** Length of the trailing whitespace run. */
  function TrailingSpaces(s: string): (k: nat)
    ensures k <= |s|
    ensures forall j :: |s| - k <= j < |s| ==> IsSpace(s[j])
    ensures k < |s| ==> !IsSpace(s[|s| - k - 1])
    decreases |s|
  {
    if s != [] && IsSpace(s[|s| - 1]) then 1 + TrailingSpaces(s[..|s| - 1]) else 0
  }

  /** `str.lstrip()`. */
  function TrimLeft(s: string): (r: string)
    ensures |r| <= |s| && r == s[|s| - |r|..]
    ensures IsBlank(s[..|s| - |r|])
    ensures r == [] || !IsSpace(r[0])
  {
    s[LeadingSpaces(s)..]
  }

  /** `str.rstrip()`. */
  function TrimRight(s: string): (r: string)
    ensures |r| <= |s| && r == s[..|r|]
    ensures IsBlank(s[|r|..])
    ensures r == [] || !IsSpace(r[|r| - 1])
  {
    s[..|s| - TrailingSpaces(s)]
  }

  /** `str.strip()`: the whitespace-free middle of the string. */
  function Strip(s: string): (r: string)
    ensures |r| <= |s|
    ensures r == [] <==> IsBlank(s)
    ensures r == [] || (!IsSpace(r[0]) && !IsSpace(r[|r| - 1]))
  {
    StripFacts(s);
    TrimRight(TrimLeft(s))
  }

  lemma StripFacts(s: string)
    ensures TrimRight(TrimLeft(s)) == [] <==> IsBlank(s)
    ensures var r := TrimRight(TrimLeft(s)); r != [] ==> r[0] == TrimLeft(s)[0]
  {
    var k := LeadingSpaces(s);
    var t := s[k..];
    if k == |s| {
      assert IsBlank(s);
    } else {
      assert !IsSpace(s[k]);
      assert TrailingSpaces(t) < |t|;
    }
  }

  /** Non-empty text with no whitespace at either end, as `strip` leaves it. */
  predicate Trimmed(s: string) {
    s != [] && !IsSpace(s[0]) && !IsSpace(s[|s| - 1])
  }

  /** Trimmed text is non-blank and its own strip. */
  lemma TrimmedStrip(s: string)
    requires Trimmed(s)
    ensures Strip(s) == s && !IsBlank(s)
  {
    StripNoOp(s);
  }

  /** Stripping keeps blank text blank and other text non-blank. */
  lemma StripBlank(s: string)
    ensures IsBlank(Strip(s)) <==> IsBlank(s)
  {
    var r := Strip(s);
    assert IsBlank(r) <==> r == [] by {
      if r != [] { assert !IsSpace(r[0]); }
    }
  }

  /** Text that neither starts nor ends with whitespace is its own strip. */
  lemma StripNoOp(s: string)
    requires s == [] || (!IsSpace(s[0]) && !IsSpace(s[|s| - 1]))
    ensures Strip(s) == s
  {
    assert LeadingSpaces(s) == 0;
    assert TrailingSpaces(s) == 0;
  }

  /** The strip is a slice of the text, starting after its leading whitespace. */
  lemma StripSlice(s: string) returns (i: nat)
    ensures i + |Strip(s)| <= |s| && Strip(s) == s[i..i + |Strip(s)|]
  {
    var t := TrimLeft(s);
    i := |s| - |t|;
    assert Strip(s) == t[..|Strip(s)|];
  }

  /** Stripping twice is stripping once. */
  lemma StripIdempotent(s: string)
    ensures Strip(Strip(s)) == Strip(s)
  {
    var r := Strip(s);
    assert LeadingSpaces(r) == 0;
    assert TrailingSpaces(r) == 0;
  }

  predicate StartsWith(s: string, p: string) {
    |p| <= |s| && s[..|p|] == p
  }

  predicate EndsWith(s: string, p: string) {
    |p| <= |s| && s[|s| - |p|..] == p
  }

  /** `s.count(c)` for a one-character needle. */
  function CountChar(s: string, c: char): nat
    decreases |s|
  {
    if s == [] then 0 else (if s[0] == c then 1 else 0) + CountChar(s[1..], c)
  }

  lemma {:induction false} CountCharZero(s: string, c: char)
    ensures CountChar(s, c) == 0 <==> c !in s
    decreases |s|
  {
    if s != [] {
      CountCharZero(s[1..], c);
      assert c in s <==> s[0] == c || c in s[1..];
    }
  }

  lemma {:induction false} CountCharConcat(a: string, b: string, c: char)
    ensures CountChar(a + b, c) == CountChar(a, c) + CountChar(b, c)
    decreases |a|
  {
    if a != [] {
      assert (a + b)[1..] == a[1..] + b;
      CountCharConcat(a[1..], b, c);
    } else {
      assert a + b == b;
    }
  }

  /** `sep.join(parts)`. */
  function Join(parts: seq<string>, sep: string): string
    decreases |parts|
  {
    if |parts| == 0 then [] else if |parts| == 1 then parts[0] else parts[0] + sep + Join(parts[1..], sep)
  }

  /** `s.split(d)` for a one-character separator: never empty, one more part than separators. */
  function Split(s: string, d: char): (r: seq<string>)
    ensures |r| == CountChar(s, d) + 1
    ensures forall i :: 0 <= i < |r| ==> d !in r[i]
    decreases |s|
  {
    if s == [] then [[]]
    else
      var rest := Split(s[1..], d);
      if s[0] == d then [[]] + rest
      else
        assert d !in rest[0];
        [[s[0]] + rest[0]] + rest[1..]
  }

  /** Splitting and joining with the same separator gives back the string. */
  lemma {:induction false} SplitJoin(s: string, d: char)
    ensures Join(Split(s, d), [d]) == s
    decreases |s|
  {
    if s != [] {
      var rest := Split(s[1..], d);
      SplitJoin(s[1..], d);
      if s[0] == d {
        assert Split(s, d) == [[]] + rest;
        assert ([[]] + rest)[1..] == rest;
      } else {
        var head := [s[0]] + rest[0];
        assert Split(s, d) == [head] + rest[1..];
        if |rest| == 1 {
          assert Join(rest, [d]) == rest[0];
        } else {
          assert Join(rest, [d]) == rest[0] + [d] + Join(rest[1..], [d]);
          assert ([head] + rest[1..])[1..] == rest[1..];
        }
      }
    }
  }

  lemma {:induction false} SplitAfterPart(a: string, d: char, rest: string)
    requires d !in a
    ensures Split(a + [d] + rest, d) == [a] + Split(rest, d)
    decreases |a|
  {
    if a == [] {
      assert a + [d] + rest == [d] + rest;
      assert ([d] + rest)[1..] == rest;
    } else {
      assert (a + [d] + rest)[1..] == a[1..] + [d] + rest;
      SplitAfterPart(a[1..], d, rest);
      assert [a[0]] + a[1..] == a;
    }
  }

  lemma {:induction false} SplitOfPart(a: string, d: char)
    requires d !in a
    ensures Split(a, d) == [a]
    decreases |a|
  {
    if a != [] {
      SplitOfPart(a[1..], d);
      assert [a[0]] + a[1..] == a;
    }
  }

  /** Joining separator-free parts and splitting again gives back the parts. */
  lemma {:induction false} JoinSplit(parts: seq<string>, d: char)
    requires |parts| >= 1
    requires forall i :: 0 <= i < |parts| ==> d !in parts[i]
    ensures Split(Join(parts, [d]), d) == parts
    decreases |parts|
  {
    if |parts| == 1 {
      SplitOfPart(parts[0], d);
    } else {
      JoinSplit(parts[1..], d);
      SplitAfterPart(parts[0], d, Join(parts[1..], [d]));
      assert [parts[0]] + parts[1..] == parts;
    }
  }

  /** The first character of a join is that of the first part, the last that of the last
      part, when no part is empty. */
  lemma {:induction false} JoinEnds(parts: seq<string>, sep: string)
    requires |parts| >= 1
    requires forall i :: 0 <= i < |parts| ==> parts[i] != []
    ensures var j := Join(parts, sep); var last := parts[|parts| - 1];
      j != [] && j[0] == parts[0][0] && j[|j| - 1] == last[|last| - 1]
    decreases |parts|
  {
    if |parts| > 1 {
      JoinEnds(parts[1..], sep);
    }
  }

  /** A character found in neither the parts nor the separator is not in the join. */
  lemma {:induction false} CharNotInJoin(parts: seq<string>, sep: string, c: char)
    requires forall i :: 0 <= i < |parts| ==> c !in parts[i]
    requires forall k :: 0 <= k < |sep| ==> sep[k] != c
    ensures c !in Join(parts, sep)
    decreases |parts|
  {
    if |parts| > 1 {
      CharNotInJoin(parts[1..], sep, c);
    }
  }

  /** Number of parts that are not blank once stripped (`len([p for p in parts if p.strip()])`). */
  function NonEmptyCount(parts: seq<string>): (n: nat)
    ensures n <= |parts|
    decreases |parts|
  {
    if parts == [] then 0 else (if IsBlank(parts[0]) then 0 else 1) + NonEmptyCount(parts[1..])
  }

  lemma {:induction false} NonEmptyCountAll(parts: seq<string>)
    requires forall i :: 0 <= i < |parts| ==> !IsBlank(parts[i])
    ensures NonEmptyCount(parts) == |parts|
    decreases |parts|
  {
    if parts != [] {
      NonEmptyCountAll(parts[1..]);
    }
  }

  /** The non-blank entries of a line list, in order (`[ln for ln in lines if ln.strip()]`). */
  function NonBlankLines(lines: seq<string>): (r: seq<string>)
    ensures |r| <= |lines|
    ensures forall i :: 0 <= i < |r| ==> !IsBlank(r[i]) && r[i] in lines
    decreases |lines|
  {
    if lines == [] then []
    else (if IsBlank(lines[0]) then [] else [lines[0]]) + NonBlankLines(lines[1..])
  }

  /** Index of the first line break, or `|s|` when there is none. */
  function LineEnd(s: string): (i: nat)
    ensures i <= |s|
    ensures forall j :: 0 <= j < i ==> !IsLineBreak(s[j])
    ensures i < |s| ==> IsLineBreak(s[i])
    decreases |s|
  {
    if s == [] || IsLineBreak(s[0]) then 0 else 1 + LineEnd(s[1..])
  }

  predicate HasNoLineBreak(line: string) {
    forall j :: 0 <= j < |line| ==> !IsLineBreak(line[j])
  }

  /** Position just after the line break at `i`; "\r\n" counts as one break. */
  function BreakEnd(s: string, i: nat): (next: nat)
    requires i < |s|
    ensures i < next <= |s|
  {
    if i + 1 < |s| && s[i] == '\r' && s[i + 1] == '\n' then i + 2 else i + 1
  }

  /** `str.splitlines()`: no line holds a line break, "\r\n" ends one line, and a final
      line break does not open an empty last line. */
  function SplitLines(s: string): (r: seq<string>)
    ensures r == [] <==> s == []
    ensures forall i :: 0 <= i < |r| ==> HasNoLineBreak(r[i])
    decreases |s|
  {
    if s == [] then []
    else
      var i := LineEnd(s);
      if i == |s| then [s]
      else
        [s[..i]] + SplitLines(s[BreakEnd(s, i)..])
  }

  /** Text whose only line break is "\n". */
  predicate OnlyNewlines(s: string) {
    forall i :: 0 <= i < |s| && IsLineBreak(s[i]) ==> s[i] == '\n'
  }

  lemma JoinCons(a: string, tail: seq<string>, sep: string)
    requires tail != []
    ensures Join([a] + tail, sep) == a + sep + Join(tail, sep)
  {
    assert ([a] + tail)[1..] == tail;
  }

  lemma SplitLinesStep(s: string, i: nat)
    requires i == LineEnd(s) && i < |s| && s[i] == '\n'
    ensures SplitLines(s) == [s[..i]] + SplitLines(s[i + 1..])
  {
    assert BreakEnd(s, i) == i + 1;
  }

  lemma OnlyNewlinesSuffix(s: string, k: nat)
    requires OnlyNewlines(s) && k <= |s|
    ensures OnlyNewlines(s[k..])
  {
    forall j | 0 <= j < |s| - k && IsLineBreak(s[k..][j]) ensures s[k..][j] == '\n' {
      assert s[k..][j] == s[k + j];
    }
  }

  /** The text without one final "\n", if it has one. */
  function DropFinalNewline(s: string): string {
    if s != [] && s[|s| - 1] == '\n' then s[..|s| - 1] else s
  }

  lemma JoinLinesStep(s: string, i: nat, lines: seq<string>)
    requires i < |s| && s[i] == '\n' && s[i + 1..] != []
    requires Join(lines, "\n") == DropFinalNewline(s[i + 1..]) && lines != []
    ensures Join([s[..i]] + lines, "\n") == DropFinalNewline(s)
  {
    var rest := s[i + 1..];
    JoinCons(s[..i], lines, "\n");
    assert s == s[..i] + "\n" + rest;
    if rest[|rest| - 1] == '\n' {
      assert s[..|s| - 1] == s[..i] + "\n" + rest[..|rest| - 1];
    }
  }

  /** For text broken only by "\n", joining the lines with "\n" restores it, except for one
      final "\n", which `splitlines` does not keep. */
  lemma {:induction false} SplitLinesJoin(s: string)
    requires OnlyNewlines(s)
    ensures Join(SplitLines(s), "\n") == DropFinalNewline(s)
    decreases |s|
  {
    if s != [] {
      var i := LineEnd(s);
      if i < |s| {
        var rest := s[i + 1..];
        SplitLinesStep(s, i);
        OnlyNewlinesSuffix(s, i + 1);
        SplitLinesJoin(rest);
        if rest == [] {
          assert s[..|s| - 1] == s[..i];
        } else {
          JoinLinesStep(s, i, SplitLines(rest));
        }
      } else {
        assert !IsLineBreak(s[|s| - 1]);
      }
    }
  }

  /** `re.search(r"\s{2,}", s)`: two adjacent whitespace characters somewhere. */
  predicate HasMultiSpace(s: string)
    decreases |s|
  {
    if |s| < 2 then false
    else if IsSpace(s[0]) && IsSpace(s[1]) then true
    else HasMultiSpace(s[1..])
  }

  predicate SpacePairAt(s: string, i: int) {
    0 <= i < |s| - 1 && IsSpace(s[i]) && IsSpace(s[i + 1])
  }

  /** The scan finds a pair exactly when there is one. */
  lemma {:induction false} HasMultiSpaceAt(s: string)
    ensures HasMultiSpace(s) <==> exists i :: SpacePairAt(s, i)
    decreases |s|
  {
    if |s| >= 2 && !(IsSpace(s[0]) && IsSpace(s[1])) {
      var t := s[1..];
      HasMultiSpaceAt(t);
      if HasMultiSpace(t) {
        var k :| SpacePairAt(t, k);
        assert SpacePairAt(s, k + 1);
      }
      if exists i :: SpacePairAt(s, i) {
        var k :| SpacePairAt(s, k);
        assert k != 0;
        assert SpacePairAt(t, k - 1);
      }
    } else if |s| >= 2 {
      assert SpacePairAt(s, 0);
    }
  }

  /** `re.split(r"\s{2,}", s)`: the parts between maximal runs of two or more whitespace
      characters, scanning left to right as the regex does. */
  function SplitMultiSpace(s: string): (r: seq<string>)
    ensures |r| >= 1
    decreases |s|
  {
    if s == [] then [[]]
    else if |s| >= 2 && IsSpace(s[0]) && IsSpace(s[1]) then
      [[]] + SplitMultiSpace(TrimLeft(s))
    else
      var rest := SplitMultiSpace(s[1..]);
      [[s[0]] + rest[0]] + rest[1..]
  }

  /** No part of the split holds a whitespace run, and a non-empty first part starts where
      the text does. */
  lemma {:induction false} SplitMultiSpaceParts(s: string)
    ensures var r := SplitMultiSpace(s);
      (r[0] != [] ==> s != [] && r[0][0] == s[0])
      && forall i :: 0 <= i < |r| ==> !HasMultiSpace(r[i])
    decreases |s|
  {
    if s == [] {
      assert !HasMultiSpace([]);
    } else if |s| >= 2 && IsSpace(s[0]) && IsSpace(s[1]) {
      var rest := SplitMultiSpace(TrimLeft(s));
      SplitMultiSpaceParts(TrimLeft(s));
      assert SplitMultiSpace(s) == [[]] + rest;
      assert !HasMultiSpace([]);
    } else {
      var rest := SplitMultiSpace(s[1..]);
      SplitMultiSpaceParts(s[1..]);
      var head := [s[0]] + rest[0];
      HasMultiSpaceAt(head);
      HasMultiSpaceAt(rest[0]);
      forall k | 0 <= k < |head| - 1 ensures !SpacePairAt(head, k) {
        if k == 0 {
          assert head[1] == rest[0][0] == s[1];
        } else {
          assert head[k] == rest[0][k - 1] && head[k + 1] == rest[0][k];
          assert !SpacePairAt(rest[0], k - 1);
        }
      }
      assert SplitMultiSpace(s) == [head] + rest[1..];
    }
  }

  /** `re.split(r"\s{2,}", s)` gives a single part exactly when the pattern does not occur. */
  lemma {:induction false} SplitMultiSpaceSingle(s: string)
    ensures |SplitMultiSpace(s)| == 1 <==> !HasMultiSpace(s)
    decreases |s|
  {
    if s != [] && !(|s| >= 2 && IsSpace(s[0]) && IsSpace(s[1])) {
      SplitMultiSpaceSingle(s[1..]);
    }
  }

  /** The leading run ends at the first non-space. */
  lemma {:induction false} LeadingSpacesAre(s: string, k: nat)
    requires k <= |s| && IsBlank(s[..k]) && (k < |s| ==> !IsSpace(s[k]))
    ensures LeadingSpaces(s) == k
    decreases k
  {
    if k > 0 {
      assert s[0] == s[..k][0];
      assert s[1..][..k - 1] == s[..k][1..];
      LeadingSpacesAre(s[1..], k - 1);
    }
  }

  /** The trailing run starts after the last non-space. */
  lemma {:induction false} TrailingSpacesAre(s: string, k: nat)
    requires k <= |s| && IsBlank(s[|s| - k..]) && (k < |s| ==> !IsSpace(s[|s| - k - 1]))
    ensures TrailingSpaces(s) == k
    decreases k
  {
    if k > 0 {
      var t := s[..|s| - 1];
      assert s[|s| - 1] == s[|s| - k..][k - 1];
      var tail := t[|t| - (k - 1)..];
      forall j | 0 <= j < |tail| ensures IsSpace(tail[j]) {
        assert tail[j] == s[|s| - k..][j];
      }
      TrailingSpacesAre(t, k - 1);
    }
  }

  /** Whitespace around trimmed text is what `strip` removes, and only that. */
  lemma StripPadded(pad1: string, s: string, pad2: string)
    requires IsBlank(pad1) && IsBlank(pad2) && Trimmed(s)
    ensures Strip(pad1 + s + pad2) == s
  {
    var t := pad1 + s + pad2;
    assert t[..|pad1|] == pad1 && t[|pad1|] == s[0];
    LeadingSpacesAre(t, |pad1|);
    var u := TrimLeft(t);
    assert u == s + pad2;
    assert u[|u| - |pad2|..] == pad2 && u[|u| - |pad2| - 1] == s[|s| - 1];
    TrailingSpacesAre(u, |pad2|);
    assert TrimRight(u) == s;
  }

  /** A run of two or more whitespace characters before non-space text is one cut. */
  lemma SplitMultiSpaceAfterRun(sep: string, t: string)
    requires |sep| >= 2 && IsBlank(sep)
    requires t == [] || !IsSpace(t[0])
    ensures SplitMultiSpace(sep + t) == [[]] + SplitMultiSpace(t)
  {
    var s := sep + t;
    assert s[0] == sep[0] && s[1] == sep[1];
    assert s[..|sep|] == sep;
    LeadingSpacesAre(s, |sep|);
    assert TrimLeft(s) == t;
  }

  /** Text free of whitespace runs and not ending in whitespace is glued to the first part
      of whatever follows it. */
  lemma {:induction false} SplitMultiSpacePrefix(a: string, t: string)
    requires !HasMultiSpace(a) && (a == [] || !IsSpace(a[|a| - 1]))
    ensures SplitMultiSpace(a + t) == [a + SplitMultiSpace(t)[0]] + SplitMultiSpace(t)[1..]
    decreases |a|
  {
    var r := SplitMultiSpace(t);
    if a == [] {
      assert a + t == t && [] + r[0] == r[0];
      assert [r[0]] + r[1..] == r;
    } else {
      var s := a + t;
      var b := a[1..];
      assert !(|s| >= 2 && IsSpace(s[0]) && IsSpace(s[1])) by {
        if |a| >= 2 {
          assert s[0] == a[0] && s[1] == a[1];
        } else {
          assert s[0] == a[|a| - 1];
        }
      }
      assert !HasMultiSpace(b) && (b == [] || !IsSpace(b[|b| - 1])) by {
        if |a| >= 2 {
          assert b[|b| - 1] == a[|a| - 1];
        }
      }
      assert s[1..] == b + t;
      SplitMultiSpacePrefix(b, t);
      var rest := SplitMultiSpace(s[1..]);
      assert rest[0] == b + r[0] && rest[1..] == r[1..];
      assert SplitMultiSpace(s) == [[s[0]] + rest[0]] + rest[1..];
      assert [s[0]] + (b + r[0]) == a + r[0];
    }
  }

  /** Trimmed parts without whitespace runs, joined by a whitespace run, are cut back
      into the same parts by `re.split(r"\s{2,}", ...)`. */
  lemma {:induction false} SplitMultiSpaceJoin(parts: seq<string>, sep: string)
    requires |parts| >= 1 && |sep| >= 2 && IsBlank(sep)
    requires forall i :: 0 <= i < |parts| ==> Trimmed(parts[i]) && !HasMultiSpace(parts[i])
    ensures SplitMultiSpace(Join(parts, sep)) == parts
    decreases |parts|
  {
    if |parts| == 1 {
      SplitMultiSpacePrefix(parts[0], []);
      assert parts[0] + [] == parts[0];
    } else {
      var tail := Join(parts[1..], sep);
      SplitMultiSpaceJoin(parts[1..], sep);
      JoinEnds(parts[1..], sep);
      assert parts[1..][0] == parts[1];
      SplitMultiSpaceAfterRun(sep, tail);
      assert parts[0] + sep + tail == parts[0] + (sep + tail);
      SplitMultiSpacePrefix(parts[0], sep + tail);
      assert parts[0] + [] == parts[0];
      assert [parts[0]] + parts[1..] == parts;
    }
  }

  /** Gluing two run-free texts with a non-space character makes no whitespace run. */
  lemma NoRunAcross(a: string, c: char, b: string)
    requires !HasMultiSpace(a) && !HasMultiSpace(b) && !IsSpace(c)
    ensures !HasMultiSpace(a + [c] + b)
  {
    var s := a + [c] + b;
    HasMultiSpaceAt(a);
    HasMultiSpaceAt(b);
    HasMultiSpaceAt(s);
    forall i | 0 <= i < |s| - 1 ensures !SpacePairAt(s, i) {
      if i + 1 < |a| {
        assert s[i] == a[i] && s[i + 1] == a[i + 1] && !SpacePairAt(a, i);
      } else if i + 1 == |a| {
        assert s[i + 1] == c;
      } else if i == |a| {
        assert s[i] == c;
      } else {
        assert s[i] == b[i - |a| - 1] && s[i + 1] == b[i - |a|] && !SpacePairAt(b, i - |a| - 1);
      }
    }
  }

  /** Every occurrence of `c` removed (`s.replace(c, "")`). */
  function RemoveChar(s: string, c: char): (r: string)
    ensures c !in r
    ensures |r| == |s| - CountChar(s, c)
    decreases |s|
  {
    if s == [] then [] else (if s[0] == c then [] else [s[0]]) + RemoveChar(s[1..], c)
  }

  lemma {:induction false} RemoveCharConcat(a: string, b: string, c: char)
    ensures RemoveChar(a + b, c) == RemoveChar(a, c) + RemoveChar(b, c)
    decreases |a|
  {
    if a != [] {
      assert (a + b)[1..] == a[1..] + b;
      RemoveCharConcat(a[1..], b, c);
    } else {
      assert a + b == b;
    }
  }

  lemma {:induction false} RemoveCharAbsent(s: string, c: char)
    requires c !in s
    ensures RemoveChar(s, c) == s
    decreases |s|
  {
    if s != [] {
      RemoveCharAbsent(s[1..], c);
    }
  }

  predicate IsDigit(c: char) {
    '0' <= c <= '9'
  }

  predicate AllDigits(s: string) {
    forall i :: 0 <= i < |s| ==> IsDigit(s[i])
  }

  predicate IsAsciiLetter(c: char) {
    ('A' <= c <= 'Z') || ('a' <= c <= 'z')
  }

  /** `str.lower()` on ASCII letters; other characters are kept. */
  function ToLower(s: string): (r: string)
    ensures |r| == |s|
    ensures forall i :: 0 <= i < |s| ==> !('A' <= r[i] <= 'Z')
    decreases |s|
  {
    if s == [] then []
    else
      var c := s[0];
      [if 'A' <= c <= 'Z' then (c as int + 32) as char else c] + ToLower(s[1..])
  }
}
