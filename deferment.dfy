/** `Deferment.getStackASTNodes`: the stack trace of a JavaScript error thrown
    while the compiled program ran is read back to the PHP call nodes whose
    anchor comments the program rule recorded. The deferment's promise side is
    not part of this model; the error is represented by its `stack` text. */
module Deferments {
  import opened Errors
  import opened Strings
  import opened Compiler
  import opened Program

  // ---------------------------------------------------------------------------
  // Recognising an eval frame.

  /** A character of JavaScript's `\s` class. */
  predicate IsSpace(c: char) {
    c == ' ' || c == '\t' || c == '\n' || c == '\U{000B}' || c == '\U{000C}' || c == '\r'
    || c == '\U{00A0}' || c == '\U{1680}' || ('\U{2000}' <= c <= '\U{200A}')
    || c == '\U{2028}' || c == '\U{2029}' || c == '\U{202F}' || c == '\U{205F}'
    || c == '\U{3000}' || c == '\U{FEFF}'
  }

  /** Length of the run of whitespace starting at `i`. */
  function SpaceRun(s: string, i: nat): (n: nat)
    requires i <= |s|
    ensures i + n <= |s|
    ensures forall k :: i <= k < i + n ==> IsSpace(s[k])
    ensures i + n == |s| || !IsSpace(s[i + n])
    decreases |s| - i
  {
    if i < |s| && IsSpace(s[i]) then 1 + SpaceRun(s, i + 1) else 0
  }

  lemma {:induction false} SpaceRunOf(s: string, i: nat, n: nat)
    requires i + n <= |s|
    requires forall k :: i <= k < i + n ==> IsSpace(s[k])
    requires i + n == |s| || !IsSpace(s[i + n])
    ensures SpaceRun(s, i) == n
    decreases n
  {
    if n > 0 {
      SpaceRunOf(s, i + 1, n - 1);
    }
  }

  const EvalFrame: string := "at eval ("

  /** `/^\s+at eval \(/`: the line opens with whitespace and `at eval (`
      follows it. The greedy whitespace run has nothing to give back, since
      `a` is not whitespace. */
  predicate IsEvalLine(line: string) {
    var w := SpaceRun(line, 0);
    w > 0 && w + |EvalFrame| <= |line| && line[w..w + |EvalFrame|] == EvalFrame
  }

  /** An indented `at eval (` line is an eval frame. */
  lemma EvalLineOf(indent: string, rest: string)
    requires |indent| > 0 && forall k :: 0 <= k < |indent| ==> IsSpace(indent[k])
    ensures IsEvalLine(indent + EvalFrame + rest)
  {
    var line := indent + EvalFrame + rest;
    assert line[|indent|] == 'a';
    SpaceRunOf(line, 0, |indent|);
    assert line[|indent|..|indent| + |EvalFrame|] == EvalFrame;
  }

  // ---------------------------------------------------------------------------
  // The location at the end of a frame.

  /** Length of the run of digits that ends just before `j`. */
  function DigitsBefore(s: string, j: nat): (n: nat)
    requires j <= |s|
    ensures n <= j
    ensures forall k :: j - n <= k < j ==> IsDigit(s[k])
    ensures n == j || !IsDigit(s[j - n - 1])
    decreases j
  {
    if j > 0 && IsDigit(s[j - 1]) then 1 + DigitsBefore(s, j - 1) else 0
  }

  lemma {:induction false} DigitsBeforeOf(s: string, j: nat, n: nat)
    requires n <= j <= |s|
    requires forall k :: j - n <= k < j ==> IsDigit(s[k])
    requires n == j || !IsDigit(s[j - n - 1])
    ensures DigitsBefore(s, j) == n
    decreases n
  {
    if n > 0 {
      DigitsBeforeOf(s, j - 1, n - 1);
    }
  }

  /** The two groups of `/:(\d+):(\d+)\)$/`, or `None` when the line does not
      match. Anchored at the end, the match has one possible span: the column
      is the whole run of digits before the final `)`, the row the whole run
      before the colon ahead of it, and each run must follow a colon. */
  function FrameLocation(line: string): (location: Option<(string, string)>)
    ensures location.Some? ==> |location.value.0| > 0 && AllDigits(location.value.0)
    ensures location.Some? ==> |location.value.1| > 0 && AllDigits(location.value.1)
  {
    if |line| == 0 || line[|line| - 1] != ')' then None
    else
      var columnEnd := |line| - 1;
      var columnStart := columnEnd - DigitsBefore(line, columnEnd);
      if columnStart == columnEnd || columnStart == 0 || line[columnStart - 1] != ':' then None
      else
        var rowEnd := columnStart - 1;
        var rowStart := rowEnd - DigitsBefore(line, rowEnd);
        if rowStart == rowEnd || rowStart == 0 || line[rowStart - 1] != ':' then None
        else Some((line[rowStart..rowEnd], line[columnStart..columnEnd]))
  }

  /** The map key the source builds for a frame: the row moved up two lines,
      a comma, the column; both are `undefined` when the line has no
      location. */
  function FrameKey(line: string): string {
    match FrameLocation(line)
    case Some((row, column)) => IntToString(DigitsValue(row) - 2) + "," + IntToString(DigitsValue(column))
    case None => "undefined,undefined"
  }

  /** A frame ending in `:row:column)` is keyed by the row less two and the
      column, whatever precedes the location. */
  lemma FrameKeyOf(before: string, row: nat, column: nat)
    ensures FrameKey(before + ":" + NatToString(row) + ":" + NatToString(column) + ")")
            == IntToString(row - 2) + "," + IntToString(column)
  {
    var r, c := NatToString(row), NatToString(column);
    FrameLocationOfParts(before, r, c);
    DigitsValueOfNatToString(row);
    DigitsValueOfNatToString(column);
    assert FrameKey(before + ":" + r + ":" + c + ")") == IntToString(DigitsValue(r) - 2) + "," + IntToString(DigitsValue(c));
  }

  /** `before:r:c)` with digit runs `r` and `c` is located at `r` and `c`. */
  lemma FrameLocationOfParts(before: string, r: string, c: string)
    requires |r| > 0 && AllDigits(r) && |c| > 0 && AllDigits(c)
    ensures FrameLocation(before + ":" + r + ":" + c + ")") == Some((r, c))
  {
    var line := before + ":" + r + ":" + c + ")";
    var rowStart := |before| + 1;
    var columnStart := rowStart + |r| + 1;
    assert line[rowStart..rowStart + |r|] == r;
    assert line[columnStart..columnStart + |c|] == c;
    ColonDigitRun(line, rowStart, r);
    ColonDigitRun(line, columnStart, c);
  }

  /** A run of digits that follows a colon is the whole run of digits before
      its end. */
  lemma ColonDigitRun(line: string, start: nat, run: string)
    requires 0 < start && start + |run| <= |line| && line[start - 1] == ':'
    requires line[start..start + |run|] == run && AllDigits(run)
    ensures DigitsBefore(line, start + |run|) == |run|
  {
    forall k | start <= k < start + |run| ensures IsDigit(line[k]) {
      assert line[k] == run[k - start];
    }
    DigitsBeforeOf(line, start + |run|, |run|);
  }

  // ---------------------------------------------------------------------------
  // The lookup.

  /** Property access on the row/column object: a missing key reads as
      `undefined`, written `None`, like an entry whose anchor named no node. */
  function Lookup(rowColumnToNode: map<string, Option<nat>>, key: string): Option<nat> {
    if key in rowColumnToNode then rowColumnToNode[key] else None
  }

  /** The nodes the eval frames among `lines` name, in the order of the lines;
      every other line contributes nothing. */
  function FrameNodes(lines: seq<string>, rowColumnToNode: map<string, Option<nat>>): seq<Option<nat>>
    decreases |lines|
  {
    if lines == [] then []
    else
      var last := lines[|lines| - 1];
      FrameNodes(lines[..|lines| - 1], rowColumnToNode)
      + (if IsEvalLine(last) then [Lookup(rowColumnToNode, FrameKey(last))] else [])
  }

  function Reversed<T>(s: seq<T>): (r: seq<T>)
    ensures |r| == |s|
    ensures forall k :: 0 <= k < |s| ==> r[k] == s[|s| - 1 - k]
    decreases |s|
  {
    if s == [] then [] else [s[|s| - 1]] + Reversed(s[..|s| - 1])
  }

  /** What `getStackASTNodes` returns for a stack: the frame nodes in reverse
      line order, the last eval frame first. A stack lists its innermost frame
      first, so the innermost frame comes last. */
  function StackNodes(stack: string, rowColumnToNode: map<string, Option<nat>>): seq<Option<nat>> {
    Reversed(FrameNodes(Split(stack, '\n'), rowColumnToNode))
  }

  lemma ReversedSnoc<T>(s: seq<T>, x: T)
    ensures Reversed(s + [x]) == [x] + Reversed(s)
  {
    assert (s + [x])[..|s|] == s;
  }

  /** One more line adds its own entry, if any, at the end. */
  lemma FrameNodesStep(lines: seq<string>, i: nat, rowColumnToNode: map<string, Option<nat>>)
    requires i < |lines|
    ensures FrameNodes(lines[..i + 1], rowColumnToNode)
            == FrameNodes(lines[..i], rowColumnToNode)
               + (if IsEvalLine(lines[i]) then [Lookup(rowColumnToNode, FrameKey(lines[i]))] else [])
  {
    assert lines[..i + 1][..i] == lines[..i];
  }

  /** One more line puts its own entry, if any, in front of the reversed
      entries of the lines before it. */
  lemma StackNodesStep(lines: seq<string>, i: nat, rowColumnToNode: map<string, Option<nat>>, nodes: seq<Option<nat>>)
    requires i < |lines| && nodes == Reversed(FrameNodes(lines[..i], rowColumnToNode))
    ensures Reversed(FrameNodes(lines[..i + 1], rowColumnToNode))
            == if IsEvalLine(lines[i]) then [Lookup(rowColumnToNode, FrameKey(lines[i]))] + nodes else nodes
  {
    var before := FrameNodes(lines[..i], rowColumnToNode);
    FrameNodesStep(lines, i, rowColumnToNode);
    if IsEvalLine(lines[i]) {
      ReversedSnoc(before, Lookup(rowColumnToNode, FrameKey(lines[i])));
    } else {
      assert before + [] == before;
    }
  }

  /** The key of an eval frame: `undefined,undefined` until its location is
      found, then the row less two and the column. */
  method LineKey(line: string) returns (key: string)
    ensures key == FrameKey(line)
  {
    key := "undefined,undefined";
    var location := FrameLocation(line);
    if location.Some? {
      key := IntToString(DigitsValue(location.value.0) - 2) + "," + IntToString(DigitsValue(location.value.1));
    }
  }

  class Deferment {
    /** The `stack` text of the error the deferment was made for. */
    const stack: string

    constructor(stack: string)
      ensures this.stack == stack
    {
      this.stack := stack;
    }

    /** Each eval frame of the stack, scanned top to bottom, is looked up by
        its key and put in front of the nodes found so far. */
    method GetStackASTNodes(rowColumnToNode: map<string, Option<nat>>) returns (nodes: seq<Option<nat>>)
      ensures nodes == StackNodes(stack, rowColumnToNode)
    {
      var lines := Split(stack, '\n');
      nodes := [];
      var i := 0;
      while i < |lines|
        invariant i <= |lines|
        invariant nodes == Reversed(FrameNodes(lines[..i], rowColumnToNode))
      {
        var line := lines[i];
        StackNodesStep(lines, i, rowColumnToNode, nodes);
        if IsEvalLine(line) {
          var key := LineKey(line);
          var node := Lookup(rowColumnToNode, key);
          nodes := [node] + nodes;
        }
        i := i + 1;
      }
      assert lines[..|lines|] == lines;
    }
  }

  // ---------------------------------------------------------------------------
  // Properties of the scan.

  /** Lines contribute independently and in order. */
  lemma {:induction false} FrameNodesAppend(a: seq<string>, b: seq<string>, rowColumnToNode: map<string, Option<nat>>)
    ensures FrameNodes(a + b, rowColumnToNode) == FrameNodes(a, rowColumnToNode) + FrameNodes(b, rowColumnToNode)
    decreases |b|
  {
    if b != [] {
      var init := b[..|b| - 1];
      FrameNodesAppend(a, init, rowColumnToNode);
      assert (a + b)[..|a + b| - 1] == a + init;
      assert (a + b)[|a + b| - 1] == b[|b| - 1];
    } else {
      assert a + b == a;
    }
  }

  /** One line gives one entry when it is an eval frame, even when the lookup
      finds nothing, and no entry otherwise. */
  lemma FrameNodesOfLine(line: string, rowColumnToNode: map<string, Option<nat>>)
    ensures FrameNodes([line], rowColumnToNode)
            == if IsEvalLine(line) then [Lookup(rowColumnToNode, FrameKey(line))] else []
  {
    assert [line][..0] == [];
  }

  /** The indices of the eval frames among `lines`. */
  function EvalLines(lines: seq<string>): set<nat> {
    set i: nat | i < |lines| && IsEvalLine(lines[i])
  }

  /** One entry per eval frame. */
  lemma {:induction false} FrameNodesCount(lines: seq<string>, rowColumnToNode: map<string, Option<nat>>)
    ensures |FrameNodes(lines, rowColumnToNode)| == |EvalLines(lines)|
    decreases |lines|
  {
    if lines == [] {
      assert EvalLines(lines) == {};
    } else {
      var n := |lines| - 1;
      var init := lines[..n];
      FrameNodesCount(init, rowColumnToNode);
      EvalLinesSnoc(lines);
    }
  }

  lemma EvalLinesSnoc(lines: seq<string>)
    requires lines != []
    ensures var n := |lines| - 1;
            EvalLines(lines) == EvalLines(lines[..n]) + (if IsEvalLine(lines[n]) then {n} else {})
    ensures |lines| - 1 !in EvalLines(lines[..|lines| - 1])
  {
  }

  /** An empty stack yields no nodes. */
  lemma EmptyStackNoNodes(rowColumnToNode: map<string, Option<nat>>)
    ensures StackNodes("", rowColumnToNode) == []
  {
    assert Split("", '\n') == [""];
    FrameNodesOfLine("", rowColumnToNode);
  }

  // ---------------------------------------------------------------------------
  // Meeting the program rule's table.

  lemma KeyTextsInjective()
    ensures forall x: RowColumn, y: RowColumn :: KeyText(x) == KeyText(y) ==> x == y
  {
    forall x: RowColumn, y: RowColumn | KeyText(x) == KeyText(y)
      ensures x == y
    {
      KeyTextInjective(x, y);
    }
  }

  /** The program rule's table as the object handed to the stack reader:
      each row and column under its `row,column` text. */
  function TextKeyed(nodeAt: map<RowColumn, Option<nat>>): (t: map<string, Option<nat>>)
    ensures forall rc :: rc in nodeAt ==> KeyText(rc) in t && t[KeyText(rc)] == nodeAt[rc]
    ensures forall k :: k in t ==> exists rc :: rc in nodeAt && KeyText(rc) == k
  {
    KeyTextsInjective();
    map rc | rc in nodeAt :: KeyText(rc) := nodeAt[rc]
  }

  /** A frame without a location is keyed `undefined,undefined`, which no
      row and column spell, so it finds no node. */
  lemma UnlocatedFrameFindsNothing(line: string, nodeAt: map<RowColumn, Option<nat>>)
    requires FrameLocation(line).None?
    ensures Lookup(TextKeyed(nodeAt), FrameKey(line)) == None
  {
    forall rc | rc in nodeAt
      ensures KeyText(rc) != "undefined,undefined"
    {
      IntToStringCharacters(rc.row);
      assert KeyText(rc)[0] == IntToString(rc.row)[0];
    }
  }

  /** A line without a newline splits to itself. */
  lemma {:induction false} SplitWithoutSeparator(s: string, sep: char)
    requires sep !in s
    ensures Split(s, sep) == [s]
    decreases |s|
  {
    if s != [] {
      SplitWithoutSeparator(s[1..], sep);
      assert [s[0]] + s[1..] == s;
    }
  }

  /** The round trip between the two halves: when the program rule strips
      one anchor comment, a stack holding the eval frame that points two rows
      below and at the column where the comment stood reads back the call
      node the comment named. */
  lemma AnchorFrameFindsNode(a: string, g: nat, b: string, anchors: seq<nat>, indent: string, location: string)
    requires g < |anchors|
    requires forall q :: 0 <= q < |a + AnchorMarker(g) + b| && q != |a| ==> MarkerAt(a + AnchorMarker(g) + b, q).None?
    requires |indent| > 0 && forall k :: 0 <= k < |indent| ==> IsSpace(indent[k]) && indent[k] != '\n'
    requires '\n' !in location
    ensures PositionKey(a).row >= 1 && PositionKey(a).column >= 1
    ensures StackNodes(indent + EvalFrame + location + ":" + NatToString(PositionKey(a).row + 2) + ":"
                       + NatToString(PositionKey(a).column) + ")",
                       TextKeyed(StripFrom(a + AnchorMarker(g) + b, anchors, 0, "", 0, map[]).1))
            == [Some(anchors[g])]
  {
    StripOneAnchor(a, g, b, anchors);
    FrameFindsNode(PositionKey(a), map[PositionKey(a) := Some(anchors[g])], indent, location);
  }

  /** The same round trip for a one-line body holding any number of anchor
      comments: the eval frame pointing at where comment `k` stood in the
      stripped code reads back the node comment `k` named, unless a later
      comment stood at the same place and took its entry over. */
  lemma AnchorsFrameFindsNode(a: string, ps: seq<Anchored>, anchors: seq<nat>, k: nat, indent: string,
                              location: string)
    requires WellFormed(ps) && '\n' !in a + Commented(ps)
    requires forall q :: 0 <= q < |a + Commented(ps)| && MarkerAt(a + Commented(ps), q).Some? ==> q in Starts(|a|, ps)
    requires k < |ps| && (k == |ps| - 1 || ps[k].text != "")
    requires |indent| > 0 && forall i :: 0 <= i < |indent| ==> IsSpace(indent[i]) && indent[i] != '\n'
    requires '\n' !in location
    ensures PositionKey(a + Texts(ps[..k])) == RowColumn(1, |a + Texts(ps[..k])| + 1)
    ensures StackNodes(indent + EvalFrame + location + ":" + NatToString(PositionKey(a + Texts(ps[..k])).row + 2) + ":"
                       + NatToString(PositionKey(a + Texts(ps[..k])).column) + ")",
                       TextKeyed(StripFrom(a + Commented(ps), anchors, 0, "", 0, map[]).1))
            == [NodeOf(anchors, ps[k].digits)]
  {
    StripCommentsFinds(a, ps, anchors, k);
    FrameFindsNode(PositionKey(a + Texts(ps[..k])), StripFrom(a + Commented(ps), anchors, 0, "", 0, map[]).1,
                   indent, location);
  }

  /** A stack holding only the eval frame whose location is two rows below
      `rc` reads back the node the table stores under `rc`. */
  lemma FrameFindsNode(rc: RowColumn, nodeAt: map<RowColumn, Option<nat>>, indent: string, location: string)
    requires rc.row >= 0 && rc.column >= 0 && rc in nodeAt
    requires |indent| > 0 && forall k :: 0 <= k < |indent| ==> IsSpace(indent[k]) && indent[k] != '\n'
    requires '\n' !in location
    ensures StackNodes(indent + EvalFrame + location + ":" + NatToString(rc.row + 2) + ":"
                       + NatToString(rc.column) + ")", TextKeyed(nodeAt)) == [nodeAt[rc]]
  {
    var r, c := NatToString(rc.row + 2), NatToString(rc.column);
    FrameKeyOf(indent + EvalFrame + location, rc.row + 2, rc.column);
    NoNewlineInFrame(indent, location, r, c);
    EvalFrameLine(indent, location, r, c);
    FrameLineFindsNode(indent + EvalFrame + location + ":" + r + ":" + c + ")", rc, nodeAt);
  }

  lemma EvalFrameLine(indent: string, location: string, r: string, c: string)
    requires |indent| > 0 && forall k :: 0 <= k < |indent| ==> IsSpace(indent[k])
    ensures IsEvalLine(indent + EvalFrame + location + ":" + r + ":" + c + ")")
  {
    var rest := location + ":" + r + ":" + c + ")";
    assert indent + EvalFrame + location + ":" + r + ":" + c + ")" == indent + EvalFrame + rest;
    EvalLineOf(indent, rest);
  }

  /** An eval frame keyed by `rc`, alone on the stack, reads back the node
      stored under `rc`. */
  lemma FrameLineFindsNode(line: string, rc: RowColumn, nodeAt: map<RowColumn, Option<nat>>)
    requires IsEvalLine(line) && '\n' !in line
    requires FrameKey(line) == KeyText(rc) && rc in nodeAt
    ensures StackNodes(line, TextKeyed(nodeAt)) == [nodeAt[rc]]
  {
    SplitWithoutSeparator(line, '\n');
    FrameNodesOfLine(line, TextKeyed(nodeAt));
  }

  /** A frame line built from newline-free parts and digits has no newline. */
  lemma NoNewlineInFrame(indent: string, location: string, r: string, c: string)
    requires forall k :: 0 <= k < |indent| ==> indent[k] != '\n'
    requires '\n' !in location && AllDigits(r) && AllDigits(c)
    ensures '\n' !in indent + EvalFrame + location + ":" + r + ":" + c + ")"
  {
    assert '\n' !in EvalFrame;
  }
}
