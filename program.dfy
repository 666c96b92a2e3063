/** The `N_PROGRAM` rule: hoist and compile the program's statements, declare
    a flag per label, then take the anchor comments out of the generated code,
    recording for each the row and column it stood at and the call node it
    names. Module evaluation itself is not part of this model. */
module Program {
  import opened Errors
  import opened Strings
  import opened Ast
  import opened Labels
  import opened Compiler
  import opened Hoisting
  import opened BlockProcessor
  import Blocks

  /** What the rule hands to module evaluation (the code and the table from
      `row,column` keys to call nodes, `None` standing for `undefined`), or the
      fatal error it rejects with. */
  datatype ProgramResult =
    | Rejected(error: FatalError)
    | Evaluate(code: string, nodeAt: map<RowColumn, Option<nat>>)

  // ---------------------------------------------------------------------------
  // Label flags.

  /** The declaration put in front of the body when the program has labels. */
  function LabelDeclarations(labels: seq<string>): string {
    if |labels| == 0 then ""
    else "var goingToLabel_" + Join(labels, " = false, goingToLabel_") + " = false;"
  }

  function FlagDeclarator(labelName: string): string {
    "goingToLabel_" + labelName + " = false"
  }

  function FlagDeclarators(labels: seq<string>): (r: seq<string>)
    ensures |r| == |labels|
    ensures forall k :: 0 <= k < |labels| ==> r[k] == FlagDeclarator(labels[k])
  {
    seq(|labels|, k requires 0 <= k < |labels| => FlagDeclarator(labels[k]))
  }

  /** The joined text is one `var` statement with a `goingToLabel_` flag,
      initialised to false, per label, in the order the labels were found. */
  lemma {:induction false} DeclarationsListEachLabel(labels: seq<string>)
    requires |labels| > 0
    ensures LabelDeclarations(labels) == "var " + Join(FlagDeclarators(labels), ", ") + ";"
  {
    FlagsJoined(labels);
  }

  lemma {:induction false} FlagsJoined(labels: seq<string>)
    requires |labels| > 0
    ensures "goingToLabel_" + Join(labels, " = false, goingToLabel_") + " = false"
            == Join(FlagDeclarators(labels), ", ")
  {
    FlagSeparator();
    JoinWrapped(labels, "goingToLabel_", " = false", ", ");
    assert FlagDeclarators(labels) == seq(|labels|, k requires 0 <= k < |labels| => "goingToLabel_" + labels[k] + " = false");
  }

  lemma {:induction false} FlagSeparator()
    ensures " = false" + ", " + "goingToLabel_" == " = false, goingToLabel_"
  {
  }

  /** Joining with `post + sep + pre` and wrapping the whole in `pre`/`post`
      wraps each part and joins with `sep`. */
  lemma {:induction false} JoinWrapped(parts: seq<string>, pre: string, post: string, sep: string)
    requires |parts| > 0
    ensures pre + Join(parts, post + sep + pre) + post
            == Join(seq(|parts|, k requires 0 <= k < |parts| => pre + parts[k] + post), sep)
    decreases |parts|
  {
    var wrapped := seq(|parts|, k requires 0 <= k < |parts| => pre + parts[k] + post);
    if |parts| > 1 {
      var rest := parts[1..];
      JoinWrapped(rest, pre, post, sep);
      var tail := Join(rest, post + sep + pre);
      assert wrapped[1..] == seq(|rest|, k requires 0 <= k < |rest| => pre + rest[k] + post);
      calc {
        pre + Join(parts, post + sep + pre) + post;
        pre + (parts[0] + (post + sep + pre) + tail) + post;
        (pre + parts[0] + post) + sep + (pre + tail + post);
        wrapped[0] + sep + Join(wrapped[1..], sep);
      }
    }
  }

  // ---------------------------------------------------------------------------
  // Anchor comments.

  const MarkerOpen: string := "/*#UNITER-"
  const MarkerClose: string := "#*/"

  /** Length of the run of decimal digits starting at `i`. */
  function DigitRun(s: string, i: nat): (n: nat)
    requires i <= |s|
    ensures i + n <= |s|
    ensures i + n == |s| || !IsDigit(s[i + n])
    decreases |s| - i
  {
    if i < |s| && IsDigit(s[i]) then 1 + DigitRun(s, i + 1) else 0
  }

  /** The run holds only digits. */
  lemma {:induction false} DigitRunDigits(s: string, i: nat)
    requires i <= |s|
    ensures forall k :: i <= k < i + DigitRun(s, i) ==> IsDigit(s[k])
    decreases |s| - i
  {
    if i < |s| && IsDigit(s[i]) {
      DigitRunDigits(s, i + 1);
    }
  }

  lemma {:induction false} DigitRunOf(s: string, i: nat, n: nat)
    requires i + n <= |s|
    requires forall k :: i <= k < i + n ==> IsDigit(s[k])
    requires i + n == |s| || !IsDigit(s[i + n])
    ensures DigitRun(s, i) == n
    decreases n
  {
    if n > 0 {
      DigitRunOf(s, i + 1, n - 1);
    }
  }

  /** `MarkerOpen` starts at `p`. */
  predicate OpensAt(s: string, p: nat) {
    p + 10 <= |s| && s[p] == '/' && s[p + 1] == '*' && s[p + 2] == '#' && s[p + 3] == 'U' && s[p + 4] == 'N'
    && s[p + 5] == 'I' && s[p + 6] == 'T' && s[p + 7] == 'E' && s[p + 8] == 'R' && s[p + 9] == '-'
  }
  /** `MarkerClose` starts at `q`. */
  predicate ClosesAt(s: string, q: nat) {
    q + 3 <= |s| && s[q] == '#' && s[q + 1] == '*' && s[q + 2] == '/'
  }

  /** The digits of the anchor comment starting at `p`, if one starts there.
      The pattern's digit group is greedy and must be followed by `#`, so it
      spans the whole run of digits. */
  function MarkerAt(s: string, p: nat): (d: Option<string>)
    requires p <= |s|
    ensures d.Some? ==> |d.value| > 0 && AllDigits(d.value)
    ensures d.Some? ==> p + |MarkerOpen + d.value + MarkerClose| <= |s|
  {
    if OpensAt(s, p) then
      var n := DigitRun(s, p + 10);
      DigitRunDigits(s, p + 10);
      if n > 0 && ClosesAt(s, p + 10 + n) then Some(s[p + 10..p + 10 + n]) else None
    else None
  }

  /** A recognised comment is spelt out at its position: the opening, the
      digits, the closing. */
  lemma {:induction false} MarkerAtSpellsComment(s: string, p: nat)
    requires p <= |s| && MarkerAt(s, p).Some?
    ensures var d := MarkerAt(s, p).value;
      s[p..p + |MarkerOpen + d + MarkerClose|] == MarkerOpen + d + MarkerClose
  {
    var d := MarkerAt(s, p).value;
    var q := p + |MarkerOpen| + |d|;
    assert s[p..q + |MarkerClose|] == s[p..p + |MarkerOpen|] + s[p + |MarkerOpen|..q] + s[q..q + |MarkerClose|];
  }

  /** The comment text for a run of digits. */
  function Comment(d: string): string {
    MarkerOpen + d + MarkerClose
  }

  /** A comment around a run of digits is recognised, with those digits,
      wherever it stands. */
  lemma {:induction false} MarkerAtComment(s: string, p: nat, d: string)
    requires |d| > 0 && AllDigits(d)
    requires p + |Comment(d)| <= |s| && s[p..p + |Comment(d)|] == Comment(d)
    ensures MarkerAt(s, p) == Some(d)
  {
    var i := p + |MarkerOpen|;
    CommentCharacters(s, p, d);
    assert OpensAt(s, p);
    assert ClosesAt(s, i + |d|);
    DigitRunOf(s, i, |d|);
    assert s[i..i + |d|] == d;
  }

  /** The characters of a comment written at `p`, part by part. */
  lemma {:induction false} CommentCharacters(s: string, p: nat, d: string)
    requires p + |Comment(d)| <= |s| && s[p..p + |Comment(d)|] == Comment(d)
    ensures forall k :: 0 <= k < |MarkerOpen| ==> s[p + k] == MarkerOpen[k]
    ensures forall k :: 0 <= k < |d| ==> s[p + |MarkerOpen| + k] == d[k]
    ensures forall k :: 0 <= k < |MarkerClose| ==> s[p + |MarkerOpen| + |d| + k] == MarkerClose[k]
  {
    var m := Comment(d);
    forall k | 0 <= k < |m|
      ensures s[p + k] == m[k]
    {
      assert s[p..p + |m|][k] == s[p + k];
    }
    forall k | 0 <= k < |MarkerOpen| ensures s[p + k] == MarkerOpen[k] {
      assert m[k] == MarkerOpen[k];
    }
    forall k | 0 <= k < |d| ensures s[p + |MarkerOpen| + k] == d[k] {
      assert m[|MarkerOpen| + k] == d[k];
    }
    forall k | 0 <= k < |MarkerClose| ensures s[p + |MarkerOpen| + |d| + k] == MarkerClose[k] {
      assert m[|MarkerOpen| + |d| + k] == MarkerClose[k];
    }
  }

  /** The comment the code generator writes for anchor id `g` is recognised,
      with `g`'s digits. */
  lemma {:induction false} MarkerAtAnchor(s: string, p: nat, g: nat)
    requires p + |AnchorMarker(g)| <= |s| && s[p..p + |AnchorMarker(g)|] == AnchorMarker(g)
    ensures MarkerAt(s, p) == Some(NatToString(g))
  {
    assert AnchorMarker(g) == Comment(NatToString(g));
    MarkerAtComment(s, p, NatToString(g));
  }

  /** `guidToNode[guid]`: the table is keyed by the canonical rendering of each
      id, so only that rendering of an id the table holds finds a node. */
  function NodeOf(anchors: seq<nat>, digits: string): Option<nat>
    requires AllDigits(digits)
  {
    var g := DigitsValue(digits);
    if (digits == "0" || (|digits| > 0 && digits[0] != '0')) && g < |anchors| then Some(anchors[g]) else None
  }

  /** The digits of an anchor id lead back to the node given that id. */
  lemma {:induction false} NodeOfAnchor(anchors: seq<nat>, g: nat)
    ensures NodeOf(anchors, NatToString(g)) == if g < |anchors| then Some(anchors[g]) else None
  {
    DigitsValueOfNatToString(g);
    NatToStringCanonical(g);
  }

  /** A key of the row and column table. The source keys its object by the
      text `row,column` (`KeyText`); distinct pairs have distinct texts
      (`KeyTextInjective`), so the model keys its map by the pair. */
  datatype RowColumn = RowColumn(row: int, column: int)

  function KeyText(rc: RowColumn): string {
    IntToString(rc.row) + "," + IntToString(rc.column)
  }

  /** No two rows and columns share a key text. */
  lemma {:induction false} KeyTextInjective(x: RowColumn, y: RowColumn)
    requires KeyText(x) == KeyText(y)
    ensures x == y
  {
    NoCommaInIntToString(x.row);
    NoCommaInIntToString(y.row);
    SplitAtFirst(IntToString(x.row), IntToString(x.column), IntToString(y.row), IntToString(y.column), ',');
    IntToStringInjective(x.row, y.row);
    IntToStringInjective(x.column, y.column);
  }

  /** The one-based row and column of the position just after `text`. */
  function PositionKey(text: string): RowColumn {
    RowColumn(Count(text, '\n') + 1, |text| - LastIndexOf(text, '\n', |text| - 1))
  }

  /** The key the replacement callback computes for `offset`, reading the text
      `body` it was given: the number of lines in the first `offset`
      characters (`Count` plus one is the length of their split on newlines,
      `SplitCount`), and the distance from the last newline at or before
      `offset`. */
  function RowColumnKey(body: string, offset: nat): RowColumn
    requires offset <= |body|
  {
    RowColumn(Count(body[..offset], '\n') + 1, offset - LastIndexOf(body, '\n', offset))
  }

  lemma {:induction false} LastIndexOfPrefix(s: string, c: char, from: int, n: nat)
    requires from < n <= |s|
    ensures LastIndexOf(s, c, from) == LastIndexOf(s[..n], c, from)
    decreases if from < 0 then 0 else from + 1
  {
    if from >= 0 && s[from] != c {
      LastIndexOfPrefix(s, c, from - 1, n);
    }
  }

  /** Where the text at `offset` is not a newline, the callback's key is the
      position just after the first `offset` characters. */
  lemma {:induction false} RowColumnKeyIsPosition(body: string, offset: nat)
    requires offset < |body| && body[offset] != '\n'
    ensures RowColumnKey(body, offset) == PositionKey(body[..offset])
  {
    LastIndexOfPrefix(body, '\n', offset - 1, offset);
  }

  /** The replacement pass from position `p` on: `code` is what has been kept,
      `removed` the length of the comments taken out, and `table` the entries
      recorded so far. */
  function StripFrom(body: string, anchors: seq<nat>, p: nat, code: string, removed: nat,
                     table: map<RowColumn, Option<nat>>): (r: (string, map<RowColumn, Option<nat>>))
    requires removed <= p <= |body|
    decreases |body| - p, 1
  {
    if p == |body| then (code, table) else StripAt(body, anchors, p, code, removed, table)
  }

  /** One step of the pass at a position inside the body: a comment starting
      there is dropped and recorded, any other character is kept. */
  function StripAt(body: string, anchors: seq<nat>, p: nat, code: string, removed: nat,
                   table: map<RowColumn, Option<nat>>): (r: (string, map<RowColumn, Option<nat>>))
    requires removed <= p < |body|
    decreases |body| - p, 0
  {
    match MarkerAt(body, p)
    case Some(d) =>
      var length := |MarkerOpen + d + MarkerClose|;
      StripFrom(body, anchors, p + length, code, removed + length,
                table[RowColumnKey(body, p - removed) := NodeOf(anchors, d)])
    case None =>
      StripFrom(body, anchors, p + 1, code + [body[p]], removed, table)
  }

  /** `body.replace(...)` with the callback of the program rule: each anchor
      comment is removed and its offset in the code without the comments
      before it is recorded against the node its id names. */
  method StripAnchors(body: string, anchors: seq<nat>) returns (code: string, nodeAt: map<RowColumn, Option<nat>>)
    ensures (code, nodeAt) == StripFrom(body, anchors, 0, "", 0, map[])
  {
    code := "";
    nodeAt := map[];
    var anchorOffsets: nat := 0;
    var p := 0;
    ghost var target := StripFrom(body, anchors, 0, "", 0, map[]);
    while p < |body|
      invariant anchorOffsets <= p <= |body|
      invariant StripFrom(body, anchors, p, code, anchorOffsets, nodeAt) == target
    {
      var guid := MarkerAt(body, p);
      if guid.Some? {
        var all := MarkerOpen + guid.value + MarkerClose;
        var offset := p - anchorOffsets;
        var key := RowColumnKey(body, offset);
        var node := NodeOf(anchors, guid.value);
        ghost var (p0, removed0, table0) := (p, anchorOffsets, nodeAt);
        nodeAt := nodeAt[key := node];
        anchorOffsets := anchorOffsets + |all|;
        p := p + |all|;
        assert p == p0 + |MarkerOpen + guid.value + MarkerClose|;
        StripAtComment(body, anchors, p0, code, removed0, table0, guid.value, offset, key, node, p, anchorOffsets);
      } else {
        StripAtCharacter(body, anchors, p, code, anchorOffsets, nodeAt);
        code := code + [body[p]];
        p := p + 1;
      }
    }
  }

  lemma {:induction false} StripAtComment(body: string, anchors: seq<nat>, p: nat, code: string, removed: nat,
                       table: map<RowColumn, Option<nat>>, d: string, offset: nat, key: RowColumn,
                       node: Option<nat>, p': nat, removed': nat)
    requires removed <= p < |body| && MarkerAt(body, p) == Some(d)
    requires offset == p - removed && key == RowColumnKey(body, offset) && node == NodeOf(anchors, d)
    requires p' == p + |MarkerOpen + d + MarkerClose| && removed' == removed + |MarkerOpen + d + MarkerClose|
    ensures removed' <= p' <= |body|
    ensures StripFrom(body, anchors, p, code, removed, table) == StripFrom(body, anchors, p', code, removed', table[key := node])
  {
  }

  lemma {:induction false} StripAtCharacter(body: string, anchors: seq<nat>, p: nat, code: string, removed: nat,
                         table: map<RowColumn, Option<nat>>)
    requires removed <= p < |body| && MarkerAt(body, p).None?
    ensures StripFrom(body, anchors, p, code, removed, table)
            == StripFrom(body, anchors, p + 1, code + [body[p]], removed, table)
  {
  }


  /** Text without anchor comments passes through unchanged and records
      nothing. */
  lemma {:induction false} StripMarkerFree(body: string, anchors: seq<nat>, p: nat, code: string, removed: nat,
                                           table: map<RowColumn, Option<nat>>)
    requires removed <= p <= |body|
    requires forall q :: p <= q < |body| ==> MarkerAt(body, q).None?
    ensures StripFrom(body, anchors, p, code, removed, table) == (code + body[p..], table)
    decreases |body| - p
  {
    if p == |body| {
      assert code + body[p..] == code;
    } else {
      assert MarkerAt(body, p).None?;
      StripMarkerFree(body, anchors, p + 1, code + [body[p]], removed, table);
      assert body[p..] == [body[p]] + body[p + 1..];
      assert code + [body[p]] + body[p + 1..] == code + body[p..];
    }
  }

  /** A single anchor comment between two stretches of plain code is removed,
      and the row and column at which it stood in the resulting code lead
      back to the node it was written for. */
  lemma {:induction false} StripOneAnchor(a: string, g: nat, b: string, anchors: seq<nat>)
    requires g < |anchors|
    requires forall q :: 0 <= q < |a + AnchorMarker(g) + b| && q != |a| ==> MarkerAt(a + AnchorMarker(g) + b, q).None?
    ensures StripFrom(a + AnchorMarker(g) + b, anchors, 0, "", 0, map[])
            == (a + b, map[PositionKey(a) := Some(anchors[g])])
  {
    assert AnchorMarker(g) == Comment(NatToString(g));
    NodeOfAnchor(anchors, g);
    StripOneComment(a, NatToString(g), b, anchors);
  }

  /** The same for any comment around a run of digits: it is removed, and its
      position in the code without it leads to the node those digits name. */
  lemma {:induction false} StripOneComment(a: string, d: string, b: string, anchors: seq<nat>)
    requires |d| > 0 && AllDigits(d)
    requires forall q :: 0 <= q < |a + Comment(d) + b| && q != |a| ==> MarkerAt(a + Comment(d) + b, q).None?
    ensures StripFrom(a + Comment(d) + b, anchors, 0, "", 0, map[])
            == (a + b, map[PositionKey(a) := NodeOf(anchors, d)])
  {
    var body := a + Comment(d) + b;
    StripPrefix(body, anchors, |a|);
    assert body[..|a|] == a;
    CommentRecognised(a, d, b);
    StripFromComment(body, anchors, |a|, a, 0, map[], d, |a|, PositionKey(a), NodeOf(anchors, d),
                     |a| + |Comment(d)|, |Comment(d)|);
    assert body[|a| + |Comment(d)|..] == b;
  }

  /** The comment between `a` and `b` is recognised, at the row and column
      `a` ends at. */
  lemma {:induction false} CommentRecognised(a: string, d: string, b: string)
    requires |d| > 0 && AllDigits(d)
    ensures MarkerAt(a + Comment(d) + b, |a|) == Some(d)
    ensures RowColumnKey(a + Comment(d) + b, |a|) == PositionKey(a)
  {
    var m := Comment(d);
    var body := a + m + b;
    assert body[|a|..|a| + |m|] == m;
    MarkerAtComment(body, |a|, d);
    assert body[|a|] == m[0] == '/';
    RowColumnKeyIsPosition(body, |a|);
    assert body[..|a|] == a;
  }

  /** From a recognised comment on, when no other comment follows, the pass
      records the comment and copies the rest. */
  lemma {:induction false} StripFromComment(body: string, anchors: seq<nat>, p: nat, code: string, removed: nat,
                         table: map<RowColumn, Option<nat>>, d: string, offset: nat, key: RowColumn,
                         node: Option<nat>, p': nat, removed': nat)
    requires removed <= p < |body| && MarkerAt(body, p) == Some(d)
    requires offset == p - removed && key == RowColumnKey(body, offset) && node == NodeOf(anchors, d)
    requires p' == p + |MarkerOpen + d + MarkerClose| && removed' == removed + |MarkerOpen + d + MarkerClose|
    requires forall q :: p' <= q < |body| ==> MarkerAt(body, q).None?
    ensures StripFrom(body, anchors, p, code, removed, table) == (code + body[p'..], table[key := node])
  {
    StripAtComment(body, anchors, p, code, removed, table, d, offset, key, node, p', removed');
    StripMarkerFree(body, anchors, p', code, removed', table[key := node]);
  }

  /** Over a stretch with no comment, the pass copies the characters. */
  lemma {:induction false} StripPrefix(body: string, anchors: seq<nat>, n: nat)
    requires n <= |body|
    requires forall q :: 0 <= q < n ==> MarkerAt(body, q).None?
    ensures StripFrom(body, anchors, 0, "", 0, map[]) == StripFrom(body, anchors, n, body[..n], 0, map[])
  {
    var k := 0;
    while k < n
      invariant k <= n
      invariant StripFrom(body, anchors, 0, "", 0, map[]) == StripFrom(body, anchors, k, body[..k], 0, map[])
    {
      assert body[..k] + [body[k]] == body[..k + 1];
      k := k + 1;
    }
  }

  /** No comment is recognised from `i` up to `j`. */
  predicate Plain(body: string, i: nat, j: nat)
    requires i <= j <= |body|
    decreases j - i
  {
    i == j || (MarkerAt(body, i).None? && Plain(body, i + 1, j))
  }

  lemma {:induction false} PlainOf(body: string, i: nat, j: nat)
    requires i <= j <= |body|
    requires forall q :: i <= q < j ==> MarkerAt(body, q).None?
    ensures Plain(body, i, j)
    decreases j - i
  {
    if i < j {
      PlainOf(body, i + 1, j);
    }
  }

  /** Over a stretch of `n` characters with no comment, the pass copies them,
      wherever the stretch starts. */
  lemma {:induction false} StripSpan(body: string, anchors: seq<nat>, p: nat, n: nat, code: string, removed: nat,
                                     table: map<RowColumn, Option<nat>>)
    requires removed <= p && p + n <= |body| && Plain(body, p, p + n)
    ensures StripFrom(body, anchors, p, code, removed, table)
            == StripFrom(body, anchors, p + n, code + body[p..p + n], removed, table)
    decreases n
  {
    if n == 0 {
      assert code + body[p..p] == code;
    } else {
      StripAtCharacter(body, anchors, p, code, removed, table);
      StripSpan(body, anchors, p + 1, n - 1, code + [body[p]], removed, table);
      assert code + [body[p]] + body[p + 1..p + n] == code + body[p..p + n];
    }
  }
  /** Over a stretch spelling `t` with no comment, the pass copies `t`. */
  lemma {:induction false} StripText(body: string, anchors: seq<nat>, p: nat, t: string, code: string, removed: nat,
                                     table: map<RowColumn, Option<nat>>)
    requires removed <= p && p + |t| <= |body| && body[p..p + |t|] == t && Plain(body, p, p + |t|)
    ensures StripFrom(body, anchors, p, code, removed, table)
            == StripFrom(body, anchors, p + |t|, code + t, removed, table)
  {
    StripSpan(body, anchors, p, |t|, code, removed, table);
  }


  // ---------------------------------------------------------------------------
  // Any number of anchors.

  /** An anchor comment holding `digits`, followed by the plain code `text`. */
  datatype Anchored = Anchored(digits: string, text: string)

  predicate WellFormed(ps: seq<Anchored>) {
    forall k :: 0 <= k < |ps| ==> |ps[k].digits| > 0 && AllDigits(ps[k].digits)
  }

  /** The comments and the code after each, in order. */
  function Commented(ps: seq<Anchored>): string {
    if ps == [] then "" else Comment(ps[0].digits) + ps[0].text + Commented(ps[1..])
  }

  /** The code without the comments. */
  function Texts(ps: seq<Anchored>): string {
    if ps == [] then "" else ps[0].text + Texts(ps[1..])
  }

  /** Where the comments of `Commented(ps)` start when it is placed at `p`. */
  function Starts(p: nat, ps: seq<Anchored>): (r: set<nat>)
    ensures forall q :: q in r ==> p <= q
    decreases |ps|
  {
    if ps == [] then {} else {p} + Starts(p + |Comment(ps[0].digits)| + |ps[0].text|, ps[1..])
  }

  /** On one line, the position just after `code`. */
  function After(code: string): RowColumn {
    RowColumn(1, |code| + 1)
  }

  /** The table written comment by comment, in order, each comment's node
      stored against the position where it stood in the code without
      comments, `code` being the code before the first; on one line that is
      row 1 and the column after the code before it. */
  function Recorded(table: map<RowColumn, Option<nat>>, code: string, ps: seq<Anchored>,
                    anchors: seq<nat>): map<RowColumn, Option<nat>>
    requires WellFormed(ps)
    decreases |ps|
  {
    if ps == [] then table
    else Recorded(table[After(code) := NodeOf(anchors, ps[0].digits)], code + ps[0].text, ps[1..], anchors)
  }

  lemma {:induction false} CountAbsent(s: string, c: char)
    requires c !in s
    ensures Count(s, c) == 0
    decreases |s|
  {
    if s != [] {
      assert c !in s[1..] by { assert forall k :: 0 <= k < |s| - 1 ==> s[1..][k] == s[k + 1]; }
      CountAbsent(s[1..], c);
    }
  }

  lemma {:induction false} LastIndexOfAbsent(s: string, c: char, from: int)
    requires c !in s
    ensures LastIndexOf(s, c, from) == -1
    decreases if from < 0 then 0 else from + 1
  {
    if 0 <= from < |s| {
      LastIndexOfAbsent(s, c, from - 1);
    } else if from >= |s| {
      LastIndexOfAbsent(s, c, |s| - 1);
    }
  }

  /** In text without newlines, the position after `code` is row 1, column
      `|code| + 1`. */
  lemma {:induction false} SingleLinePosition(code: string)
    requires '\n' !in code
    ensures PositionKey(code) == After(code)
  {
    CountAbsent(code, '\n');
    LastIndexOfAbsent(code, '\n', |code| - 1);
  }

  /** Every offset of `body` is keyed row 1, one column past the offset. */
  predicate OneLine(body: string) {
    forall n :: 0 <= n <= |body| ==> RowColumnKey(body, n) == RowColumn(1, n + 1)
  }

  /** A body without newlines is on one line. */
  lemma {:induction false} OneLineOf(body: string)
    requires '\n' !in body
    ensures OneLine(body)
  {
    forall n | 0 <= n <= |body|
      ensures RowColumnKey(body, n) == RowColumn(1, n + 1)
    {
      assert '\n' !in body[..n];
      CountAbsent(body[..n], '\n');
      LastIndexOfAbsent(body, '\n', n);
    }
  }

  /** What the pass sees from `p` on: the comments of `ps`, each recognised
      where it starts and followed by its code, in which no comment is
      recognised. */
  predicate Laid(body: string, p: nat, ps: seq<Anchored>)
    decreases |ps|, 1
  {
    if ps == [] then p == |body| else LaidFirst(body, p, ps)
  }

  /** The first comment of `ps` at `p`, its code, and the rest after it. */
  predicate LaidFirst(body: string, p: nat, ps: seq<Anchored>)
    requires ps != []
    decreases |ps|, 0
  {
    var c := |Comment(ps[0].digits)|;
    var next := p + c + |ps[0].text|;
    && next <= |body| && MarkerAt(body, p) == Some(ps[0].digits) && body[p + c..next] == ps[0].text
    && Plain(body, p + c, next) && Laid(body, next, ps[1..])
  }

  /** From a comment on, the pass keeps the code between the comments and
      records each comment at the position it stood at in the kept code:
      the `removed` shift makes the offsets those of the code without the
      comments already taken out. */
  lemma {:induction false} StripPieces(body: string, anchors: seq<nat>, p: nat, code: string, removed: nat,
                                       table: map<RowColumn, Option<nat>>, ps: seq<Anchored>)
    requires removed <= p <= |body| && |code| == p - removed
    requires Laid(body, p, ps) && WellFormed(ps) && OneLine(body)
    ensures StripFrom(body, anchors, p, code, removed, table)
            == (code + Texts(ps), Recorded(table, code, ps, anchors))
    decreases |ps|
  {
    if ps == [] {
      StripEnd(body, anchors, p, code, removed, table);
      RecordedEnd(StripFrom(body, anchors, p, code, removed, table), table, code, ps, anchors);
    } else {
      StripComment(body, anchors, p, code, removed, table, ps);
      WellFormedTail(ps);
      StripPieces(body, anchors, p + |Comment(ps[0].digits)| + |ps[0].text|, code + ps[0].text,
                  removed + |Comment(ps[0].digits)|, table[After(code) := NodeOf(anchors, ps[0].digits)], ps[1..]);
      RecordedStep(StripFrom(body, anchors, p, code, removed, table),
                   StripFrom(body, anchors, p + |Comment(ps[0].digits)| + |ps[0].text|, code + ps[0].text,
                             removed + |Comment(ps[0].digits)|, table[After(code) := NodeOf(anchors, ps[0].digits)]),
                   table, code, ps, anchors);
    }
  }

  /** At the end of the body the pass stops. */
  lemma {:induction false} StripEnd(body: string, anchors: seq<nat>, p: nat, code: string, removed: nat,
                 table: map<RowColumn, Option<nat>>)
    requires removed <= p == |body|
    ensures StripFrom(body, anchors, p, code, removed, table) == (code, table)
  {
  }

  lemma {:induction false} RecordedEnd(r: (string, map<RowColumn, Option<nat>>), table: map<RowColumn, Option<nat>>, code: string,
                    ps: seq<Anchored>, anchors: seq<nat>)
    requires ps == [] && r == (code, table)
    ensures r == (code + Texts(ps), Recorded(table, code, ps, anchors))
  {
    assert code + Texts(ps) == code;
  }

  /** What is kept and recorded for the first comment, followed by what is
      kept and recorded for the rest, is what is kept and recorded for all. */
  lemma {:induction false} RecordedStep(r: (string, map<RowColumn, Option<nat>>), s: (string, map<RowColumn, Option<nat>>),
                     table: map<RowColumn, Option<nat>>, code: string, ps: seq<Anchored>, anchors: seq<nat>)
    requires WellFormed(ps) && ps != []
    requires r == s
    requires s == (code + ps[0].text + Texts(ps[1..]),
                   Recorded(table[After(code) := NodeOf(anchors, ps[0].digits)], code + ps[0].text, ps[1..], anchors))
    ensures r == (code + Texts(ps), Recorded(table, code, ps, anchors))
  {
    Blocks.Assoc(code, ps[0].text, Texts(ps[1..]));
  }

  /** On one line, a comment's node is recorded at the position just after
      the code produced so far. */
  lemma {:induction false} StripAtCommentOnLine(body: string, anchors: seq<nat>, p: nat, code: string, removed: nat,
                                                table: map<RowColumn, Option<nat>>, d: string, p': nat, removed': nat)
    requires removed <= p < |body| && |code| == p - removed && OneLine(body) && MarkerAt(body, p) == Some(d)
    requires p' == p + |Comment(d)| && removed' == removed + |Comment(d)|
    ensures StripFrom(body, anchors, p, code, removed, table)
            == StripFrom(body, anchors, p', code, removed', table[After(code) := NodeOf(anchors, d)])
  {
    assert RowColumnKey(body, p - removed) == After(code);
    StripAtComment(body, anchors, p, code, removed, table, d, p - removed, After(code), NodeOf(anchors, d), p', removed');
  }

  /** The first comment and the code after it. */
  lemma {:induction false} StripComment(body: string, anchors: seq<nat>, p: nat, code: string, removed: nat,
                     table: map<RowColumn, Option<nat>>, ps: seq<Anchored>)
    requires removed <= p && |code| == p - removed && OneLine(body)
    requires ps != [] && LaidFirst(body, p, ps)
    ensures p + |Comment(ps[0].digits)| + |ps[0].text| <= |body|
    ensures Laid(body, p + |Comment(ps[0].digits)| + |ps[0].text|, ps[1..])
    ensures StripFrom(body, anchors, p, code, removed, table)
            == StripFrom(body, anchors, p + |Comment(ps[0].digits)| + |ps[0].text|, code + ps[0].text,
                         removed + |Comment(ps[0].digits)|, table[After(code) := NodeOf(anchors, ps[0].digits)])
  {
    StripAtCommentOnLine(body, anchors, p, code, removed, table, ps[0].digits, p + |Comment(ps[0].digits)|,
                         removed + |Comment(ps[0].digits)|);
    StripText(body, anchors, p + |Comment(ps[0].digits)|, ps[0].text, code, removed + |Comment(ps[0].digits)|,
              table[After(code) := NodeOf(anchors, ps[0].digits)]);
  }

  /** The comments of `ps`, written out from `p` to the end of the body, are
      what the pass sees, when no other comment is recognised there. */
  lemma {:induction false} LaidOf(body: string, p: nat, ps: seq<Anchored>)
    requires p <= |body| && body[p..] == Commented(ps) && WellFormed(ps)
    requires forall q :: p <= q < |body| && MarkerAt(body, q).Some? ==> q in Starts(p, ps)
    ensures Laid(body, p, ps)
    decreases |ps|
  {
    if ps == [] {
      assert |body[p..]| == 0;
    } else {
      var next := p + |Comment(ps[0].digits)| + |ps[0].text|;
      LaidStep(body, p, ps, next);
      LaidOf(body, next, ps[1..]);
      LaidFirstOf(body, p, ps, next);
    }
  }

  /** The first comment written out at `p` is recognised there and its code
      follows it. */
  lemma {:induction false} LaidStep(body: string, p: nat, ps: seq<Anchored>, next: nat)
    requires p <= |body| && body[p..] == Commented(ps) && WellFormed(ps) && ps != []
    requires forall q :: p <= q < |body| && MarkerAt(body, q).Some? ==> q in Starts(p, ps)
    requires next == p + |Comment(ps[0].digits)| + |ps[0].text|
    ensures next <= |body| && body[next..] == Commented(ps[1..]) && WellFormed(ps[1..])
    ensures forall q :: next <= q < |body| && MarkerAt(body, q).Some? ==> q in Starts(next, ps[1..])
    ensures MarkerAt(body, p) == Some(ps[0].digits) && body[p + |Comment(ps[0].digits)|..next] == ps[0].text
    ensures Plain(body, p + |Comment(ps[0].digits)|, next)
  {
    LaidSlices(body, p, ps, next);
    MarkerAtComment(body, p, ps[0].digits);
    StartsFirst(p, ps, next);
    MarkersBeyond(body, p, p + |Comment(ps[0].digits)|, next, Starts(p, ps), Starts(next, ps[1..]));
    WellFormedTail(ps);
  }

  /** The facts `LaidFirst` gathers for the first comment. */
  lemma {:induction false} LaidFirstOf(body: string, p: nat, ps: seq<Anchored>, next: nat)
    requires ps != [] && next == p + |Comment(ps[0].digits)| + |ps[0].text| && next <= |body|
    requires MarkerAt(body, p) == Some(ps[0].digits) && body[p + |Comment(ps[0].digits)|..next] == ps[0].text
    requires Plain(body, p + |Comment(ps[0].digits)|, next) && Laid(body, next, ps[1..])
    ensures Laid(body, p, ps)
  {
    assert LaidFirst(body, p, ps);
  }

  /** The first comment starts at `p`, the others where its code ends. */
  lemma {:induction false} StartsFirst(p: nat, ps: seq<Anchored>, next: nat)
    requires ps != [] && next == p + |Comment(ps[0].digits)| + |ps[0].text|
    ensures Starts(p, ps) == {p} + Starts(next, ps[1..])
  {
  }

  /** The first comment written out at `p`, its code, and the rest. */
  lemma {:induction false} LaidSlices(body: string, p: nat, ps: seq<Anchored>, next: nat)
    requires p <= |body| && body[p..] == Commented(ps) && ps != []
    requires next == p + |Comment(ps[0].digits)| + |ps[0].text|
    ensures next <= |body| && body[next..] == Commented(ps[1..])
    ensures body[p..p + |Comment(ps[0].digits)|] == Comment(ps[0].digits)
    ensures body[p + |Comment(ps[0].digits)|..next] == ps[0].text
  {
    var d, t := ps[0].digits, ps[0].text;
    assert Commented(ps) == Comment(d) + t + Commented(ps[1..]);
    PieceSlices(body, p, Comment(d), t, Commented(ps[1..]));
    CommentSlices(body, p, Comment(d), t);
  }

  /** The two parts of a comment followed by its code. */
  lemma {:induction false} CommentSlices(body: string, p: nat, m: string, t: string)
    requires p + |m| + |t| <= |body| && body[p..p + |m| + |t|] == m + t
    ensures body[p..p + |m|] == m && body[p + |m|..p + |m| + |t|] == t
  {
    assert body[p..p + |m|] == (m + t)[..|m|];
    assert body[p + |m|..p + |m| + |t|] == (m + t)[|m|..];
  }

  /** When the only comment recognised from `p` on is at `p` itself or in
      `rest`, which starts at `next` or later, nothing is recognised between
      `i` and `next`, and from `next` on only the comments in `rest` are. */
  lemma {:induction false} MarkersBeyond(body: string, p: nat, i: nat, next: nat, starts: set<nat>, rest: set<nat>)
    requires p < i <= next <= |body|
    requires starts == {p} + rest && forall q :: q in rest ==> next <= q
    requires forall q :: p <= q < |body| && MarkerAt(body, q).Some? ==> q in starts
    ensures Plain(body, i, next)
    ensures forall q :: next <= q < |body| && MarkerAt(body, q).Some? ==> q in rest
  {
    PlainOf(body, i, next);
  }

  /** A stretch of text split into its head, its middle and the rest. */
  lemma {:induction false} PieceSlices(body: string, p: nat, m: string, t: string, rest: string)
    requires p <= |body| && body[p..] == m + t + rest
    ensures p + |m| + |t| <= |body|
    ensures body[p..p + |m| + |t|] == m + t && body[p + |m| + |t|..] == rest
  {
    assert body[p..p + |m| + |t|] == body[p..][..|m| + |t|];
    assert body[p + |m| + |t|..] == body[p..][|m| + |t|..];
  }

  /** Any number of anchor comments, each followed by plain code, after a
      first stretch `a` of plain code: the pass yields the code without the
      comments and the table `Recorded` writes, provided no other comment is
      recognised in the body and the body is on one line. */
  lemma {:induction false} StripComments(a: string, ps: seq<Anchored>, anchors: seq<nat>)
    requires WellFormed(ps) && '\n' !in a + Commented(ps)
    requires forall q :: 0 <= q < |a + Commented(ps)| && MarkerAt(a + Commented(ps), q).Some? ==> q in Starts(|a|, ps)
    ensures StripFrom(a + Commented(ps), anchors, 0, "", 0, map[]) == (a + Texts(ps), Recorded(map[], a, ps, anchors))
  {
    var body := a + Commented(ps);
    StripPrefix(body, anchors, |a|);
    assert body[..|a|] == a && body[|a|..] == Commented(ps);
    OneLineOf(body);
    LaidOf(body, |a|, ps);
    StripPieces(body, anchors, |a|, a, 0, map[], ps);
  }

  /** The code before the `k`-th comment. */
  function Before(code: string, ps: seq<Anchored>, k: nat): string
    requires k <= |ps|
  {
    code + Texts(ps[..k])
  }

  /** The table holds an entry for each comment and no other new entry. */
  lemma {:induction false} RecordedKeys(table: map<RowColumn, Option<nat>>, code: string, ps: seq<Anchored>,
                                        anchors: seq<nat>)
    requires WellFormed(ps)
    ensures Recorded(table, code, ps, anchors).Keys
            == table.Keys + set k | 0 <= k < |ps| :: After(Before(code, ps, k))
    decreases |ps|
  {
    if ps != [] {
      var t' := table[After(code) := NodeOf(anchors, ps[0].digits)];
      WellFormedTail(ps);
      RecordedKeys(t', code + ps[0].text, ps[1..], anchors);
      BeforeShift(code, ps);
      assert Before(code, ps, 0) == code;
      var later := set k | 0 <= k < |ps| - 1 :: After(Before(code + ps[0].text, ps[1..], k));
      var all := set k | 0 <= k < |ps| :: After(Before(code, ps, k));
      assert all == {After(code)} + later by {
        forall x | x in all ensures x in {After(code)} + later {
          var k :| 0 <= k < |ps| && x == After(Before(code, ps, k));
          if k > 0 { assert x == After(Before(code + ps[0].text, ps[1..], k - 1)); }
        }
        forall x | x in later ensures x in all {
          var k :| 0 <= k < |ps| - 1 && x == After(Before(code + ps[0].text, ps[1..], k));
          assert x == After(Before(code, ps, k + 1));
        }
      }
    }
  }

  lemma {:induction false} WellFormedTail(ps: seq<Anchored>)
    requires WellFormed(ps) && ps != []
    ensures WellFormed(ps[1..])
  {
    assert forall k :: 0 <= k < |ps| - 1 ==> ps[1..][k] == ps[k + 1];
  }

  /** The code before comment `k + 1` is the first comment's code followed by
      the code before comment `k` of the rest. */
  lemma {:induction false} BeforeShift(code: string, ps: seq<Anchored>)
    requires ps != []
    ensures forall k :: 0 <= k < |ps| ==>
      Before(code, ps, k + 1) == Before(code + ps[0].text, ps[1..], k)
  {
    forall k | 0 <= k < |ps|
      ensures Before(code, ps, k + 1) == Before(code + ps[0].text, ps[1..], k)
    {
      assert ps[..k + 1][1..] == ps[1..][..k];
      assert Texts(ps[..k + 1]) == ps[0].text + Texts(ps[1..][..k]);
    }
  }

  lemma {:induction false} TextsSplit(ps: seq<Anchored>, k: nat)
    requires k <= |ps|
    ensures Texts(ps) == Texts(ps[..k]) + Texts(ps[k..])
    decreases k
  {
    if k == 0 {
      assert ps[..0] == [] && ps[0..] == ps;
    } else {
      TextsSplit(ps[1..], k - 1);
      assert ps[1..][..k - 1] == ps[..k][1..];
      assert ps[1..][k - 1..] == ps[k..];
    }
  }

  lemma {:induction false} TextsOnOneLine(ps: seq<Anchored>)
    requires '\n' !in Commented(ps)
    ensures '\n' !in Texts(ps)
    decreases |ps|
  {
    if ps != [] {
      assert Commented(ps) == Comment(ps[0].digits) + (ps[0].text + Commented(ps[1..]));
      TextsOnOneLine(ps[1..]);
    }
  }

  /** Entries for positions no comment stood at are left alone. */
  lemma {:induction false} RecordedKeeps(table: map<RowColumn, Option<nat>>, code: string, ps: seq<Anchored>,
                                         anchors: seq<nat>, key: RowColumn)
    requires WellFormed(ps) && key in table
    requires forall k :: 0 <= k < |ps| ==> After(Before(code, ps, k)) != key
    ensures key in Recorded(table, code, ps, anchors) && Recorded(table, code, ps, anchors)[key] == table[key]
    decreases |ps|
  {
    if ps != [] {
      WellFormedTail(ps);
      BeforeShift(code, ps);
      assert Before(code, ps, 0) == code;
      RecordedKeeps(table[After(code) := NodeOf(anchors, ps[0].digits)], code + ps[0].text, ps[1..],
                    anchors, key);
    }
  }

  /** A comment followed by code, and the last comment, can be found again:
      the entry at the position where it stood names the node its digits
      give. Two comments with no code between them stand at the same
      position, and the later one's entry is the one kept. */
  lemma {:induction false} RecordedEntry(table: map<RowColumn, Option<nat>>, code: string, ps: seq<Anchored>,
                                         anchors: seq<nat>, k: nat)
    requires WellFormed(ps)
    requires k < |ps| && (k == |ps| - 1 || ps[k].text != "")
    ensures After(Before(code, ps, k)) in Recorded(table, code, ps, anchors)
    ensures Recorded(table, code, ps, anchors)[After(Before(code, ps, k))] == NodeOf(anchors, ps[k].digits)
    decreases |ps|
  {
    var t0 := ps[0].text;
    var t' := table[After(code) := NodeOf(anchors, ps[0].digits)];
    WellFormedTail(ps);
    BeforeShift(code, ps);
    if k == 0 {
      assert Before(code, ps, 0) == code;
      forall j | 0 <= j < |ps| - 1
        ensures After(Before(code + t0, ps[1..], j)) != After(code)
      {
        assert |Before(code + t0, ps[1..], j)| >= |code| + |t0|;
      }
      RecordedKeeps(t', code + t0, ps[1..], anchors, After(code));
    } else {
      RecordedEntry(t', code + t0, ps[1..], anchors, k - 1);
    }
  }

  /** The pass over a one-line body with any number of anchor comments: a
      comment followed by code, or the last one, is recorded at the row and
      column where it stood in the code without comments, against the node
      its digits name. */
  lemma {:induction false} StripCommentsFinds(a: string, ps: seq<Anchored>, anchors: seq<nat>, k: nat)
    requires WellFormed(ps) && '\n' !in a + Commented(ps)
    requires forall q :: 0 <= q < |a + Commented(ps)| && MarkerAt(a + Commented(ps), q).Some? ==> q in Starts(|a|, ps)
    requires k < |ps| && (k == |ps| - 1 || ps[k].text != "")
    ensures PositionKey(a + Texts(ps[..k])) == RowColumn(1, |a + Texts(ps[..k])| + 1)
    ensures var nodeAt := StripFrom(a + Commented(ps), anchors, 0, "", 0, map[]).1;
            PositionKey(a + Texts(ps[..k])) in nodeAt
            && nodeAt[PositionKey(a + Texts(ps[..k]))] == NodeOf(anchors, ps[k].digits)
  {
    StripComments(a, ps, anchors);
    RecordedEntry(map[], a, ps, anchors, k);
    TextsOnOneLine(ps);
    TextsSplit(ps, k);
    assert a + Texts(ps) == Before(a, ps, k) + Texts(ps[k..]);
    SingleLinePosition(Before(a, ps, k));
  }

  // ---------------------------------------------------------------------------
  // The rule.

  /** What the program rule produces. A fatal error rejects with that error;
      a host error is swallowed and leaves the body empty, the labels found
      before it still declared. `listener` says whether a while loop's
      listener stays attached after the loop, as the source leaves it, or is
      detached (see `RuleProperties.WhileListenerScoped`). */
  function ProgramSpec(statements: seq<Node>, resume: Option<Resume>, listener: LoopListener): ProgramResult {
    ProgramOf(ProcessBlockSpec(Hoisted(statements), RootContext(resume, listener), InitialState()))
  }

  /** The rule's result for the outcome of compiling the hoisted statements. */
  function ProgramOf(c: Outcome<string>): ProgramResult {
    if c.Thrown? && c.error.Fatal? then Rejected(c.error.fatal)
    else
      var body := if c.Done? then c.value else "";
      var stripped := StripFrom(LabelDeclarations(GetLabels(c.st.repo)) + body, c.st.anchors, 0, "", 0, map[]);
      Evaluate(stripped.0, stripped.1)
  }

  /** The rule as the source runs it: hoist, process the block, prepend the
      flag declarations, strip the anchors. */
  method CompileProgram(statements: seq<Node>, resume: Option<Resume>, listener: LoopListener) returns (r: ProgramResult)
    ensures r == ProgramSpec(statements, resume, listener)
  {
    var hoisted := HoistDeclarations(statements);
    var c := ProcessBlock(hoisted, RootContext(resume, listener), InitialState());
    if c.Thrown? && c.error.Fatal? {
      return Rejected(c.error.fatal);
    }
    var body := "";
    if c.Done? {
      body := c.value;
    }
    var labels := GetLabels(c.st.repo);
    if |labels| > 0 {
      body := LabelDeclarations(labels) + body;
    } else {
      assert LabelDeclarations(labels) + body == body;
    }
    var code, nodeAt := StripAnchors(body, c.st.anchors);
    r := Evaluate(code, nodeAt);
  }

  /** A PHP fatal error raised while compiling rejects the program with that
      error; nothing is evaluated. */
  lemma {:induction false} FatalErrorRejects(statements: seq<Node>, resume: Option<Resume>, listener: LoopListener,
                                             e: FatalError, st: CState)
    requires ProcessBlockSpec(Hoisted(statements), RootContext(resume, listener), InitialState()) == Thrown(Fatal(e), st)
    ensures ProgramSpec(statements, resume, listener) == Rejected(e)
  {
  }

  /** A completed body made of plain code `a` followed by anchor comments,
      each before its own stretch of code, on one line: the program
      evaluates the flag declarations and the body with every comment
      removed, and the table keys each comment's node at the position the
      comment stood in that code. */
  lemma {:induction false} ProgramStripsAnchors(statements: seq<Node>, resume: Option<Resume>, listener: LoopListener,
                                                st: CState, a: string, ps: seq<Anchored>)
    requires ProcessBlockSpec(Hoisted(statements), RootContext(resume, listener), InitialState())
             == Done(a + Commented(ps), st)
    requires WellFormed(ps) && '\n' !in LabelDeclarations(GetLabels(st.repo)) + a + Commented(ps)
    requires forall q :: 0 <= q < |LabelDeclarations(GetLabels(st.repo)) + a + Commented(ps)|
                         && MarkerAt(LabelDeclarations(GetLabels(st.repo)) + a + Commented(ps), q).Some?
                         ==> q in Starts(|LabelDeclarations(GetLabels(st.repo)) + a|, ps)
    ensures ProgramSpec(statements, resume, listener)
            == Evaluate(LabelDeclarations(GetLabels(st.repo)) + a + Texts(ps),
                        Recorded(map[], LabelDeclarations(GetLabels(st.repo)) + a, ps, st.anchors))
  {
    DoneStripsAnchors(st, LabelDeclarations(GetLabels(st.repo)), a, ps);
  }

  lemma {:induction false} DoneStripsAnchors(st: CState, flags: string, a: string, ps: seq<Anchored>)
    requires flags == LabelDeclarations(GetLabels(st.repo))
    requires WellFormed(ps) && '\n' !in flags + a + Commented(ps)
    requires forall q :: 0 <= q < |flags + a + Commented(ps)| && MarkerAt(flags + a + Commented(ps), q).Some?
                         ==> q in Starts(|flags + a|, ps)
    ensures ProgramOf(Done(a + Commented(ps), st)) == Evaluate(flags + a + Texts(ps), Recorded(map[], flags + a, ps, st.anchors))
  {
    assert flags + (a + Commented(ps)) == flags + a + Commented(ps);
    StripComments(flags + a, ps, st.anchors);
  }

  /** A host error raised while compiling is swallowed: the program
      evaluates only the flag declarations of the labels found before it,
      with an empty table. */
  lemma {:induction false} HostErrorKeepsDeclarations(statements: seq<Node>, resume: Option<Resume>,
                                                      listener: LoopListener, st: CState)
    requires ProcessBlockSpec(Hoisted(statements), RootContext(resume, listener), InitialState()) == Thrown(HostError, st)
    requires forall q :: 0 <= q < |LabelDeclarations(GetLabels(st.repo))|
                         ==> MarkerAt(LabelDeclarations(GetLabels(st.repo)), q).None?
    ensures ProgramSpec(statements, resume, listener) == Evaluate(LabelDeclarations(GetLabels(st.repo)), map[])
  {
    HostErrorStrips(st, LabelDeclarations(GetLabels(st.repo)));
  }

  lemma {:induction false} HostErrorStrips(st: CState, flags: string)
    requires flags == LabelDeclarations(GetLabels(st.repo))
    requires forall q :: 0 <= q < |flags| ==> MarkerAt(flags, q).None?
    ensures ProgramOf(Thrown(HostError, st)) == Evaluate(flags, map[])
  {
    assert flags + "" == flags;
    StripMarkerFree(flags, st.anchors, 0, "", 0, map[]);
    assert "" + flags[0..] == flags;
  }
}
