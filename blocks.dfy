/** The goto/label block assembler: the per-statement records of one sibling
    sequence, the resume splice, the label guards and the wrapping that turns
    each goto into a labelled-block exit (forward jump) or a labelled-loop
    continue (backward jump). */
module Blocks {
  import opened Errors

  /** The code fragments the assembler adds around statements. Each carries the
      label it was added for; the closing fragments render without it. */
  datatype Piece =
    | GuardOpen(name: string)
    | GuardClose(name: string)
    | BlockOpen(name: string)
    | BlockClose(name: string)
    | LoopOpen(name: string)
    | LoopClose(name: string)

  function PieceText(p: Piece): string
  {
    match p
    case GuardOpen(l) => "if (!goingToLabel_" + l + ") {"
    case GuardClose(_) => "}"
    case BlockOpen(l) => l + ": {"
    case BlockClose(_) => "}"
    case LoopOpen(l) => "continue_" + l + ": do {"
    case LoopClose(l) => "} while (goingToLabel_" + l + ");"
  }

  function Render(ps: seq<Piece>): string
    decreases |ps|
  {
    if ps == [] then "" else PieceText(ps[0]) + Render(ps[1..])
  }

  /** One statement of the sequence: its compiled code, the labels of the gotos
      and of the label definitions met while compiling it (each list in first
      occurrence order, without repeats), the fragments added before and after
      it, and whether it is a function declaration. */
  datatype StatementData = StatementData(
    code: string,
    gotos: seq<string>,
    labels: seq<string>,
    prefix: seq<Piece>,
    suffix: seq<Piece>,
    isFunction: bool)

  /** A statement with its fragments removed. */
  function Bare(d: StatementData): StatementData {
    d.(prefix := [], suffix := [])
  }

  /** `a` and `b` hold the same statements, whatever fragments surround them. */
  ghost predicate SameStatements(a: seq<StatementData>, b: seq<StatementData>) {
    |a| == |b| && forall k :: 0 <= k < |a| ==> Bare(a[k]) == Bare(b[k])
  }

  lemma SameStatementsTrans(a: seq<StatementData>, b: seq<StatementData>, c: seq<StatementData>)
    requires SameStatements(a, b) && SameStatements(b, c)
    ensures SameStatements(a, c)
  {
  }

  /** No statement has fragments yet, as when the records are first built. */
  ghost predicate Unwrapped(ds: seq<StatementData>) {
    forall k :: 0 <= k < |ds| ==> ds[k].prefix == [] && ds[k].suffix == []
  }

  /** The jump a resumed run starts with: a goto to the resume label. */
  function ResumeGoto(labelName: string): StatementData {
    StatementData("goingToLabel_" + labelName + " = true; break " + labelName + ";",
      [labelName], [], [], [], false)
  }

  /** Index of the first statement at or after `from` that is not a function
      declaration, or `|ds|` when there is none. */
  function FirstNonFunction(ds: seq<StatementData>, from: nat): (r: nat)
    requires from <= |ds|
    ensures from <= r <= |ds|
    ensures r < |ds| ==> !ds[r].isFunction
    ensures forall k :: from <= k < r ==> ds[k].isFunction
    decreases |ds| - from
  {
    if from == |ds| || !ds[from].isFunction then from else FirstNonFunction(ds, from + 1)
  }

  /** When resuming, the resume goto goes just before the first statement that
      is not a function declaration; with none, nothing is inserted. */
  function Splice(ds: seq<StatementData>, resume: Option<string>): seq<StatementData>
  {
    match resume
    case None => ds
    case Some(l) =>
      var p := FirstNonFunction(ds, 0);
      if p == |ds| then ds else ds[..p] + [ResumeGoto(l)] + ds[p..]
  }

  /** With resume data, exactly one resume goto is inserted, right before the
      first statement that is not a function, and the statements around it are
      kept; when every statement is a function, nothing changes. */
  lemma SpliceResumeGoto(ds: seq<StatementData>, labelName: string)
    ensures var r := Splice(ds, Some(labelName));
      if forall k :: 0 <= k < |ds| ==> ds[k].isFunction then r == ds
      else exists p ::
        && 0 <= p < |ds|
        && !ds[p].isFunction
        && (forall k :: 0 <= k < p ==> ds[k].isFunction)
        && r == ds[..p] + [ResumeGoto(labelName)] + ds[p..]
  {
    var p := FirstNonFunction(ds, 0);
    if !(forall k :: 0 <= k < |ds| ==> ds[k].isFunction) {
      var w :| 0 <= w < |ds| && !ds[w].isFunction;
      assert p <= w;
    }
  }

  /** Without resume data the sequence is left alone. */
  lemma SpliceWithoutResume(ds: seq<StatementData>)
    ensures Splice(ds, None) == ds
  {
  }

  // ---------------------------------------------------------------------------
  // Label guards: every label defined by a statement other than the first is
  // guarded so that falling into it from the top skips the statements before.

  /** Guards for the labels `m..` of statement `index`. */
  function GuardLabels(ds: seq<StatementData>, index: nat, m: nat): (r: seq<StatementData>)
    requires 0 < index < |ds| && m <= |ds[index].labels|
    ensures SameStatements(r, ds)
    ensures forall k :: 0 <= k < |r| ==> r[k].suffix == ds[k].suffix
    decreases |ds[index].labels| - m
  {
    if m == |ds[index].labels| then ds
    else
      var l := ds[index].labels[m];
      var ds' := ds[0 := ds[0].(prefix := [GuardOpen(l)] + ds[0].prefix)]
                   [index := ds[index].(prefix := [GuardClose(l)] + ds[index].prefix)];
      GuardLabels(ds', index, m + 1)
  }

  /** The guard stage from statement `index` on. */
  function GuardFrom(ds: seq<StatementData>, index: nat): (r: seq<StatementData>)
    requires index <= |ds|
    ensures SameStatements(r, ds)
    ensures forall k :: 0 <= k < |r| ==> r[k].suffix == ds[k].suffix
    decreases |ds| - index
  {
    if index == |ds| then ds
    else GuardFrom(if index > 0 then GuardLabels(ds, index, 0) else ds, index + 1)
  }

  // ---------------------------------------------------------------------------
  // Goto wrapping.

  /** Visiting statement `j` for the goto to `labelName` in statement `i`: if
      `j` is another statement defining the label, a forward jump opens a
      labelled block at `i` that closes before `j`, and a backward jump opens a
      labelled loop at `j` that closes after `i`. */
  function WrapStep(ds: seq<StatementData>, i: nat, labelName: string, j: nat): (r: seq<StatementData>)
    requires i < |ds| && j < |ds|
    ensures SameStatements(r, ds)
  {
    if j != i && labelName in ds[j].labels then
      if j > i then
        ds[i := ds[i].(prefix := [BlockOpen(labelName)] + ds[i].prefix)]
          [j := ds[j].(prefix := [BlockClose(labelName)] + ds[j].prefix)]
      else
        ds[j := ds[j].(prefix := ds[j].prefix + [LoopOpen(labelName)])]
          [i := ds[i].(suffix := ds[i].suffix + [LoopClose(labelName)])]
    else ds
  }

  /** The goto to `labelName` in statement `i`, against targets `j..`. */
  function WrapTargets(ds: seq<StatementData>, i: nat, labelName: string, j: nat): (r: seq<StatementData>)
    requires i < |ds| && j <= |ds|
    ensures SameStatements(r, ds)
    decreases |ds| - j
  {
    if j == |ds| then ds else WrapTargets(WrapStep(ds, i, labelName, j), i, labelName, j + 1)
  }

  /** Wrapping for the gotos `g..` of statement `i`; a goto to a label the same
      statement defines is left alone. */
  function WrapGotos(ds: seq<StatementData>, i: nat, g: nat): (r: seq<StatementData>)
    requires i < |ds| && g <= |ds[i].gotos|
    ensures SameStatements(r, ds)
    decreases |ds[i].gotos| - g
  {
    if g == |ds[i].gotos| then ds
    else
      var l := ds[i].gotos[g];
      var ds' := if l !in ds[i].labels then WrapTargets(ds, i, l, 0) else ds;
      WrapGotos(ds', i, g + 1)
  }

  /** The wrapping stage from statement `i` on. */
  function WrapFrom(ds: seq<StatementData>, i: nat): (r: seq<StatementData>)
    requires i <= |ds|
    ensures SameStatements(r, ds)
    decreases |ds| - i
  {
    if i == |ds| then ds else WrapFrom(WrapGotos(ds, i, 0), i + 1)
  }

  /** Both stages: guards, then goto wrapping. */
  function Wrapped(ds: seq<StatementData>): (r: seq<StatementData>)
    ensures SameStatements(r, ds)
  {
    WrapFrom(GuardFrom(ds, 0), 0)
  }

  /** The emitted code: prefix, code and suffix of each statement, in order. */
  function Emit(ds: seq<StatementData>): string
    decreases |ds|
  {
    if ds == [] then ""
    else
      var d := ds[|ds| - 1];
      Emit(ds[..|ds| - 1]) + Render(d.prefix) + d.code + Render(d.suffix)
  }

  /** What the assembler returns for compiled records `ds`. */
  function Assemble(ds: seq<StatementData>, resume: Option<string>): string
  {
    Emit(Wrapped(Splice(ds, resume)))
  }

  /** Statements that define no label and jump to none. */
  predicate Plain(ds: seq<StatementData>) {
    forall k :: 0 <= k < |ds| ==> ds[k].labels == [] && ds[k].gotos == []
  }

  /** Neither stage touches plain statements: their block is their codes,
      in order. */
  lemma PlainWrapped(ds: seq<StatementData>)
    requires Plain(ds)
    ensures Wrapped(ds) == ds
  {
    PlainGuarded(ds, 0);
    PlainGotos(ds, 0);
  }

  lemma {:induction false} PlainGuarded(ds: seq<StatementData>, index: nat)
    requires Plain(ds) && index <= |ds|
    ensures GuardFrom(ds, index) == ds
    decreases |ds| - index
  {
    if index < |ds| {
      if index > 0 {
        assert GuardLabels(ds, index, 0) == ds;
      }
      PlainGuarded(ds, index + 1);
    }
  }

  lemma {:induction false} PlainGotos(ds: seq<StatementData>, i: nat)
    requires Plain(ds) && i <= |ds|
    ensures WrapFrom(ds, i) == ds
    decreases |ds| - i
  {
    if i < |ds| {
      assert WrapGotos(ds, i, 0) == ds;
      PlainGotos(ds, i + 1);
    }
  }

  // ---------------------------------------------------------------------------
  // Where the fragments end up, in order and with their multiplicity. The
  // functions below read the original records `s`, whose labels and gotos no
  // stage changes. Pieces a stage prepends end up with the latest one
  // outermost, so the "front" functions list them latest first; pieces a
  // stage appends are listed in the order they are added.

  /** `n` copies of `p`. */
  function Repeat(p: Piece, n: nat): (r: seq<Piece>)
    ensures |r| == n && forall t :: 0 <= t < n ==> r[t] == p
    ensures forall q :: q in r ==> q == p
    decreases n
  {
    if n == 0 then [] else Repeat(p, n - 1) + [p]
  }

  lemma {:induction false} RepeatCount(p: Piece, n: nat, q: Piece)
    ensures multiset(Repeat(p, n))[q] == if q == p then n else 0
    decreases n
  {
    if n > 0 {
      RepeatCount(p, n - 1, q);
    }
  }

  lemma RepeatCons(p: Piece, n: nat)
    ensures [p] + Repeat(p, n) == Repeat(p, n + 1)
  {
    assert forall t :: 0 <= t < n + 1 ==> ([p] + Repeat(p, n))[t] == p;
  }

  lemma CountSplit(a: seq<Piece>, b: seq<Piece>, p: Piece)
    ensures multiset(a + b)[p] == multiset(a)[p] + multiset(b)[p]
  {
  }

  /** A piece a sequence does not hold is counted zero times in it. */
  lemma AbsentCount(ps: seq<Piece>, p: Piece)
    requires p !in ps
    ensures multiset(ps)[p] == 0
  {
  }

  /** No string is listed twice, as in the key lists of a record. */
  predicate NoRepeats(xs: seq<string>) {
    forall a, b :: 0 <= a < b < |xs| ==> xs[a] != xs[b]
  }

  lemma NoRepeatsTail(xs: seq<string>, g: nat)
    requires NoRepeats(xs) && g < |xs|
    ensures xs[g] !in xs[g + 1..]
  {
  }

  lemma Assoc<T>(a: seq<T>, b: seq<T>, c: seq<T>)
    ensures a + b + c == a + (b + c)
  {
  }

  lemma Regroup(a: seq<Piece>, b: seq<Piece>, c: seq<Piece>, d: seq<Piece>, e: seq<Piece>)
    ensures a + (b + c + d) + e == a + b + c + (d + e)
  {
  }

  /** Every record's gotos and labels are keys: none is listed twice. */
  ghost predicate Keyed(s: seq<StatementData>) {
    forall t {:trigger NoRepeats(s[t].gotos)} {:trigger NoRepeats(s[t].labels)} ::
      0 <= t < |s| ==> NoRepeats(s[t].gotos) && NoRepeats(s[t].labels)
  }

  /** Statement `i` has a goto to `l` that it does not resolve itself. */
  predicate CrossGoto(s: seq<StatementData>, i: int, l: string)
    requires 0 <= i < |s|
  {
    l in s[i].gotos && l !in s[i].labels
  }

  /** How many statements in `lo..hi` define `l`. */
  function DefinedCount(s: seq<StatementData>, l: string, lo: nat, hi: nat): (r: nat)
    requires lo <= hi <= |s|
    ensures r <= hi - lo
    ensures r == 0 <==> forall t :: lo <= t < hi ==> l !in s[t].labels
    decreases hi - lo
  {
    if lo == hi then 0 else (if l in s[lo].labels then 1 else 0) + DefinedCount(s, l, lo + 1, hi)
  }

  /** How many statements in `lo..hi` have a goto to `l` they do not resolve
      themselves. */
  function CrossGotoCount(s: seq<StatementData>, l: string, lo: nat, hi: nat): (r: nat)
    requires lo <= hi <= |s|
    ensures r <= hi - lo
    ensures r == 0 <==> forall t :: lo <= t < hi ==> !CrossGoto(s, t, l)
    decreases hi - lo
  {
    if lo == hi then 0 else (if CrossGoto(s, lo, l) then 1 else 0) + CrossGotoCount(s, l, lo + 1, hi)
  }

  // Guards.

  /** The guards labels `m..` of statement `index` put in front of statement
      `k`, the last label's first: an opening at the first statement and a
      closing at statement `index`, per label. */
  function LabelGuards(s: seq<StatementData>, index: nat, m: nat, k: nat): (r: seq<Piece>)
    requires 0 < index < |s| && m <= |s[index].labels| && k < |s|
    ensures forall p :: p in r ==> if k == 0 then p.GuardOpen? else p.GuardClose?
    decreases |s[index].labels| - m
  {
    if m == |s[index].labels| then []
    else
      var l := s[index].labels[m];
      LabelGuards(s, index, m + 1, k)
        + (if k == 0 then [GuardOpen(l)] else if k == index then [GuardClose(l)] else [])
  }

  /** The guards statements `index..` put in front of statement `k`, the last
      statement's first. */
  function GuardFronts(s: seq<StatementData>, index: nat, k: nat): (r: seq<Piece>)
    requires index <= |s| && k < |s|
    ensures forall p :: p in r ==> if k == 0 then p.GuardOpen? else p.GuardClose?
    decreases |s| - index
  {
    if index == |s| then []
    else GuardFronts(s, index + 1, k) + (if index > 0 then LabelGuards(s, index, 0, k) else [])
  }

  /** Guarding labels `m..` of statement `index` prepends exactly their guards. */
  lemma {:induction false} GuardLabelsEffect(s: seq<StatementData>, ds: seq<StatementData>, index: nat, m: nat, k: nat)
    requires SameStatements(ds, s) && 0 < index < |ds| && m <= |ds[index].labels| && k < |ds|
    ensures GuardLabels(ds, index, m)[k].prefix == LabelGuards(s, index, m, k) + ds[k].prefix
    decreases |ds[index].labels| - m
  {
    assert Bare(ds[index]) == Bare(s[index]);
    if m < |ds[index].labels| {
      var l := ds[index].labels[m];
      var ds' := ds[0 := ds[0].(prefix := [GuardOpen(l)] + ds[0].prefix)]
                   [index := ds[index].(prefix := [GuardClose(l)] + ds[index].prefix)];
      assert Bare(ds'[0]) == Bare(ds[0]);
      assert SameStatements(ds', s);
      var added := if k == 0 then [GuardOpen(l)] else if k == index then [GuardClose(l)] else [];
      assert ds'[k].prefix == added + ds[k].prefix;
      GuardLabelsEffect(s, ds', index, m + 1, k);
      Assoc(LabelGuards(s, index, m + 1, k), added, ds[k].prefix);
    }
  }

  /** The guard stage from `index` on prepends exactly the guards of the
      statements it visits. */
  lemma {:induction false} GuardFromEffect(s: seq<StatementData>, ds: seq<StatementData>, index: nat, k: nat)
    requires SameStatements(ds, s) && index <= |ds| && k < |ds|
    ensures GuardFrom(ds, index)[k].prefix == GuardFronts(s, index, k) + ds[k].prefix
    decreases |ds| - index
  {
    if index < |ds| {
      if index > 0 {
        GuardLabelsEffect(s, ds, index, 0, k);
        GuardFromEffect(s, GuardLabels(ds, index, 0), index + 1, k);
        Assoc(GuardFronts(s, index + 1, k), LabelGuards(s, index, 0, k), ds[k].prefix);
      } else {
        GuardFromEffect(s, ds, index + 1, k);
      }
    }
  }

  lemma {:induction false} LabelGuardsElsewhere(s: seq<StatementData>, index: nat, m: nat, k: nat)
    requires 0 < index < |s| && m <= |s[index].labels| && k < |s| && k != 0 && k != index
    ensures LabelGuards(s, index, m, k) == []
    decreases |s[index].labels| - m
  {
    if m < |s[index].labels| {
      LabelGuardsElsewhere(s, index, m + 1, k);
    }
  }

  /** A statement other than the first is guarded only by its own labels. */
  lemma {:induction false} GuardFrontsOwn(s: seq<StatementData>, index: nat, k: nat)
    requires index <= |s| && 0 < k < |s|
    ensures GuardFronts(s, index, k) == if index <= k then LabelGuards(s, k, 0, k) else []
    decreases |s| - index
  {
    if index < |s| {
      GuardFrontsOwn(s, index + 1, k);
      if index == k {
        assert GuardFronts(s, index, k) == [] + LabelGuards(s, k, 0, k);
      } else if index > 0 {
        LabelGuardsElsewhere(s, index, 0, k);
        assert GuardFronts(s, index, k) == GuardFronts(s, index + 1, k) + [];
      } else {
        assert GuardFronts(s, index, k) == GuardFronts(s, index + 1, k) + [];
      }
    }
  }

  lemma {:induction false} LabelGuardCounts(s: seq<StatementData>, index: nat, m: nat, k: nat, l: string)
    requires Keyed(s) && 0 < index < |s| && m <= |s[index].labels| && k < |s|
    ensures multiset(LabelGuards(s, index, m, k))[GuardOpen(l)]
         == if k == 0 && l in s[index].labels[m..] then 1 else 0
    ensures multiset(LabelGuards(s, index, m, k))[GuardClose(l)]
         == if k == index && l in s[index].labels[m..] then 1 else 0
    decreases |s[index].labels| - m
  {
    if m < |s[index].labels| {
      assert s[index].labels[m..] == [s[index].labels[m]] + s[index].labels[m + 1..];
      NoRepeatsTail(s[index].labels, m);
      LabelGuardCounts(s, index, m + 1, k, l);
    }
  }

  /** The first statement gets one guard opening per later statement
      defining the label. */
  lemma {:induction false} GuardOpenCount(s: seq<StatementData>, index: nat, l: string)
    requires Keyed(s) && 0 < index <= |s|
    ensures multiset(GuardFronts(s, index, 0))[GuardOpen(l)] == DefinedCount(s, l, index, |s|)
    decreases |s| - index
  {
    if index < |s| {
      GuardOpenCount(s, index + 1, l);
      LabelGuardCounts(s, index, 0, 0, l);
      assert s[index].labels[0..] == s[index].labels;
    }
  }

  // Goto wrapping.

  /** What visiting statement `j` for the goto to `l` in statement `i` puts in
      front of statement `k`'s prefix, appends to that prefix, and appends to
      its suffix. */
  function StepFront(s: seq<StatementData>, i: nat, l: string, j: nat, k: nat): seq<Piece>
    requires i < |s| && j < |s| && k < |s|
  {
    if j > i && l in s[j].labels then
      if k == i then [BlockOpen(l)] else if k == j then [BlockClose(l)] else []
    else []
  }

  function StepBack(s: seq<StatementData>, i: nat, l: string, j: nat, k: nat): seq<Piece>
    requires i < |s| && j < |s| && k < |s|
  {
    if j < i && l in s[j].labels && k == j then [LoopOpen(l)] else []
  }

  function StepSuffix(s: seq<StatementData>, i: nat, l: string, j: nat, k: nat): seq<Piece>
    requires i < |s| && j < |s| && k < |s|
  {
    if j < i && l in s[j].labels && k == i then [LoopClose(l)] else []
  }

  /** A forward target prepends a block opening to the goto's statement and a
      closing to the target; a backward target appends a loop opening to the
      target's prefix and a loop closing to the goto statement's suffix. */
  lemma WrapStepEffect(s: seq<StatementData>, ds: seq<StatementData>, i: nat, l: string, j: nat, k: nat)
    requires SameStatements(ds, s) && i < |ds| && j < |ds| && k < |ds|
    ensures WrapStep(ds, i, l, j)[k].prefix == StepFront(s, i, l, j, k) + ds[k].prefix + StepBack(s, i, l, j, k)
    ensures WrapStep(ds, i, l, j)[k].suffix == ds[k].suffix + StepSuffix(s, i, l, j, k)
  {
    assert Bare(ds[j]) == Bare(s[j]);
  }

  function TargetFronts(s: seq<StatementData>, i: nat, l: string, j: nat, k: nat): seq<Piece>
    requires i < |s| && j <= |s| && k < |s|
    decreases |s| - j
  {
    if j == |s| then [] else TargetFronts(s, i, l, j + 1, k) + StepFront(s, i, l, j, k)
  }

  function TargetBacks(s: seq<StatementData>, i: nat, l: string, j: nat, k: nat): seq<Piece>
    requires i < |s| && j <= |s| && k < |s|
    decreases |s| - j
  {
    if j == |s| then [] else StepBack(s, i, l, j, k) + TargetBacks(s, i, l, j + 1, k)
  }

  function TargetSuffix(s: seq<StatementData>, i: nat, l: string, j: nat, k: nat): seq<Piece>
    requires i < |s| && j <= |s| && k < |s|
    decreases |s| - j
  {
    if j == |s| then [] else StepSuffix(s, i, l, j, k) + TargetSuffix(s, i, l, j + 1, k)
  }

  /** Visiting targets `j..` adds the visits' pieces, in visiting order. */
  lemma {:induction false} WrapTargetsEffect(s: seq<StatementData>, ds: seq<StatementData>, i: nat, l: string, j: nat, k: nat)
    requires SameStatements(ds, s) && i < |ds| && j <= |ds| && k < |ds|
    ensures WrapTargets(ds, i, l, j)[k].prefix == TargetFronts(s, i, l, j, k) + ds[k].prefix + TargetBacks(s, i, l, j, k)
    ensures WrapTargets(ds, i, l, j)[k].suffix == ds[k].suffix + TargetSuffix(s, i, l, j, k)
    decreases |ds| - j
  {
    if j < |ds| {
      WrapStepEffect(s, ds, i, l, j, k);
      WrapTargetsEffect(s, WrapStep(ds, i, l, j), i, l, j + 1, k);
      Regroup(TargetFronts(s, i, l, j + 1, k), StepFront(s, i, l, j, k), ds[k].prefix,
              StepBack(s, i, l, j, k), TargetBacks(s, i, l, j + 1, k));
      Assoc(ds[k].suffix, StepSuffix(s, i, l, j, k), TargetSuffix(s, i, l, j + 1, k));
    }
  }

  /** What one goto's visits put in front of each statement: its own
      statement gets one block opening per later statement defining the
      label, and a later statement defining it one block closing. */
  lemma {:induction false} TargetFrontsMeaning(s: seq<StatementData>, i: nat, l: string, j: nat, k: nat)
    requires i < |s| && j <= |s| && k < |s|
    ensures TargetFronts(s, i, l, j, k)
         == if k == i then Repeat(BlockOpen(l), DefinedCount(s, l, if j > i then j else i + 1, |s|))
            else if i < k && j <= k && l in s[k].labels then [BlockClose(l)] else []
    decreases |s| - j
  {
    if j < |s| {
      TargetFrontsMeaning(s, i, l, j + 1, k);
      if k == i && j > i && l in s[j].labels {
        assert DefinedCount(s, l, j, |s|) == DefinedCount(s, l, j + 1, |s|) + 1;
      }
    }
  }

  /** What the same visits append to prefixes: one loop opening at each
      earlier statement defining the label. */
  lemma {:induction false} TargetBacksMeaning(s: seq<StatementData>, i: nat, l: string, j: nat, k: nat)
    requires i < |s| && j <= |s| && k < |s|
    ensures TargetBacks(s, i, l, j, k) == if k < i && j <= k && l in s[k].labels then [LoopOpen(l)] else []
    decreases |s| - j
  {
    if j < |s| {
      TargetBacksMeaning(s, i, l, j + 1, k);
    }
  }

  /** What they append to suffixes: one loop closing after the goto's own
      statement per earlier statement defining the label. */
  lemma {:induction false} TargetSuffixMeaning(s: seq<StatementData>, i: nat, l: string, j: nat, k: nat)
    requires i < |s| && j <= |s| && k < |s|
    ensures TargetSuffix(s, i, l, j, k)
         == if k == i && j <= i then Repeat(LoopClose(l), DefinedCount(s, l, j, i)) else []
    decreases |s| - j
  {
    if j < |s| {
      TargetSuffixMeaning(s, i, l, j + 1, k);
      if k == i && j < i {
        RepeatCons(LoopClose(l), DefinedCount(s, l, j + 1, i));
      }
    }
  }

  /** The pieces the gotos `g..` of statement `i` put in front of statement
      `k`, the last goto's first: for a goto to a label the statement does not
      define, statement `i` gets one block opening per later statement
      defining the label, and each such later statement one closing. */
  function GotoFronts(s: seq<StatementData>, i: nat, g: nat, k: nat): (r: seq<Piece>)
    requires i < |s| && g <= |s[i].gotos| && k < |s|
    ensures forall p :: p in r ==> if k == i then p.BlockOpen? else p.BlockClose?
    decreases |s[i].gotos| - g
  {
    if g == |s[i].gotos| then []
    else
      var l := s[i].gotos[g];
      GotoFronts(s, i, g + 1, k)
        + (if !CrossGoto(s, i, l) then []
           else if k == i then Repeat(BlockOpen(l), DefinedCount(s, l, i + 1, |s|))
           else if i < k && l in s[k].labels then [BlockClose(l)] else [])
  }

  /** The loop openings the same gotos append to statement `k`'s prefix, first
      goto first: one at each earlier statement defining the label. */
  function GotoBacks(s: seq<StatementData>, i: nat, g: nat, k: nat): (r: seq<Piece>)
    requires i < |s| && g <= |s[i].gotos| && k < |s|
    ensures forall p :: p in r ==> p.LoopOpen?
    decreases |s[i].gotos| - g
  {
    if g == |s[i].gotos| then []
    else
      var l := s[i].gotos[g];
      (if CrossGoto(s, i, l) && k < i && l in s[k].labels then [LoopOpen(l)] else [])
        + GotoBacks(s, i, g + 1, k)
  }

  /** The loop closings the same gotos append to statement `i`'s suffix: one
      per earlier statement defining the label. */
  function GotoSuffix(s: seq<StatementData>, i: nat, g: nat, k: nat): (r: seq<Piece>)
    requires i < |s| && g <= |s[i].gotos| && k < |s|
    ensures forall p :: p in r ==> p.LoopClose?
    decreases |s[i].gotos| - g
  {
    if g == |s[i].gotos| then []
    else
      var l := s[i].gotos[g];
      (if CrossGoto(s, i, l) && k == i then Repeat(LoopClose(l), DefinedCount(s, l, 0, i)) else [])
        + GotoSuffix(s, i, g + 1, k)
  }

  /** One goto's pieces are those its visits add. */
  lemma GotoFrontsStep(s: seq<StatementData>, i: nat, g: nat, k: nat)
    requires i < |s| && g < |s[i].gotos| && k < |s|
    ensures CrossGoto(s, i, s[i].gotos[g]) ==>
      GotoFronts(s, i, g, k) == GotoFronts(s, i, g + 1, k) + TargetFronts(s, i, s[i].gotos[g], 0, k)
    ensures !CrossGoto(s, i, s[i].gotos[g]) ==> GotoFronts(s, i, g, k) == GotoFronts(s, i, g + 1, k)
  {
    TargetFrontsMeaning(s, i, s[i].gotos[g], 0, k);
  }

  lemma GotoBacksStep(s: seq<StatementData>, i: nat, g: nat, k: nat)
    requires i < |s| && g < |s[i].gotos| && k < |s|
    ensures CrossGoto(s, i, s[i].gotos[g]) ==>
      GotoBacks(s, i, g, k) == TargetBacks(s, i, s[i].gotos[g], 0, k) + GotoBacks(s, i, g + 1, k)
    ensures !CrossGoto(s, i, s[i].gotos[g]) ==> GotoBacks(s, i, g, k) == GotoBacks(s, i, g + 1, k)
  {
    TargetBacksMeaning(s, i, s[i].gotos[g], 0, k);
  }

  lemma GotoSuffixStep(s: seq<StatementData>, i: nat, g: nat, k: nat)
    requires i < |s| && g < |s[i].gotos| && k < |s|
    ensures CrossGoto(s, i, s[i].gotos[g]) ==>
      GotoSuffix(s, i, g, k) == TargetSuffix(s, i, s[i].gotos[g], 0, k) + GotoSuffix(s, i, g + 1, k)
    ensures !CrossGoto(s, i, s[i].gotos[g]) ==> GotoSuffix(s, i, g, k) == GotoSuffix(s, i, g + 1, k)
  {
    TargetSuffixMeaning(s, i, s[i].gotos[g], 0, k);
  }

  /** Wrapping the gotos `g..` of statement `i` adds exactly their pieces. */
  lemma {:induction false} WrapGotosEffect(s: seq<StatementData>, ds: seq<StatementData>, i: nat, g: nat, k: nat)
    requires SameStatements(ds, s) && i < |ds| && g <= |ds[i].gotos| && k < |ds|
    ensures WrapGotos(ds, i, g)[k].prefix == GotoFronts(s, i, g, k) + ds[k].prefix + GotoBacks(s, i, g, k)
    ensures WrapGotos(ds, i, g)[k].suffix == ds[k].suffix + GotoSuffix(s, i, g, k)
    decreases |s[i].gotos| - g, 1
  {
    assert Bare(ds[i]) == Bare(s[i]);
    if g < |ds[i].gotos| {
      if CrossGoto(s, i, s[i].gotos[g]) {
        WrapCrossGoto(s, ds, i, g, k);
      } else {
        WrapOwnGoto(s, ds, i, g, k);
      }
    }
  }

  /** A goto statement `i` resolves itself is skipped. */
  lemma {:induction false} WrapOwnGoto(s: seq<StatementData>, ds: seq<StatementData>, i: nat, g: nat, k: nat)
    requires SameStatements(ds, s) && i < |ds| && g < |ds[i].gotos| && k < |ds|
    requires !CrossGoto(s, i, s[i].gotos[g])
    ensures WrapGotos(ds, i, g)[k].prefix == GotoFronts(s, i, g, k) + ds[k].prefix + GotoBacks(s, i, g, k)
    ensures WrapGotos(ds, i, g)[k].suffix == ds[k].suffix + GotoSuffix(s, i, g, k)
    decreases |s[i].gotos| - g, 0
  {
    assert Bare(ds[i]) == Bare(s[i]);
    assert WrapGotos(ds, i, g) == WrapGotos(ds, i, g + 1);
    WrapGotosEffect(s, ds, i, g + 1, k);
    GotoFrontsStep(s, i, g, k);
    GotoBacksStep(s, i, g, k);
    GotoSuffixStep(s, i, g, k);
  }

  /** A goto statement `i` does not resolve itself visits every statement
      before the remaining gotos are wrapped. */
  lemma {:induction false} WrapCrossGoto(s: seq<StatementData>, ds: seq<StatementData>, i: nat, g: nat, k: nat)
    requires SameStatements(ds, s) && i < |ds| && g < |ds[i].gotos| && k < |ds|
    requires CrossGoto(s, i, s[i].gotos[g])
    ensures WrapGotos(ds, i, g)[k].prefix == GotoFronts(s, i, g, k) + ds[k].prefix + GotoBacks(s, i, g, k)
    ensures WrapGotos(ds, i, g)[k].suffix == ds[k].suffix + GotoSuffix(s, i, g, k)
    decreases |s[i].gotos| - g, 0
  {
    assert Bare(ds[i]) == Bare(s[i]);
    var l := s[i].gotos[g];
    var ds' := WrapTargets(ds, i, l, 0);
    assert WrapGotos(ds, i, g) == WrapGotos(ds', i, g + 1);
    WrapTargetsEffect(s, ds, i, l, 0, k);
    SameStatementsTrans(ds', ds, s);
    WrapGotosEffect(s, ds', i, g + 1, k);
    GotoFrontsStep(s, i, g, k);
    GotoBacksStep(s, i, g, k);
    GotoSuffixStep(s, i, g, k);
    Regroup(GotoFronts(s, i, g + 1, k), TargetFronts(s, i, l, 0, k), ds[k].prefix,
            TargetBacks(s, i, l, 0, k), GotoBacks(s, i, g + 1, k));
    Assoc(ds[k].suffix, TargetSuffix(s, i, l, 0, k), GotoSuffix(s, i, g + 1, k));
  }

  /** Counting the block pieces of the gotos `g..` of statement `i`. */
  lemma {:induction false} GotoFrontCounts(s: seq<StatementData>, i: nat, g: nat, k: nat, l: string)
    requires Keyed(s) && i < |s| && g <= |s[i].gotos| && k < |s|
    ensures var jumps := l in s[i].gotos[g..] && l !in s[i].labels;
      && multiset(GotoFronts(s, i, g, k))[BlockOpen(l)] == (if jumps && k == i then DefinedCount(s, l, i + 1, |s|) else 0)
      && multiset(GotoFronts(s, i, g, k))[BlockClose(l)] == (if jumps && i < k && l in s[k].labels then 1 else 0)
    decreases |s[i].gotos| - g
  {
    if g < |s[i].gotos| {
      var x := s[i].gotos[g];
      assert s[i].gotos[g..] == [x] + s[i].gotos[g + 1..];
      NoRepeatsTail(s[i].gotos, g);
      GotoFrontCounts(s, i, g + 1, k, l);
      RepeatCount(BlockOpen(x), DefinedCount(s, x, i + 1, |s|), BlockOpen(l));
    }
  }

  /** Counting the loop openings of the same gotos. */
  lemma {:induction false} GotoBackCounts(s: seq<StatementData>, i: nat, g: nat, k: nat, l: string)
    requires Keyed(s) && i < |s| && g <= |s[i].gotos| && k < |s|
    ensures multiset(GotoBacks(s, i, g, k))[LoopOpen(l)]
         == if l in s[i].gotos[g..] && l !in s[i].labels && k < i && l in s[k].labels then 1 else 0
    decreases |s[i].gotos| - g
  {
    if g < |s[i].gotos| {
      assert s[i].gotos[g..] == [s[i].gotos[g]] + s[i].gotos[g + 1..];
      NoRepeatsTail(s[i].gotos, g);
      GotoBackCounts(s, i, g + 1, k, l);
    }
  }

  /** Counting the loop closings of the same gotos. */
  lemma {:induction false} GotoSuffixCounts(s: seq<StatementData>, i: nat, g: nat, k: nat, l: string)
    requires Keyed(s) && i < |s| && g <= |s[i].gotos| && k < |s|
    ensures multiset(GotoSuffix(s, i, g, k))[LoopClose(l)]
         == if l in s[i].gotos[g..] && l !in s[i].labels && k == i then DefinedCount(s, l, 0, i) else 0
    decreases |s[i].gotos| - g
  {
    if g < |s[i].gotos| {
      var x := s[i].gotos[g];
      assert s[i].gotos[g..] == [x] + s[i].gotos[g + 1..];
      NoRepeatsTail(s[i].gotos, g);
      GotoSuffixCounts(s, i, g + 1, k, l);
      RepeatCount(LoopClose(x), DefinedCount(s, x, 0, i), LoopClose(l));
    }
  }

  function FromFronts(s: seq<StatementData>, i: nat, k: nat): seq<Piece>
    requires i <= |s| && k < |s|
    decreases |s| - i
  {
    if i == |s| then [] else FromFronts(s, i + 1, k) + GotoFronts(s, i, 0, k)
  }

  function FromBacks(s: seq<StatementData>, i: nat, k: nat): (r: seq<Piece>)
    requires i <= |s| && k < |s|
    ensures forall p :: p in r ==> p.LoopOpen?
    decreases |s| - i
  {
    if i == |s| then [] else GotoBacks(s, i, 0, k) + FromBacks(s, i + 1, k)
  }

  function FromSuffix(s: seq<StatementData>, i: nat, k: nat): seq<Piece>
    requires i <= |s| && k < |s|
    decreases |s| - i
  {
    if i == |s| then [] else GotoSuffix(s, i, 0, k) + FromSuffix(s, i + 1, k)
  }

  /** The wrapping stage from statement `i` on adds the pieces of the gotos of
      the statements it visits. */
  lemma {:induction false} WrapFromEffect(s: seq<StatementData>, ds: seq<StatementData>, i: nat, k: nat)
    requires SameStatements(ds, s) && i <= |ds| && k < |ds|
    ensures WrapFrom(ds, i)[k].prefix == FromFronts(s, i, k) + ds[k].prefix + FromBacks(s, i, k)
    ensures WrapFrom(ds, i)[k].suffix == ds[k].suffix + FromSuffix(s, i, k)
    decreases |ds| - i
  {
    if i < |ds| {
      WrapGotosEffect(s, ds, i, 0, k);
      WrapFromEffect(s, WrapGotos(ds, i, 0), i + 1, k);
      Regroup(FromFronts(s, i + 1, k), GotoFronts(s, i, 0, k), ds[k].prefix,
              GotoBacks(s, i, 0, k), FromBacks(s, i + 1, k));
      Assoc(ds[k].suffix, GotoSuffix(s, i, 0, k), FromSuffix(s, i + 1, k));
    }
  }

  lemma {:induction false} GotoPiecesElsewhere(s: seq<StatementData>, i: nat, g: nat, k: nat)
    requires i < |s| && g <= |s[i].gotos| && k < |s|
    ensures k < i ==> GotoFronts(s, i, g, k) == []
    ensures i <= k ==> GotoBacks(s, i, g, k) == []
    ensures k != i ==> GotoSuffix(s, i, g, k) == []
    decreases |s[i].gotos| - g
  {
    if g < |s[i].gotos| {
      GotoPiecesElsewhere(s, i, g + 1, k);
    }
  }

  /** The closing braces the gotos of statements `lo..k-1` put in front of
      statement `k`, the latest statement's first. */
  function ClosingsFrom(s: seq<StatementData>, lo: nat, k: nat): (r: seq<Piece>)
    requires lo <= k < |s|
    ensures forall p :: p in r ==> p.BlockClose?
    decreases k - lo
  {
    if lo == k then [] else ClosingsFrom(s, lo + 1, k) + GotoFronts(s, lo, 0, k)
  }

  lemma {:induction false} FromFrontsAbove(s: seq<StatementData>, i: nat, k: nat)
    requires k < i <= |s|
    ensures FromFronts(s, i, k) == []
    decreases |s| - i
  {
    if i < |s| {
      FromFrontsAbove(s, i + 1, k);
      GotoPiecesElsewhere(s, i, 0, k);
    }
  }

  /** In front of statement `k`: the blocks its own gotos open, then the
      closings of blocks opened by earlier statements. */
  lemma {:induction false} FromFrontsSplit(s: seq<StatementData>, i: nat, k: nat)
    requires i <= k < |s|
    ensures FromFronts(s, i, k) == GotoFronts(s, k, 0, k) + ClosingsFrom(s, i, k)
    decreases k - i
  {
    if i == k {
      FromFrontsAbove(s, k + 1, k);
    } else {
      FromFrontsSplit(s, i + 1, k);
    }
  }

  lemma {:induction false} FromBacksBelow(s: seq<StatementData>, i: nat, k: nat)
    requires i <= k < |s|
    ensures FromBacks(s, i, k) == FromBacks(s, k + 1, k)
    decreases k - i
  {
    GotoPiecesElsewhere(s, i, 0, k);
    if i < k {
      FromBacksBelow(s, i + 1, k);
    }
  }

  lemma {:induction false} FromSuffixOwn(s: seq<StatementData>, i: nat, k: nat)
    requires i <= |s| && k < |s|
    ensures FromSuffix(s, i, k) == if i <= k then GotoSuffix(s, k, 0, k) else []
    decreases |s| - i
  {
    if i < |s| {
      FromSuffixOwn(s, i + 1, k);
      GotoPiecesElsewhere(s, i, 0, k);
      if i == k {
        assert FromSuffix(s, i, k) == GotoSuffix(s, k, 0, k) + [];
      }
    }
  }

  /** A statement before `k` puts one closing in front of it per goto it
      does not resolve itself to a label `k` defines. */
  lemma StatementCloseCount(s: seq<StatementData>, i: nat, k: nat, l: string)
    requires Keyed(s) && i < k < |s|
    ensures multiset(GotoFronts(s, i, 0, k))[BlockClose(l)] == if CrossGoto(s, i, l) && l in s[k].labels then 1 else 0
  {
    GotoFrontCounts(s, i, 0, k, l);
    assert s[i].gotos[0..] == s[i].gotos;
  }

  /** A statement after `k` opens one loop at it per goto it does not
      resolve itself to a label `k` defines. */
  lemma StatementBackCount(s: seq<StatementData>, i: nat, k: nat, l: string)
    requires Keyed(s) && k < i < |s|
    ensures multiset(GotoBacks(s, i, 0, k))[LoopOpen(l)] == if CrossGoto(s, i, l) && l in s[k].labels then 1 else 0
  {
    GotoBackCounts(s, i, 0, k, l);
    assert s[i].gotos[0..] == s[i].gotos;
  }

  lemma {:induction false} ClosingsCount(s: seq<StatementData>, lo: nat, k: nat, l: string)
    requires Keyed(s) && lo <= k < |s|
    ensures multiset(ClosingsFrom(s, lo, k))[BlockClose(l)]
         == if l in s[k].labels then CrossGotoCount(s, l, lo, k) else 0
    decreases k - lo
  {
    if lo < k {
      var n := multiset(ClosingsFrom(s, lo + 1, k))[BlockClose(l)];
      ClosingsCount(s, lo + 1, k, l);
      ClosingsStep(s, lo, k, l, n);
    }
  }

  lemma ClosingsStep(s: seq<StatementData>, lo: nat, k: nat, l: string, n: nat)
    requires Keyed(s) && lo < k < |s|
    requires n == multiset(ClosingsFrom(s, lo + 1, k))[BlockClose(l)]
    requires n == if l in s[k].labels then CrossGotoCount(s, l, lo + 1, k) else 0
    ensures multiset(ClosingsFrom(s, lo, k))[BlockClose(l)]
         == if l in s[k].labels then CrossGotoCount(s, l, lo, k) else 0
  {
    var here := GotoFronts(s, lo, 0, k);
    var rest := ClosingsFrom(s, lo + 1, k);
    StatementCloseCount(s, lo, k, l);
    assert ClosingsFrom(s, lo, k) == rest + here;
    CountSplit(rest, here, BlockClose(l));
  }

  lemma {:induction false} BacksCount(s: seq<StatementData>, i: nat, k: nat, l: string)
    requires Keyed(s) && k < i <= |s|
    ensures multiset(FromBacks(s, i, k))[LoopOpen(l)]
         == if l in s[k].labels then CrossGotoCount(s, l, i, |s|) else 0
    decreases |s| - i
  {
    if i < |s| {
      var n := multiset(FromBacks(s, i + 1, k))[LoopOpen(l)];
      BacksCount(s, i + 1, k, l);
      BacksStep(s, i, k, l, n);
    }
  }

  lemma BacksStep(s: seq<StatementData>, i: nat, k: nat, l: string, n: nat)
    requires Keyed(s) && k < i < |s|
    requires n == multiset(FromBacks(s, i + 1, k))[LoopOpen(l)]
    requires n == if l in s[k].labels then CrossGotoCount(s, l, i + 1, |s|) else 0
    ensures multiset(FromBacks(s, i, k))[LoopOpen(l)]
         == if l in s[k].labels then CrossGotoCount(s, l, i, |s|) else 0
  {
    var here := GotoBacks(s, i, 0, k);
    var rest := FromBacks(s, i + 1, k);
    StatementBackCount(s, i, k, l);
    assert FromBacks(s, i, k) == here + rest;
    CountSplit(here, rest, LoopOpen(l));
  }

  /** After both stages, freshly built statement `k` is laid out, outermost
      first, as: the blocks its own forward gotos open; the closing braces of
      the blocks earlier statements' gotos opened for its labels, latest
      statement first; its guards (at the first statement an opening per label
      of every later statement, latest first; at any other a closing per own
      label, last first); the loops later statements' backward gotos open at
      it, earliest first. Its suffix holds the loop closings of its own
      backward gotos, in goto order. */
  lemma WrappedLayout(s: seq<StatementData>, k: nat)
    requires Unwrapped(s) && k < |s|
    ensures Wrapped(s)[k].prefix
         == GotoFronts(s, k, 0, k) + ClosingsFrom(s, 0, k)
            + (if k == 0 then GuardFronts(s, 1, 0) else LabelGuards(s, k, 0, k))
            + FromBacks(s, k + 1, k)
    ensures Wrapped(s)[k].suffix == GotoSuffix(s, k, 0, k)
  {
    var guarded := GuardFrom(s, 0);
    var guards := if k == 0 then GuardFronts(s, 1, 0) else LabelGuards(s, k, 0, k);
    GuardFromEffect(s, s, 0, k);
    assert s[k].prefix == [] && s[k].suffix == [];
    assert guarded[k].prefix == GuardFronts(s, 0, k);
    if k > 0 {
      GuardFrontsOwn(s, 0, k);
    }
    assert guarded[k].prefix == guards;
    WrapFromEffect(s, guarded, 0, k);
    FromFrontsSplit(s, 0, k);
    FromBacksBelow(s, 0, k);
    FromSuffixOwn(s, 0, k);
  }

  /** The first statement opens one guard per later statement defining a
      label, and every other statement closes one guard per own label. */
  lemma WrappedGuards(s: seq<StatementData>, k: nat, l: string)
    requires Unwrapped(s) && Keyed(s) && k < |s|
    ensures multiset(Wrapped(s)[k].prefix)[GuardOpen(l)] == if k == 0 then DefinedCount(s, l, 1, |s|) else 0
    ensures multiset(Wrapped(s)[k].prefix)[GuardClose(l)] == if k > 0 && l in s[k].labels then 1 else 0
  {
    WrappedLayout(s, k);
    AbsentCount(GotoFronts(s, k, 0, k), GuardOpen(l));
    AbsentCount(GotoFronts(s, k, 0, k), GuardClose(l));
    AbsentCount(ClosingsFrom(s, 0, k), GuardOpen(l));
    AbsentCount(ClosingsFrom(s, 0, k), GuardClose(l));
    AbsentCount(FromBacks(s, k + 1, k), GuardOpen(l));
    AbsentCount(FromBacks(s, k + 1, k), GuardClose(l));
    if k == 0 {
      GuardOpenCount(s, 1, l);
      AbsentCount(GuardFronts(s, 1, 0), GuardClose(l));
    } else {
      LabelGuardCounts(s, k, 0, k, l);
      assert s[k].labels[0..] == s[k].labels;
    }
  }

  /** Forward jumps: a statement opens block `l` once per later statement
      defining `l` when it has a goto to `l` it does not resolve itself, and
      a statement defining `l` closes such a block once per earlier statement
      with such a goto. */
  lemma ForwardGotoBlocks(s: seq<StatementData>, k: nat, l: string)
    requires Unwrapped(s) && Keyed(s) && k < |s|
    ensures multiset(Wrapped(s)[k].prefix)[BlockOpen(l)]
         == if CrossGoto(s, k, l) then DefinedCount(s, l, k + 1, |s|) else 0
    ensures multiset(Wrapped(s)[k].prefix)[BlockClose(l)]
         == if l in s[k].labels then CrossGotoCount(s, l, 0, k) else 0
  {
    WrappedLayout(s, k);
    GotoFrontCounts(s, k, 0, k, l);
    assert s[k].gotos[0..] == s[k].gotos;
    ClosingsCount(s, 0, k, l);
    AbsentCount(ClosingsFrom(s, 0, k), BlockOpen(l));
    var guards := if k == 0 then GuardFronts(s, 1, 0) else LabelGuards(s, k, 0, k);
    AbsentCount(guards, BlockOpen(l));
    AbsentCount(guards, BlockClose(l));
    AbsentCount(FromBacks(s, k + 1, k), BlockOpen(l));
    AbsentCount(FromBacks(s, k + 1, k), BlockClose(l));
  }

  /** Backward jumps: a statement defining `l` opens loop `continue_l` once
      per later statement with a goto to `l` it does not resolve itself, and
      such a goto statement closes the loop after its code once per earlier
      statement defining `l`. Suffixes hold nothing but loop closings. */
  lemma BackwardGotoLoops(s: seq<StatementData>, k: nat, l: string)
    requires Unwrapped(s) && Keyed(s) && k < |s|
    ensures multiset(Wrapped(s)[k].prefix)[LoopOpen(l)]
         == if l in s[k].labels then CrossGotoCount(s, l, k + 1, |s|) else 0
    ensures multiset(Wrapped(s)[k].suffix)[LoopClose(l)]
         == if CrossGoto(s, k, l) then DefinedCount(s, l, 0, k) else 0
    ensures forall p :: p in Wrapped(s)[k].suffix ==> p.LoopClose?
  {
    WrappedLayout(s, k);
    GotoSuffixCounts(s, k, 0, k, l);
    assert s[k].gotos[0..] == s[k].gotos;
    BacksCount(s, k + 1, k, l);
    AbsentCount(GotoFronts(s, k, 0, k), LoopOpen(l));
    AbsentCount(ClosingsFrom(s, 0, k), LoopOpen(l));
    var guards := if k == 0 then GuardFronts(s, 1, 0) else LabelGuards(s, k, 0, k);
    AbsentCount(guards, LoopOpen(l));
  }

  /** Two statements with a forward goto to the same label, then the label:
      each goto statement opens its own block labelled `l`, and the label's
      statement closes both. The second block therefore sits inside the
      first under the same name. */
  lemma DuplicateForwardBlocks(l: string, jump: string)
    ensures var d := StatementData(jump, [l], [], [], [], false);
      var s := [d, d, StatementData("", [], [l], [], [], false)];
      && multiset(Wrapped(s)[0].prefix)[BlockOpen(l)] == 1
      && multiset(Wrapped(s)[1].prefix)[BlockOpen(l)] == 1
      && multiset(Wrapped(s)[2].prefix)[BlockClose(l)] == 2
  {
    var d := StatementData(jump, [l], [], [], [], false);
    var s := [d, d, StatementData("", [], [l], [], [], false)];
    assert Keyed(s) by {
      forall t | 0 <= t < |s|
        ensures NoRepeats(s[t].gotos) && NoRepeats(s[t].labels)
      {
      }
    }
    assert DefinedCount(s, l, 1, 3) == 1;
    assert DefinedCount(s, l, 2, 3) == 1;
    assert CrossGotoCount(s, l, 0, 2) == 2;
    ForwardGotoBlocks(s, 0, l);
    ForwardGotoBlocks(s, 1, l);
    ForwardGotoBlocks(s, 2, l);
  }
}
