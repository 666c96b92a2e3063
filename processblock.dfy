/** `processBlock` as the source runs it: one pass compiling the statements
    while recording the label notifications each one publishes, the resume
    splice, the guard pass, the goto wrapping pass and the final
    concatenation. Each stage is a loop proved equal to the stage function of
    the assembler, whose placement properties are proved there. */
module BlockProcessor {
  import opened Errors
  import opened Ast
  import opened Labels
  import opened Blocks
  import opened Compiler

  /** Compiles the statements in order, subscribing to the repository around
      each one: a statement's gotos and labels are the notifications published
      while it compiled. */
  method CollectStatements(statements: seq<Node>, ctx: Ctx, st: CState) returns (r: Outcome<seq<StatementData>>)
    ensures r == CollectFrom(statements, 0, ctx, st, [])
    ensures r.Done? ==> |r.value| == |statements|
  {
    var current := st;
    var statementDatas: seq<StatementData> := [];
    var i := 0;
    while i < |statements|
      invariant 0 <= i <= |statements|
      invariant |statementDatas| == i
      invariant CollectFrom(statements, i, ctx, current, statementDatas) == CollectFrom(statements, 0, ctx, st, [])
    {
      var mark := |current.repo.events|;
      var c := Compile(statements[i], ctx, current);
      if c.Thrown? {
        return Rethrow(c);
      }
      statementDatas := statementDatas + [StatementRecord(statements[i], c.value, c.st.repo.events[mark..])];
      current := c.st;
      i := i + 1;
    }
    r := Done(statementDatas, current);
    CollectLength(statements, 0, ctx, st, []);
  }

  /** A completed collection holds one record per statement. */
  lemma {:induction false} CollectLength(statements: seq<Node>, i: nat, ctx: Ctx, st: CState, acc: seq<StatementData>)
    requires i <= |statements|
    ensures var r := CollectFrom(statements, i, ctx, st, acc);
      r.Done? ==> |r.value| == |acc| + |statements| - i
    decreases |statements| - i
  {
    if i < |statements| {
      var mark := |st.repo.events|;
      var c := Compile(statements[i], ctx, st);
      if c.Done? {
        var d := StatementRecord(statements[i], c.value, c.st.repo.events[mark..]);
        CollectLength(statements, i + 1, ctx, c.st, acc + [d]);
      }
    }
  }

  /** The resume goto is inserted before the first record that is not a
      function declaration. */
  method SpliceResume(ds: seq<StatementData>, resume: Option<string>) returns (r: seq<StatementData>)
    ensures r == Splice(ds, resume)
    ensures |r| == |ds| || |r| == |ds| + 1
  {
    r := ds;
    if resume.Some? {
      var index := 0;
      while index < |r|
        invariant 0 <= index <= |ds| && r == ds
        invariant FirstNonFunction(ds, index) == FirstNonFunction(ds, 0)
      {
        if !r[index].isFunction {
          r := r[..index] + [ResumeGoto(resume.value)] + r[index..];
          return;
        }
        index := index + 1;
      }
    }
  }

  /** Every label defined by a record other than the first gets a guard opened
      at the front of the first record and closed before its own. */
  method AddGuards(ds: seq<StatementData>) returns (r: seq<StatementData>)
    ensures r == GuardFrom(ds, 0)
  {
    r := ds;
    var index := 0;
    while index < |r|
      invariant 0 <= index <= |r| == |ds|
      invariant GuardFrom(r, index) == GuardFrom(ds, 0)
    {
      if index > 0 {
        ghost var start := r;
        var labels := r[index].labels;
        var m := 0;
        while m < |labels|
          invariant 0 <= m <= |labels| && |r| == |ds|
          invariant r[index].labels == labels
          invariant GuardLabels(r, index, m) == GuardLabels(start, index, 0)
        {
          var l := labels[m];
          r := r[0 := r[0].(prefix := [GuardOpen(l)] + r[0].prefix)];
          r := r[index := r[index].(prefix := [GuardClose(l)] + r[index].prefix)];
          m := m + 1;
        }
      }
      index := index + 1;
    }
  }

  /** For each goto a record does not resolve itself, every other record
      defining its label is visited: a later one gets a labelled block, an
      earlier one a labelled loop. */
  method WrapAll(ds: seq<StatementData>) returns (r: seq<StatementData>)
    ensures r == WrapFrom(ds, 0)
  {
    r := ds;
    var i := 0;
    while i < |r|
      invariant 0 <= i <= |r| == |ds|
      invariant WrapFrom(r, i) == WrapFrom(ds, 0)
    {
      r := WrapStatementGotos(r, i);
      i := i + 1;
    }
  }

  method WrapStatementGotos(ds: seq<StatementData>, i: nat) returns (r: seq<StatementData>)
    requires i < |ds|
    ensures r == WrapGotos(ds, i, 0)
  {
    r := ds;
    var gotos := r[i].gotos;
    var g := 0;
    while g < |gotos|
      invariant 0 <= g <= |gotos| && |r| == |ds|
      invariant r[i].gotos == gotos
      invariant WrapGotos(r, i, g) == WrapGotos(ds, i, 0)
    {
      var l := gotos[g];
      if l !in r[i].labels {
        r := WrapLabelTargets(r, i, l);
      }
      g := g + 1;
    }
  }

  method WrapLabelTargets(ds: seq<StatementData>, i: nat, labelName: string) returns (r: seq<StatementData>)
    requires i < |ds|
    ensures r == WrapTargets(ds, i, labelName, 0)
  {
    r := ds;
    var j := 0;
    while j < |r|
      invariant 0 <= j <= |r| == |ds|
      invariant WrapTargets(r, i, labelName, j) == WrapTargets(ds, i, labelName, 0)
    {
      if j != i && labelName in r[j].labels {
        if j > i {
          r := r[i := r[i].(prefix := [BlockOpen(labelName)] + r[i].prefix)];
          r := r[j := r[j].(prefix := [BlockClose(labelName)] + r[j].prefix)];
        } else {
          r := r[j := r[j].(prefix := r[j].prefix + [LoopOpen(labelName)])];
          r := r[i := r[i].(suffix := r[i].suffix + [LoopClose(labelName)])];
        }
      }
      j := j + 1;
    }
  }

  /** Each record contributes its prefix, its code and its suffix, in order. */
  method EmitAll(ds: seq<StatementData>) returns (code: string)
    ensures code == Emit(ds)
  {
    code := "";
    var k := 0;
    while k < |ds|
      invariant 0 <= k <= |ds|
      invariant code == Emit(ds[..k])
    {
      assert ds[..k + 1][..k] == ds[..k];
      code := code + Render(ds[k].prefix) + ds[k].code + Render(ds[k].suffix);
      k := k + 1;
    }
    assert ds[..k] == ds;
  }

  /** `processBlock`: the stages in the source's order. The resume label is
      registered as pending once every statement has compiled. */
  method ProcessBlock(statements: seq<Node>, ctx: Ctx, st: CState) returns (r: Outcome<string>)
    ensures r == ProcessBlockSpec(statements, ctx, st)
  {
    var collected := CollectStatements(statements, ctx, st);
    if collected.Thrown? {
      return Rethrow(collected);
    }
    var current := collected.st;
    if ctx.resume.Some? {
      current := current.(repo := AddPending(current.repo, ctx.resume.value.labelName));
    }
    var ds := SpliceResume(collected.value, ResumeLabel(ctx.resume));
    ds := AddGuards(ds);
    ds := WrapAll(ds);
    var code := EmitAll(ds);
    r := Done(code, current);
  }
}
