/** What the node rules promise, stated on the compile functions: how gotos and
    labels talk to the repository, how loops restrict labels, how array
    indexing and assignment address variables, how breaks find their switch,
    how foreach loops name their variables and how function bodies are
    framed and isolated. */
module RuleProperties {
  import opened Errors
  import opened Strings
  import opened Operators
  import opened Ast
  import opened Labels
  import opened Blocks
  import opened Compiler

  // ---------------------------------------------------------------------------
  // Gotos and labels.

  /** A goto registers its label as pending and jumps forward out of the
      labelled block when the label is still ahead, or continues the labelled
      loop when it was already found. */
  lemma GotoRule(l: string, ctx: Ctx, st: CState)
    ensures var r := Compile(GotoStatement(l), ctx, st);
      && r.Done?
      && r.st.repo.events == st.repo.events + [Pending(l)]
      && r.st.repo.found == st.repo.found
      && r.st.repo.loopListeners == st.repo.loopListeners
      && (l in st.repo.found ==> r.value == "goingToLabel_" + l + " = true;" + " continue continue_" + l + ";")
      && (l !in st.repo.found ==> r.value == "goingToLabel_" + l + " = true;" + " break " + l + ";")
  {
    assert Compile(GotoStatement(l), ctx, st) == CompileGoto(l, st);
  }

  /** A label compiles to nothing and is recorded as found, unless a loop
      listener is attached, in which case it is the "goto into loop" error. */
  lemma LabelRule(l: string, ctx: Ctx, st: CState)
    ensures var r := Compile(LabelStatement(l), ctx, st);
      && (r.Thrown? <==> st.repo.loopListeners > 0)
      && (r.Thrown? ==> r.error == Fatal(GotoDisallowed))
      && (r.Done? ==> r.value == "" && l in r.st.repo.found
                      && r.st.repo.events == st.repo.events + [Found(l)])
  {
  }

  /** Any loop: its listener is attached, its statements compile in order,
      then its condition, after the statements; the code tests the
      condition's boolean value around the statements' codes. A failure of
      either part is the loop's. The source leaves the listener attached; a
      scoped listener is detached and nothing else differs. */
  lemma WhileRule(n: Node, ctx: Ctx, st: CState)
    requires n.WhileStatement?
    ensures var body := CompileList(n.statements, ctx, st.(repo := AddLoopListener(st.repo)));
      var r := Compile(n, ctx, st);
      && (body.Thrown? ==> r == Rethrow(body))
      && (body.Done? ==>
            var condition := Compile(n.condition, ctx, body.st);
            && (condition.Thrown? ==> r == condition)
            && (condition.Done? ==>
                  && r.Done?
                  && r.value == "while (" + condition.value + ".coerceToBoolean().getNative()) {" + Join(body.value, "") + "}"
                  && r.st.(repo := r.st.repo.(loopListeners := condition.st.repo.loopListeners)) == condition.st
                  && r.st.repo.loopListeners + (if ctx.loopListener == KeptAfterLoop then 0 else 1)
                     == condition.st.repo.loopListeners))
  {
    assert Compile(n, ctx, st) == CompileWhile(n, ctx, st);
  }

  /** While a loop's statements compile, its listener stays attached: after
      any number of them have compiled, more listeners are attached than
      before the loop. */
  lemma LoopListenerHeld(statements: seq<Node>, k: nat, ctx: Ctx, st: CState)
    requires k <= |statements|
    ensures var prefix := CompileList(statements[..k], ctx, st.(repo := AddLoopListener(st.repo)));
      prefix.Done? ==> prefix.st.repo.loopListeners > st.repo.loopListeners
  {
  }

  /** A list stops at its first failure: when the first `k` nodes fail, or
      compile and node `k` then fails, the list fails with that error. */
  lemma {:induction false} ListStopsAt(ns: seq<Node>, k: nat, ctx: Ctx, st: CState)
    requires k < |ns|
    ensures var prefix := CompileList(ns[..k], ctx, st);
      var r := CompileList(ns, ctx, st);
      && (prefix.Thrown? ==> r.Thrown? && r.error == prefix.error)
      && (prefix.Done? && Compile(ns[k], ctx, prefix.st).Thrown? ==>
            r.Thrown? && r.error == Compile(ns[k], ctx, prefix.st).error)
    decreases k
  {
    if k == 0 {
      assert ns[..0] == [];
    } else {
      var first := Compile(ns[0], ctx, st);
      assert ns[..k][0] == ns[0] && ns[..k][1..] == ns[1..][..k - 1];
      if first.Done? {
        ListStopsAt(ns[1..], k - 1, ctx, first.st);
        assert ns[1..][k - 1] == ns[k];
      }
    }
  }

  /** A label anywhere among a loop's statements is rejected, whatever the
      listener policy: the loop fails with the "goto into loop" error once
      the statements before the label have compiled, and with their own
      error otherwise. */
  lemma {:induction false} LabelInsideLoopRejected(condition: Node, statements: seq<Node>, k: nat, l: string, ctx: Ctx, st: CState)
    requires k < |statements| && statements[k] == LabelStatement(l)
    ensures var prefix := CompileList(statements[..k], ctx, st.(repo := AddLoopListener(st.repo)));
      var r := Compile(WhileStatement(condition, statements), ctx, st);
      && r.Thrown?
      && (prefix.Done? ==> r.error == Fatal(GotoDisallowed))
      && (prefix.Thrown? ==> r.error == prefix.error)
  {
    var st1 := st.(repo := AddLoopListener(st.repo));
    var prefix := CompileList(statements[..k], ctx, st1);
    WhileRule(WhileStatement(condition, statements), ctx, st);
    ListStopsAt(statements, k, ctx, st1);
    if prefix.Done? {
      LoopListenerHeld(statements, k, ctx, st);
      assert Compile(LabelStatement(l), ctx, prefix.st) == CompileLabel(l, prefix.st);
    }
  }

  /** As the source has it, the listener a loop attaches outlives the loop:
      once a `while` has compiled, more listeners are attached than before. */
  lemma WhileListenerOutlivesLoop(n: Node, ctx: Ctx, st: CState)
    requires n.WhileStatement? && ctx.loopListener == KeptAfterLoop
    ensures var r := Compile(n, ctx, st);
      r.Done? ==> r.st.repo.loopListeners > st.repo.loopListeners
  {
  }

  /** With the listener scoped to its loop, compiling a loop leaves the number
      of attached listeners unchanged. */
  lemma WhileListenerScoped(n: Node, ctx: Ctx, st: CState)
    requires n.WhileStatement? && ctx.loopListener == RemovedAfterLoop
    ensures var r := Compile(n, ctx, st);
      r.Done? ==> r.st.repo.loopListeners == st.repo.loopListeners
  {
  }

  /** The two-statement block "loop, then label" after the loop has compiled. */
  lemma {:induction false} LoopThenLabel(w: Node, l: string, ctx: Ctx, st: CState, v0: string, s0: CState)
    requires w.WhileStatement? && Compile(w, ctx, st) == Done(v0, s0)
    ensures var r := ProcessBlockSpec([w, LabelStatement(l)], ctx, st);
      && (s0.repo.loopListeners > 0 ==> r.Thrown? && r.error == Fatal(GotoDisallowed))
      && (s0.repo.loopListeners == 0 ==> r.Done?)
  {
    var s := [w, LabelStatement(l)];
    var d0 := StatementRecord(w, v0, s0.repo.events[|st.repo.events|..]);
    assert [] + [d0] == [d0];
    assert CollectFrom(s, 0, ctx, st, []) == CollectFrom(s, 1, ctx, s0, [d0]);
    var c1 := Compile(LabelStatement(l), ctx, s0);
    assert c1 == CompileLabel(l, s0);
    if c1.Done? {
      var d1 := StatementRecord(s[1], c1.value, c1.st.repo.events[|s0.repo.events|..]);
      assert [d0] + [d1] == [d0, d1];
      assert CollectFrom(s, 1, ctx, s0, [d0]) == CollectFrom(s, 2, ctx, c1.st, [d0, d1]);
    }
  }

  /** As written, a label anywhere after a `while` loop in the same block is
      rejected as a goto into a loop, although it is outside the loop. */
  lemma LabelAfterLoopRejected(w: Node, l: string, ctx: Ctx, st: CState)
    requires w.WhileStatement? && ctx.loopListener == KeptAfterLoop
    requires Compile(w, ctx, st).Done?
    ensures var r := ProcessBlockSpec([w, LabelStatement(l)], ctx, st);
      r.Thrown? && r.error == Fatal(GotoDisallowed)
  {
    WhileListenerOutlivesLoop(w, ctx, st);
    LoopThenLabel(w, l, ctx, st, Compile(w, ctx, st).value, Compile(w, ctx, st).st);
  }

  /** The smallest such program: `while ($x) {} a:` at the top level. */
  lemma LabelAfterEmptyLoopRejected()
    ensures var r := ProcessBlockSpec([WhileStatement(Variable("x"), []), LabelStatement("a")],
                                      RootContext(None, KeptAfterLoop), InitialState());
      r.Thrown? && r.error == Fatal(GotoDisallowed)
  {
    LabelAfterLoopRejected(WhileStatement(Variable("x"), []), "a", RootContext(None, KeptAfterLoop), InitialState());
  }

  /** With the listener scoped to its loop, the same block compiles when no
      loop encloses it. */
  lemma LabelAfterScopedLoopAccepted(w: Node, l: string, ctx: Ctx, st: CState)
    requires w.WhileStatement? && ctx.loopListener == RemovedAfterLoop
    requires st.repo.loopListeners == 0 && Compile(w, ctx, st).Done?
    ensures ProcessBlockSpec([w, LabelStatement(l)], ctx, st).Done?
  {
    WhileListenerScoped(w, ctx, st);
    LoopThenLabel(w, l, ctx, st, Compile(w, ctx, st).value, Compile(w, ctx, st).st);
  }

  // ---------------------------------------------------------------------------
  // Addressing variables and array elements.

  /** Any `container[i1]...[ik]`: the indices compile first, each as a plain
      value outside any assignment, then the container, by value only outside
      an assignment. In an assignment the container is passed through
      `implyArray` and the element itself is the result; otherwise the
      element's value is taken. A failure of either part is the rule's. */
  lemma ArrayIndexAddressing(n: Node, ctx: Ctx, st: CState)
    requires n.ArrayIndex?
    ensures var indices := CompileList(n.indices, ctx.(assignment := false, getValue := false), st);
      var r := Compile(n, ctx, st);
      && (indices.Thrown? ==> r == Rethrow(indices))
      && (indices.Done? ==>
            var container := Compile(n.arrayNode, ctx.(getValue := !ctx.assignment), indices.st);
            && (container.Thrown? ==> r == container)
            && (container.Done? ==> r == Done(ArrayIndexCode(container.value, indices.value, ctx.assignment), container.st)))
  {
    assert Compile(n, ctx, st) == CompileArrayIndex(n, ctx, st);
  }

  /** The element code: in an assignment the container wrapped in
      `implyArray`, then one `getElementByKey` per index with the value of
      each inner level taken; outside an assignment the element's value. */
  lemma ArrayIndexText(arrayCode: string, indexCodes: seq<string>)
    ensures var keys := ".getElementByKey(" + Join(indexCodes, ").getValue().getElementByKey(") + ")";
      && ArrayIndexCode(arrayCode, indexCodes, true) == "tools.implyArray(" + arrayCode + ")" + keys
      && ArrayIndexCode(arrayCode, indexCodes, false) == arrayCode + keys + ".getValue()"
  {
    var keys := ".getElementByKey(" + Join(indexCodes, ").getValue().getElementByKey(") + ")";
    assert "tools.implyArray(" + arrayCode + ")" + keys + "" == "tools.implyArray(" + arrayCode + ")" + keys;
  }

  /** Reading `$v[i]` takes the variable's value, then the element's value. */
  lemma ReadIndexTakesValues(v: string, i: string, ctx: Ctx, st: CState)
    requires !ctx.assignment
    ensures var container := "scope.getVariable(\"" + v + "\")" + ".getValue()";
      Compile(ArrayIndex(Variable(v), [Opaque("N_STRING", i)]), ctx, st)
      == Done(container + ".getElementByKey(" + i + ")" + ".getValue()", st)
  {
    var n := ArrayIndex(Variable(v), [Opaque("N_STRING", i)]);
    ConstantIndices(i, ctx.(assignment := false, getValue := false), st);
    ArrayIndexAddressing(n, ctx, st);
    VariableRule(v, ctx.(getValue := true), st);
    ArrayIndexText("scope.getVariable(\"" + v + "\")" + ".getValue()", [i]);
  }

  /** A one-constant index list compiles to that constant, state unchanged. */
  lemma ConstantIndices(i: string, ctx: Ctx, st: CState)
    ensures var r := CompileList([Opaque("N_STRING", i)], ctx, st);
      r == Done([i], st) && Join(r.value, ").getValue().getElementByKey(") == i
  {
    assert [Opaque("N_STRING", i)][1..] == [];
    assert [i] + [] == [i];
  }

  /** Array indexing nested `IndexLevels(n)` deep on the left of `n`. */
  function IndexLevels(n: Node): nat {
    if n.ArrayIndex? then IndexLevels(n.arrayNode) + 1 else 0
  }

  /** `k` copies of `s`, one after the other. */
  function Copies(s: string, k: nat): string {
    if k == 0 then "" else s + Copies(s, k - 1)
  }

  /** Whatever the containers and indices, an assignment target indexed `k`
      levels deep passes every level through `implyArray`: its code opens
      with `k` nested `implyArray` calls. */
  lemma {:induction false} AssignmentImpliesArraysAtEveryLevel(n: Node, ctx: Ctx, st: CState)
    requires ctx.assignment
    ensures var r := Compile(n, ctx, st);
      r.Done? ==> IsPrefix(Copies("tools.implyArray(", IndexLevels(n)), r.value)
    decreases n
  {
    if n.ArrayIndex? {
      var indices := CompileList(n.indices, ctx.(assignment := false, getValue := false), st);
      AssignmentImpliesArraysAtEveryLevel(n.arrayNode, ctx.(getValue := false), indices.st);
      ArrayIndexAddressing(n, ctx, st);
      ImpliedArrayPrefix(Compile(n.arrayNode, ctx.(getValue := false), indices.st), indices, IndexLevels(n.arrayNode));
    }
  }

  /** Wrapping a container whose code opens with `k` `implyArray` calls
      gives an element code that opens with `k + 1` of them. */
  lemma ImpliedArrayPrefix(container: Outcome<string>, indices: Outcome<seq<string>>, k: nat)
    requires container.Done? ==> IsPrefix(Copies("tools.implyArray(", k), container.value)
    ensures container.Done? && indices.Done? ==>
      IsPrefix(Copies("tools.implyArray(", k + 1), ArrayIndexCode(container.value, indices.value, true))
  {
    if container.Done? && indices.Done? {
      ImpliedArrayText(container.value, indices.value, k);
    }
  }

  lemma ImpliedArrayText(arrayCode: string, indexCodes: seq<string>, k: nat)
    requires IsPrefix(Copies("tools.implyArray(", k), arrayCode)
    ensures IsPrefix(Copies("tools.implyArray(", k + 1), ArrayIndexCode(arrayCode, indexCodes, true))
  {
    ArrayIndexText(arrayCode, indexCodes);
    var code := ArrayIndexCode(arrayCode, indexCodes, true);
    var head := "tools.implyArray(";
    var inner := Copies(head, k);
    assert arrayCode[..|inner|] == inner;
    assert code == head + arrayCode + code[|head| + |arrayCode|..];
    assert code[..|head| + |inner|] == head + inner;
  }

  /** `$v[i][j] = x`: both levels are implied arrays and the value is set on
      the element itself. */
  lemma AssignTwoLevelIndex(v: string, i: string, j: string, x: string, ctx: Ctx, st: CState)
    ensures var level1 := ArrayIndexCode(VariableCode(v, ctx.(assignment := true, getValue := false)), [i], true);
      var level2 := ArrayIndexCode(level1, [j], true);
      Compile(Expression(ArrayIndex(ArrayIndex(Variable(v), [Opaque("N_STRING", i)]), [Opaque("N_STRING", j)]),
                         [Operation("=", Opaque("N_STRING", x), false)]), ctx, st)
      == Done(level2 + OperationCode("=", x, false), st)
  {
    var actx := ctx.(assignment := true, getValue := false);
    var inner := ArrayIndex(Variable(v), [Opaque("N_STRING", i)]);
    var left := ArrayIndex(inner, [Opaque("N_STRING", j)]);
    var level1 := ArrayIndexCode(VariableCode(v, actx), [i], true);
    AssignTwoLevelTarget(v, i, j, actx, st);
    var op := Operation("=", Opaque("N_STRING", x), false);
    OneOperand(op, true, ctx, st, x);
    ExpressionFold(Expression(left, [op]), ctx, st);
  }

  /** The target of `$v[i][j] = ...`, compiled in the assignment. */
  lemma AssignTwoLevelTarget(v: string, i: string, j: string, actx: Ctx, st: CState)
    requires actx.assignment && !actx.getValue
    ensures var level1 := ArrayIndexCode(VariableCode(v, actx), [i], true);
      && Compile(ArrayIndex(Variable(v), [Opaque("N_STRING", i)]), actx, st) == Done(level1, st)
      && Compile(ArrayIndex(ArrayIndex(Variable(v), [Opaque("N_STRING", i)]), [Opaque("N_STRING", j)]), actx, st)
         == Done(ArrayIndexCode(level1, [j], true), st)
  {
    var inner := ArrayIndex(Variable(v), [Opaque("N_STRING", i)]);
    ConstantIndices(i, actx.(assignment := false, getValue := false), st);
    ConstantIndices(j, actx.(assignment := false, getValue := false), st);
    assert actx.(getValue := !actx.assignment) == actx;
    assert Compile(Variable(v), actx, st) == Done(VariableCode(v, actx), st);
    ArrayIndexAddressing(inner, actx, st);
    ArrayIndexAddressing(ArrayIndex(inner, [Opaque("N_STRING", j)]), actx, st);
  }

  /** A single operation whose operand compiles without touching the state. */
  lemma OneOperand(op: Operation, isAssignment: bool, ctx: Ctx, st: CState, code: string)
    requires Compile(op.operand, ctx.(getValue := !(isAssignment && op.reference)), st) == Done(code, st)
    ensures OperandCodes([op], isAssignment, ctx, st) == Done([code], st)
    ensures Steps([op], [code], isAssignment) == OperationCode(op.operator, code, isAssignment && op.reference)
  {
    assert [op][1..] == [];
    assert [code][1..] == [];
    assert OperandCodes([], isAssignment, ctx, st) == Done([], st);
    assert [code] + [] == [code];
    var step := OperationCode(op.operator, code, isAssignment && op.reference);
    assert step + "" == step;
  }

  /** A variable is read by value unless the context asks for the variable
      itself. */
  lemma VariableRule(v: string, ctx: Ctx, st: CState)
    ensures ctx.getValue ==> Compile(Variable(v), ctx, st) == Done("scope.getVariable(\"" + v + "\")" + ".getValue()", st)
    ensures !ctx.getValue ==> Compile(Variable(v), ctx, st) == Done("scope.getVariable(\"" + v + "\")", st)
  {
    var target := "scope.getVariable(\"" + v + "\")";
    assert target + "" == target;
  }

  /** The operands' codes, compiled one after the other as the expression
      rule compiles them: an operand is passed by reference only when
      assigned by reference. */
  function OperandCodes(ops: seq<Operation>, isAssignment: bool, ctx: Ctx, st: CState): (r: Outcome<seq<string>>)
    ensures r.Done? ==> |r.value| == |ops|
  {
    if ops == [] then Done([], st)
    else
      var isReference := isAssignment && ops[0].reference;
      var operand := Compile(ops[0].operand, ctx.(getValue := !isReference), st);
      if operand.Thrown? then Rethrow(operand)
      else
        var rest := OperandCodes(ops[1..], isAssignment, ctx, operand.st);
        if rest.Thrown? then rest else Done([operand.value] + rest.value, rest.st)
  }

  /** The method calls the operations append, given their operands' codes. */
  function Steps(ops: seq<Operation>, codes: seq<string>, isAssignment: bool): string
    requires |codes| == |ops|
  {
    if ops == [] then ""
    else OperationCode(ops[0].operator, codes[0], isAssignment && ops[0].reference)
         + Steps(ops[1..], codes[1..], isAssignment)
  }

  /** Appending the operations one at a time is the same as compiling every
      operand in order and then appending all their method calls: the code
      is the left operand followed by one call per operation, in order, and
      the first operand to fail is the failure. */
  lemma {:induction false} OperationsFold(ops: seq<Operation>, isAssignment: bool, ctx: Ctx, st: CState, expression: string)
    ensures var r := CompileOperations(ops, isAssignment, ctx, st, expression);
      var codes := OperandCodes(ops, isAssignment, ctx, st);
      && r.Done? == codes.Done? && r.st == codes.st
      && (r.Done? ==> r.value == expression + Steps(ops, codes.value, isAssignment))
      && (r.Thrown? ==> r.error == codes.error)
    decreases ops
  {
    if ops == [] {
      assert expression + "" == expression;
    } else {
      var op := ops[0];
      var isReference := isAssignment && op.reference;
      var operand := Compile(op.operand, ctx.(getValue := !isReference), st);
      if operand.Done? {
        var step := OperationCode(op.operator, operand.value, isReference);
        OperationsFold(ops[1..], isAssignment, ctx, operand.st, expression + step);
        var rest := OperandCodes(ops[1..], isAssignment, ctx, operand.st);
        assert CompileOperations(ops, isAssignment, ctx, st, expression)
            == CompileOperations(ops[1..], isAssignment, ctx, operand.st, expression + step);
        if rest.Done? {
          var codes := [operand.value] + rest.value;
          var tail := Steps(ops[1..], rest.value, isAssignment);
          assert OperandCodes(ops, isAssignment, ctx, st) == Done(codes, rest.st);
          assert codes[0] == operand.value && codes[1..] == rest.value;
          assert Steps(ops, codes, isAssignment) == step + tail;
          Assoc(expression, step, tail);
        }
      }
    }
  }

  /** Any expression: with no operations the rule fails on the host; otherwise
      whether it is an assignment is decided by its first operation alone, the
      left operand is the variable itself in an assignment and its value
      otherwise, and the operations' calls follow it in order. */
  lemma ExpressionFold(n: Node, ctx: Ctx, st: CState)
    requires n.Expression?
    ensures var r := Compile(n, ctx, st);
      && (|n.right| == 0 ==> r == Thrown(HostError, st))
      && (|n.right| > 0 ==>
            var isAssignment := n.right[0].operator == "=";
            var left := Compile(n.left, ctx.(assignment := isAssignment, getValue := !isAssignment), st);
            && (left.Thrown? ==> r == left)
            && (left.Done? ==>
                  var codes := OperandCodes(n.right, isAssignment, ctx, left.st);
                  && r.Done? == codes.Done? && r.st == codes.st
                  && (r.Done? ==> r.value == left.value + Steps(n.right, codes.value, isAssignment))))
  {
    assert Compile(n, ctx, st) == CompileExpression(n, ctx, st);
    if |n.right| > 0 {
      var isAssignment := n.right[0].operator == "=";
      var left := Compile(n.left, ctx.(assignment := isAssignment, getValue := !isAssignment), st);
      if left.Done? {
        OperationsFold(n.right, isAssignment, ctx, left.st, left.value);
      }
    }
  }

  /** An expression with one operation over two variables: the left operand
      is the variable itself in an assignment and its value otherwise; the
      right operand is passed by reference only when assigned by reference. */
  lemma OneOperation(v: string, operator: string, w: string, reference: bool, ctx: Ctx, st: CState)
    ensures var isAssignment := operator == "=";
      var isReference := isAssignment && reference;
      Compile(Expression(Variable(v), [Operation(operator, Variable(w), reference)]), ctx, st)
      == Done(VariableCode(v, ctx.(assignment := isAssignment, getValue := !isAssignment))
              + OperationCode(operator, VariableCode(w, ctx.(getValue := !isReference)), isReference), st)
  {
    var isAssignment := operator == "=";
    var isReference := isAssignment && reference;
    var op := Operation(operator, Variable(w), reference);
    var lctx := ctx.(assignment := isAssignment, getValue := !isAssignment);
    assert Compile(Variable(w), ctx.(getValue := !isReference), st) == Done(VariableCode(w, ctx.(getValue := !isReference)), st);
    OneOperand(op, isAssignment, ctx, st, VariableCode(w, ctx.(getValue := !isReference)));
    assert Compile(Variable(v), lctx, st) == Done(VariableCode(v, lctx), st);
    ExpressionFold(Expression(Variable(v), [op]), ctx, st);
  }

  /** `$v = &$w` binds references: the target is the variable itself and the
      operand its reference. */
  lemma ReferenceAssignment(v: string, w: string, ctx: Ctx, st: CState)
    ensures var target := "scope.getVariable(\"" + v + "\")";
      var source := "scope.getVariable(\"" + w + "\")";
      Compile(Expression(Variable(v), [Operation("=", Variable(w), true)]), ctx, st)
      == Done(target + ("." + "setReference" + "(" + source + ".getReference()" + ")"), st)
  {
    OneOperation(v, "=", w, true, ctx, st);
    VariableRule(v, ctx.(assignment := true, getValue := false), st);
    VariableRule(w, ctx.(getValue := false), st);
    var source := "scope.getVariable(\"" + w + "\")";
    assert OperationCode("=", source, true) == "." + "setReference" + "(" + source + ".getReference()" + ")";
  }

  /** Outside an assignment the reference mark on an operand is ignored: both
      sides are read by value. */
  lemma ReferenceMarkIgnoredOutsideAssignment(v: string, w: string, ctx: Ctx, st: CState)
    ensures var left := "scope.getVariable(\"" + v + "\")" + ".getValue()";
      var right := "scope.getVariable(\"" + w + "\")" + ".getValue()";
      Compile(Expression(Variable(v), [Operation("+", Variable(w), true)]), ctx, st)
      == Done(left + ("." + "add" + "(" + right + ")"), st)
  {
    OneOperation(v, "+", w, true, ctx, st);
    VariableRule(v, ctx.(assignment := false, getValue := true), st);
    VariableRule(w, ctx.(getValue := true), st);
    var right := "scope.getVariable(\"" + w + "\")" + ".getValue()";
    assert OperationCode("+", right, false) == "." + "add" + "(" + right + ")";
  }

  /** Any unary expression: the operand is compiled as the variable itself
      for `++` and `--` and by value otherwise, and the code calls the
      operator's method for its prefix or suffix form on it. A failure of the
      operand is the rule's. */
  lemma UnaryRule(n: Node, ctx: Ctx, st: CState)
    requires n.UnaryExpression?
    ensures var operand := Compile(n.operand, ctx.(getValue := n.operator != "++" && n.operator != "--"), st);
      var r := Compile(n, ctx, st);
      && (operand.Thrown? ==> r == operand)
      && (operand.Done? ==> r == Done(operand.value + "." + UnaryMethod(n.operator, n.prefix) + "()", operand.st))
  {
    assert Compile(n, ctx, st) == CompileUnary(n, ctx, st);
  }

  /** `$v++` works on the variable itself; `-$v` on its value. */
  lemma UnaryOperandAddressing(v: string, ctx: Ctx, st: CState)
    ensures var target := "scope.getVariable(\"" + v + "\")";
      Compile(UnaryExpression("++", false, Variable(v)), ctx, st)
      == Done(target + "." + "postIncrement" + "()", st)
    ensures var target := "scope.getVariable(\"" + v + "\")";
      Compile(UnaryExpression("-", true, Variable(v)), ctx, st)
      == Done(target + ".getValue()" + "." + "toNegative" + "()", st)
  {
    var inc := UnaryExpression("++", false, Variable(v));
    var neg := UnaryExpression("-", true, Variable(v));
    assert Compile(inc, ctx, st) == CompileUnary(inc, ctx, st);
    assert Compile(neg, ctx, st) == CompileUnary(neg, ctx, st);
    VariableRule(v, ctx.(getValue := false), st);
    VariableRule(v, ctx.(getValue := true), st);
    assert UnaryMethod("++", false) == "postIncrement";
    assert UnaryMethod("-", true) == "toNegative";
  }

  // ---------------------------------------------------------------------------
  // Switch statements.

  /** `break n` and `continue n` leave the switch `n - 1` levels out from the
      innermost one; outside any switch the rule fails on the host. */
  lemma BreakLevels(levels: int, ctx: Ctx, st: CState)
    ensures var b := Compile(BreakStatement(levels), ctx, st);
      && b == Compile(ContinueStatement(levels), ctx, st)
      && (ctx.switchDepth.None? ==> b == Thrown(HostError, st))
      && (ctx.switchDepth.Some? ==>
            b == Done("break switch_" + IntToString(ctx.switchDepth.value - (levels - 1)) + ";", st))
  {
    assert Compile(BreakStatement(levels), ctx, st) == CompileBreak(levels, ctx, st);
    assert Compile(ContinueStatement(levels), ctx, st) == CompileBreak(levels, ctx, st);
  }

  /** A switch is the block labelled with its own depth: one more than the
      enclosing switch, 0 at the outermost. */
  lemma SwitchLabel(n: Node, ctx: Ctx, st: CState)
    requires n.SwitchStatement?
    ensures var r := CompileSwitch(n, ctx, st);
      r.Done? ==> IsPrefix("switch_" + IntToString(SwitchDepthIn(ctx)) + ": {", r.value)
  {
    var r := CompileSwitch(n, ctx, st);
    if r.Done? {
      var e := Compile(n.expression, ctx, st);
      var cases := CompileCases(n.cases, ctx.(switchDepth := Some(SwitchDepthIn(ctx))), e.st);
      SwitchCodeOpens(SwitchDepthIn(ctx), e.value, cases.value);
    }
  }

  /** The code of the switch of depth `depth` opens the block labelled with
      that depth. */
  lemma SwitchCodeOpens(depth: int, expressionCode: string, caseCodes: seq<string>)
    ensures IsPrefix("switch_" + IntToString(depth) + ": {", SwitchCode(depth, expressionCode, caseCodes))
  {
  }

  /** A compiled switch is the switch frame of its depth around some
      expression and cases. */
  lemma SwitchShape(n: Node, ctx: Ctx, st: CState)
    requires n.SwitchStatement?
    ensures var r := CompileSwitch(n, ctx, st);
      r.Done? ==> exists e, cs :: r.value == SwitchCode(SwitchDepthIn(ctx), e, cs)
  {
    var r := CompileSwitch(n, ctx, st);
    if r.Done? {
      var e := Compile(n.expression, ctx, st);
      var cases := CompileCases(n.cases, ctx.(switchDepth := Some(SwitchDepthIn(ctx))), e.st);
      assert r.value == SwitchCode(SwitchDepthIn(ctx), e.value, cases.value);
    }
  }

  /** Any case: its statements compile first; outside a switch the rule then
      fails on the host. Inside the switch of depth `d` the case tests the
      matched flag (alone for a default case, or else together with the
      comparison against its expression, which compiles after the body),
      then sets the flag and runs its body. */
  lemma CaseShape(c: SwitchCase, ctx: Ctx, st: CState)
    ensures var body := CompileList(c.body, ctx, st);
      var r := CompileCase(c, ctx, st);
      && (body.Thrown? ==> r == Rethrow(body))
      && (body.Done? && ctx.switchDepth.None? ==> r == Thrown(HostError, body.st))
      && (body.Done? && ctx.switchDepth.Some? ==>
            var d := ctx.switchDepth.value;
            && (c.DefaultCase? ==> r == Done(DefaultCaseCode(d, Join(body.value, "")), body.st))
            && (c.Case? ==>
                  var e := Compile(c.expression, ctx, body.st);
                  && (e.Thrown? ==> r == e)
                  && (e.Done? ==> r == Done(CaseCode(d, e.value, Join(body.value, "")), e.st))))
  {
  }

  /** `break 1` in a case of a switch leaves that very switch. */
  lemma BreakLeavesOwnSwitch(e: string, ctx: Ctx, st: CState)
    ensures var d := IntToString(SwitchDepthIn(ctx));
      var body := "break switch_" + d + ";";
      var defaultCase := "if (!switchMatched_" + d + ") {switchMatched_" + d + " = true; " + body + "}";
      Compile(SwitchStatement(Opaque("N_VARIABLE", e), [DefaultCase([BreakStatement(1)])]), ctx, st)
      == Done("switch_" + d + ": {"
              + ("var switchExpression_" + d + " = " + e + "," + " switchMatched_" + d + " = false;"
                 + defaultCase + "}"), st)
  {
    BreakOnlySwitch(e, ctx, st);
    BreakOnlySwitchText(SwitchDepthIn(ctx), e);
  }

  lemma BreakOnlySwitchText(depth: int, e: string)
    ensures var d := IntToString(depth);
      var body := "break switch_" + d + ";";
      var defaultCase := "if (!switchMatched_" + d + ") {switchMatched_" + d + " = true; " + body + "}";
      SwitchCode(depth, e, [DefaultCaseCode(depth, BreakCode(depth, 1))])
      == "switch_" + d + ": {"
         + ("var switchExpression_" + d + " = " + e + "," + " switchMatched_" + d + " = false;"
            + defaultCase + "}")
  {
    assert Join([DefaultCaseCode(depth, BreakCode(depth, 1))], "") == DefaultCaseCode(depth, BreakCode(depth, 1));
  }

  /** A switch over an expression with no side effects on the state. */
  lemma BreakOnlySwitch(e: string, ctx: Ctx, st: CState)
    ensures var d := SwitchDepthIn(ctx);
      Compile(SwitchStatement(Opaque("N_VARIABLE", e), [DefaultCase([BreakStatement(1)])]), ctx, st)
      == Done(SwitchCode(d, e, [DefaultCaseCode(d, BreakCode(d, 1))]), st)
  {
    var d := SwitchDepthIn(ctx);
    var n := SwitchStatement(Opaque("N_VARIABLE", e), [DefaultCase([BreakStatement(1)])]);
    DefaultBreakCase(d, ctx.(switchDepth := Some(d)), st);
    OpaqueExpression(e, ctx, st);
    SwitchRule(n, ctx, st);
  }

  lemma OpaqueExpression(e: string, ctx: Ctx, st: CState)
    ensures Compile(Opaque("N_VARIABLE", e), ctx, st) == Done(e, st)
  {
  }

  /** Any switch: its expression compiles first, then its cases inside the
      switch one level deeper; the code is the switch frame of that depth. */
  lemma SwitchRule(n: Node, ctx: Ctx, st: CState)
    requires n.SwitchStatement?
    ensures var e := Compile(n.expression, ctx, st);
      var r := Compile(n, ctx, st);
      && (e.Thrown? ==> r == e)
      && (e.Done? ==>
            var d := SwitchDepthIn(ctx);
            var cases := CompileCases(n.cases, ctx.(switchDepth := Some(d)), e.st);
            && (cases.Thrown? ==> r == Rethrow(cases))
            && (cases.Done? ==> r == Done(SwitchCode(d, e.value, cases.value), cases.st)))
  {
    assert Compile(n, ctx, st) == CompileSwitch(n, ctx, st);
  }

  /** A default case holding only `break 1`, inside the switch of depth `d`. */
  lemma DefaultBreakCase(d: int, ctx: Ctx, st: CState)
    requires ctx.switchDepth == Some(d)
    ensures CompileCases([DefaultCase([BreakStatement(1)])], ctx, st)
         == Done([DefaultCaseCode(d, BreakCode(d, 1))], st)
  {
    var c := DefaultCase([BreakStatement(1)]);
    var code := DefaultCaseCode(d, BreakCode(d, 1));
    assert d - (1 - 1) == d;
    assert Compile(BreakStatement(1), ctx, st) == CompileBreak(1, ctx, st);
    assert [BreakStatement(1)][1..] == [] && [BreakCode(d, 1)] + [] == [BreakCode(d, 1)];
    assert CompileList([BreakStatement(1)], ctx, st) == Done([BreakCode(d, 1)], st);
    assert Join([BreakCode(d, 1)], "") == BreakCode(d, 1);
    assert CompileCase(c, ctx, st) == Done(code, st);
    assert [c][1..] == [] && [code] + [] == [code];
  }

  // ---------------------------------------------------------------------------
  // Foreach loops.

  /** A loop with no enclosing loop names its variables with depth 0: its
      code opens by caching the array in `array_0`. */
  lemma {:induction false} OutermostForeach(a: string, v: string, byReference: bool, body: string, ctx: Ctx, st: CState)
    requires !ctx.inForeach
    ensures var r := CompileForeach(ForeachStatement(Variable(a), None, Variable(v), byReference, Opaque("N_ECHO_STATEMENT", body)), ctx, st);
      && r == Done(ForeachCode(0, VariableCode(a, ctx), "", VariableCode(v, ctx.(getValue := false)), byReference, body),
                   st.(foreachDepth := 0))
      && IsPrefix("var array_0", r.value)
  {
    OpaqueBody(body, ctx.(inForeach := true), st.(foreachDepth := 0));
    OutermostForeachBody(a, v, byReference, Opaque("N_ECHO_STATEMENT", body), ctx, st);
    ForeachCodeOpens(0, VariableCode(a, ctx), "", VariableCode(v, ctx.(getValue := false)), byReference, body);
  }

  /** The code of a loop at depth `depth` opens by caching its array in
      `array_<depth>`. */
  lemma ForeachCodeOpens(depth: nat, arrayCode: string, keyCode: string, valueCode: string, byReference: bool, bodyCode: string)
    ensures IsPrefix("var array_" + NatToString(depth), ForeachCode(depth, arrayCode, keyCode, valueCode, byReference, bodyCode))
    ensures depth == 0 ==> IsPrefix("var array_0", ForeachCode(depth, arrayCode, keyCode, valueCode, byReference, bodyCode))
  {
    var code := ForeachCode(depth, arrayCode, keyCode, valueCode, byReference, bodyCode);
    var head := "var array_" + NatToString(depth);
    assert code == head + code[|head|..];
    if depth == 0 {
      assert NatToString(0) == "0";
      assert head == "var array_0";
    }
  }

  /** The depth a loop draws, the `<depth>` of its `array_<depth>`; None when
      its array, key or value throws. */
  function DrawnDepth(n: Node, ctx: Ctx, st: CState): Option<nat>
    requires n.ForeachStatement?
  {
    var head := CompileLoopHead(n, ctx, st);
    if head.Thrown? then None else Some(LoopDepth(ctx, head.st))
  }

  /** A compiled loop has drawn a depth and opens with `var array_<depth>`;
      the counter it leaves is at least that depth. */
  lemma {:induction false} LoopDepthOpens(n: Node, ctx: Ctx, st: CState)
    requires n.ForeachStatement?
    ensures CompileForeach(n, ctx, st).Done? ==>
      && DrawnDepth(n, ctx, st).Some?
      && IsPrefix("var array_" + NatToString(DrawnDepth(n, ctx, st).value), CompileForeach(n, ctx, st).value)
      && DrawnDepth(n, ctx, st).value <= CompileForeach(n, ctx, st).st.foreachDepth
  {
    var head := CompileLoopHead(n, ctx, st);
    if head.Done? {
      assert DrawnDepth(n, ctx, st) == Some(LoopDepth(ctx, head.st));
    }
  }

  /** Inside a loop the depth a nested loop draws is above the counter it
      started from; outside every loop it is 0. */
  lemma {:induction false} LoopDepthBounds(n: Node, ctx: Ctx, st: CState)
    requires n.ForeachStatement?
    ensures DrawnDepth(n, ctx, st).Some? && ctx.inForeach ==> DrawnDepth(n, ctx, st).value > st.foreachDepth
    ensures DrawnDepth(n, ctx, st).Some? && !ctx.inForeach ==> DrawnDepth(n, ctx, st).value == 0
  {
    var head := CompileLoopHead(n, ctx, st);
    assert ctx.inForeach ==> st.foreachDepth <= head.st.foreachDepth;
  }

  /** Two loops compiled one after the other inside a loop draw on the one
      counter, which no loop lowers: the second gets a deeper `array_<depth>`
      than the first, so their arrays never share a name. */
  lemma {:induction false} SiblingLoops(first: Node, second: Node, ctx: Ctx, st: CState)
    requires ctx.inForeach && first.ForeachStatement? && second.ForeachStatement?
    requires CompileForeach(first, ctx, st).Done? && CompileForeach(second, ctx, CompileForeach(first, ctx, st).st).Done?
    ensures DrawnDepth(first, ctx, st).Some? && DrawnDepth(second, ctx, CompileForeach(first, ctx, st).st).Some?
    ensures DrawnDepth(first, ctx, st).value < DrawnDepth(second, ctx, CompileForeach(first, ctx, st).st).value
  {
    LoopDepthOpens(first, ctx, st);
    LoopDepthOpens(second, ctx, CompileForeach(first, ctx, st).st);
    LoopDepthBounds(second, ctx, CompileForeach(first, ctx, st).st);
  }

  lemma OpaqueBody(body: string, ctx: Ctx, st: CState)
    ensures Compile(Opaque("N_ECHO_STATEMENT", body), ctx, st) == Done(body, st)
  {
  }

  /** An outermost loop over a variable with a plain variable as its value,
      whatever its body: the body compiles inside a loop, with the counter
      reset to 0. */
  lemma {:induction false} OutermostForeachBody(a: string, v: string, byReference: bool, body: Node, ctx: Ctx, st: CState)
    requires !ctx.inForeach
    ensures var b := Compile(body, ctx.(inForeach := true), st.(foreachDepth := 0));
      var r := CompileForeach(ForeachStatement(Variable(a), None, Variable(v), byReference, body), ctx, st);
      && (b.Thrown? ==> r == b)
      && (b.Done? ==> r == Done(ForeachCode(0, VariableCode(a, ctx), "", VariableCode(v, ctx.(getValue := false)), byReference, b.value), b.st))
  {
    var n := ForeachStatement(Variable(a), None, Variable(v), byReference, body);
    VariableLoopHead(a, v, byReference, body, ctx, st);
    var b := Compile(body, ctx.(inForeach := true), st.(foreachDepth := 0));
    assert CompileForeach(n, ctx, st) == LoopOutcome(0, VariableCode(a, ctx), "", VariableCode(v, ctx.(getValue := false)), byReference, b);
    if b.Done? {
      assert LoopOutcome(0, VariableCode(a, ctx), "", VariableCode(v, ctx.(getValue := false)), byReference, b)
          == Done(ForeachCode(0, VariableCode(a, ctx), "", VariableCode(v, ctx.(getValue := false)), byReference, b.value), b.st);
    }
  }

  /** A loop over a variable, with no key and a variable as its value: its
      head is the two variables' code, and the state is untouched. */
  lemma {:induction false} VariableLoopHead(a: string, v: string, byReference: bool, body: Node, ctx: Ctx, st: CState)
    ensures CompileLoopHead(ForeachStatement(Variable(a), None, Variable(v), byReference, body), ctx, st)
         == Done(LoopHead(VariableCode(a, ctx), "", VariableCode(v, ctx.(getValue := false))), st)
  {
    assert Compile(Variable(a), ctx, st) == Done(VariableCode(a, ctx), st);
    assert Compile(Variable(v), ctx.(getValue := false), st) == Done(VariableCode(v, ctx.(getValue := false)), st);
  }

  /** A block of two statements that publish no label notifications is their
      codes, in order. */
  lemma {:induction false} QuietPair(a: Node, b: Node, ctx: Ctx, st: CState, v0: string, s0: CState, v1: string, s1: CState)
    requires ctx.resume.None?
    requires Compile(a, ctx, st) == Done(v0, s0) && Compile(b, ctx, s0) == Done(v1, s1)
    requires s0.repo == st.repo && s1.repo == st.repo
    ensures ProcessBlockSpec([a, b], ctx, st) == Done(v0 + v1, s1)
  {
    TwoRecords(a, b, ctx, st, v0, s0, v1, s1);
    var events := st.repo.events;
    assert events[|events|..] == [];
    QuietAssembly(a, b, v0, v1);
  }

  lemma QuietAssembly(a: Node, b: Node, v0: string, v1: string)
    ensures Assemble([StatementRecord(a, v0, []), StatementRecord(b, v1, [])], None) == v0 + v1
  {
    var d0 := StatementRecord(a, v0, []);
    var d1 := StatementRecord(b, v1, []);
    assert Plain([d0, d1]);
    PlainWrapped([d0, d1]);
    EmitTwo(d0, d1);
    assert Render([]) == "";
  }

  // ---------------------------------------------------------------------------
  // Functions and closures.

  /** A function declaration leaves the enclosing label repository exactly as
      it was: its labels and gotos are its own. */
  lemma FunctionStatementIsolated(n: Node, ctx: Ctx, st: CState)
    requires n.FunctionStatement?
    ensures CompileFunctionStatement(n, ctx, st).st.repo == st.repo
  {
  }

  /** A function declared inside a loop may still define labels, since its
      body starts with a repository with no listener attached. */
  lemma LabelInFunctionInsideLoop(f: string, l: string, ctx: Ctx, st: CState)
    ensures Compile(FunctionStatement(f, [], LabelStatement(l)), ctx, st).Done?
  {
    var n := FunctionStatement(f, [], LabelStatement(l));
    assert Compile(n, ctx, st) == CompileFunctionStatement(n, ctx, st);
    var st0 := st.(repo := EmptyRepository());
    assert Compile(LabelStatement(l), ctx, st0) == CompileLabel(l, st0);
    assert InterpretFunction([], [], LabelStatement(l), ctx, st0).Done?;
  }

  /** A closure shares the enclosing repository: its labels are subject to the
      enclosing loops. */
  lemma LabelInClosureSharesRepository(l: string, ctx: Ctx, st: CState)
    ensures Compile(Closure([], [], LabelStatement(l)), ctx, st).Thrown? <==> st.repo.loopListeners > 0
  {
    var n := Closure([], [], LabelStatement(l));
    assert Compile(n, ctx, st) == CompileClosure(n, ctx, st);
    var marked := Compile(LabelStatement(l), ctx, st);
    assert marked == CompileLabel(l, st);
    assert marked.Thrown? <==> st.repo.loopListeners > 0;
    assert InterpretFunction([], [], LabelStatement(l), ctx, st).Thrown? <==> marked.Thrown?;
  }

  /** The parent-scope wrapper is present exactly when there are bindings. */
  lemma ParentScopeOnlyWithBindings(params: seq<string>, bindings: seq<Binding>, bodyCode: string)
    ensures IsPrefix(ParentScopeOpen(), FunctionCode(params, bindings, bodyCode)) <==> |bindings| > 0
  {
    var f := FunctionCode(params, bindings, bodyCode);
    var open := ParentScopeOpen();
    if |bindings| > 0 {
      assert f[..|open|] == open;
    } else {
      assert f[0] == 'f';
      assert open[0] == '(';
      assert f[..|open|] != open by {
        if |f| >= |open| { assert f[..|open|][0] != open[0]; }
      }
    }
  }

  /** The body is framed verbatim: after the call is pushed, the arguments are
      copied, then the bindings, then the body runs, and the call is popped
      whatever happens. */
  lemma FunctionCodeLayout(params: seq<string>, bindings: seq<Binding>, bodyCode: string)
    ensures var open := if |bindings| > 0 then ParentScopeOpen() else "";
      var close := if |bindings| > 0 then ParentScopeClose() else "";
      var inner := "var scope = tools.pushCall(this).getScope(); try { "
        + ArgumentCopies(params) + BindingCopies(bindings) + bodyCode
        + " } finally { tools.popCall(); }";
      FunctionCode(params, bindings, bodyCode)
      == open + ("function (" + Join(DollarNames(params), ", ") + ") {" + inner + "}") + close
  {
    var f := "function (" + Join(DollarNames(params), ", ") + ") {"
      + (FunctionPrologue() + ArgumentCopies(params) + BindingCopies(bindings) + bodyCode + FunctionEpilogue()) + "}";
    if |bindings| == 0 {
      assert "" + f + "" == f;
    }
  }

  /** Argument copies distribute over parameter lists: each parameter's
      argument is copied into the variable of the same name, in order. */
  lemma {:induction false} ArgumentCopiesConcat(a: seq<string>, b: seq<string>)
    ensures ArgumentCopies(a + b) == ArgumentCopies(a) + ArgumentCopies(b)
    decreases |a|
  {
    if a == [] {
      assert a + b == b;
    } else {
      assert (a + b)[1..] == a[1..] + b;
      ArgumentCopiesConcat(a[1..], b);
    }
  }

  // ---------------------------------------------------------------------------
  // Resumption.

  /** The innermost call on the resume path is replaced by the resumed value
      and the resume label is marked as found. */
  lemma ResumeInnermostCall(n: Node, ctx: Ctx, st: CState)
    requires n.FunctionCall? && ctx.resume.Some?
    requires |ctx.resume.value.nodes| > 0 && n.id == ctx.resume.value.nodes[|ctx.resume.value.nodes| - 1]
    requires st.repo.loopListeners == 0
    ensures var r := CompileCall(n, ctx, st);
      && r.Done? && r.value == "tools.getResumeValue()"
      && ctx.resume.value.labelName in r.st.repo.found
  {
    var m := MarkFound(st.repo, ctx.resume.value.labelName);
    assert m.Ok? && ctx.resume.value.labelName in m.value.found;
    assert n.id in ctx.resume.value.nodes;
    assert CompileCall(n, ctx, st) == Done("tools.getResumeValue()", st.(repo := m.value));
  }

  /** Any call off the resume path: the arguments compile first, in order,
      then the callee by value; the code calls it with the node's anchor,
      the arguments and the namespace scope, falling back to null. A failure
      of either part is the rule's. */
  lemma CallBodyCode(n: Node, ctx: Ctx, st: CState)
    requires n.FunctionCall?
    ensures var args := CompileList(n.args, ctx, st);
      var r := CompileCallBody(n, ctx, st);
      && (args.Thrown? ==> r == Rethrow(args))
      && (args.Done? ==>
            var callee := Compile(n.func, ctx.(getValue := true), args.st);
            && (callee.Thrown? ==> r == callee)
            && (callee.Done? ==>
                  var (marker, st') := GetAnchor(n.id, callee.st);
                  r == Done("(" + callee.value + ".call" + marker + "([" + Join(args.value, ", ")
                            + "], namespaceScope) || tools.valueFactory.createNull())", st')))
  {
  }

  /** A call off the resume path is tagged with the anchor of its node: the
      node is in the table, its anchor id leads back to it, and a node that
      already had an anchor keeps it. */
  lemma CallAnchorLeadsBack(n: Node, ctx: Ctx, st: CState)
    requires n.FunctionCall? && (ctx.resume.None? || n.id !in ctx.resume.value.nodes)
    ensures var r := CompileCall(n, ctx, st);
      r.Done? ==>
        && n.id in r.st.anchors
        && r.st.anchors[AnchorOf(r.st.anchors, n.id)] == n.id
        && (n.id in st.anchors ==> AnchorOf(r.st.anchors, n.id) == AnchorOf(st.anchors, n.id))
  {
    assert CompileCall(n, ctx, st) == CompileCallBody(n, ctx, st);
    CallBodyAnchor(n, ctx, st);
  }

  lemma CallBodyAnchor(n: Node, ctx: Ctx, st: CState)
    requires n.FunctionCall?
    ensures var r := CompileCallBody(n, ctx, st);
      r.Done? ==>
        && n.id in r.st.anchors
        && r.st.anchors[AnchorOf(r.st.anchors, n.id)] == n.id
        && (n.id in st.anchors ==> AnchorOf(r.st.anchors, n.id) == AnchorOf(st.anchors, n.id))
  {
    var r := CompileCallBody(n, ctx, st);
    if r.Done? && n.id in st.anchors {
      AnchorKept(st.anchors, r.st.anchors, n.id);
    }
  }

  /** An anchor id never changes once the table has grown past it. */
  lemma {:induction false} AnchorKept(before: seq<nat>, after: seq<nat>, id: nat)
    requires before <= after && id in before
    ensures id in after && AnchorOf(after, id) == AnchorOf(before, id)
  {
    if before[0] != id {
      assert before[1..] <= after[1..];
      AnchorKept(before[1..], after[1..], id);
    }
  }

  /** Asking again for a node's anchor changes nothing. */
  lemma GetAnchorIdempotent(id: nat, st: CState)
    ensures var (marker, st') := GetAnchor(id, st);
      GetAnchor(id, st') == (marker, st')
  {
  }

  // ---------------------------------------------------------------------------
  // Whole blocks.

  /** The records of a two-statement block whose statements publish exactly
      the notifications `e0`, then `e1`. */
  lemma {:induction false} TwoRecords(a: Node, b: Node, ctx: Ctx, st: CState, v0: string, s0: CState, v1: string, s1: CState)
    requires ctx.resume.None?
    requires Compile(a, ctx, st) == Done(v0, s0)
    requires Compile(b, ctx, s0) == Done(v1, s1)
    ensures var d0 := StatementRecord(a, v0, s0.repo.events[|st.repo.events|..]);
      var d1 := StatementRecord(b, v1, s1.repo.events[|s0.repo.events|..]);
      ProcessBlockSpec([a, b], ctx, st) == Done(Assemble([d0, d1], None), s1)
  {
    var s := [a, b];
    var d0 := StatementRecord(a, v0, s0.repo.events[|st.repo.events|..]);
    var d1 := StatementRecord(b, v1, s1.repo.events[|s0.repo.events|..]);
    assert [] + [d0] == [d0];
    assert CollectFrom(s, 0, ctx, st, []) == CollectFrom(s, 1, ctx, s0, [d0]);
    assert [d0] + [d1] == [d0, d1];
    assert CollectFrom(s, 1, ctx, s0, [d0]) == CollectFrom(s, 2, ctx, s1, [d0, d1]);
  }

  lemma OneEvent(e: LabelEvent)
    ensures e.Pending? ==> PendingLabels([e]) == [e.labelName] && FoundLabels([e]) == []
    ensures e.Found? ==> PendingLabels([e]) == [] && FoundLabels([e]) == [e.labelName]
  {
    assert [e][..0] == [];
  }

  /** Assembling "goto l" followed by "l:". */
  lemma ForwardAssembly(l: string, jump: string)
    ensures var d0 := StatementData(jump, [l], [], [], [], false);
      var d1 := StatementData("", [], [l], [], [], false);
      Assemble([d0, d1], None) == (l + ": {") + ("if (!goingToLabel_" + l + ") {") + jump + "}" + "}"
  {
    var d0 := StatementData(jump, [l], [], [], [], false);
    var d1 := StatementData("", [], [l], [], [], false);
    var wd0 := d0.(prefix := [BlockOpen(l), GuardOpen(l)]);
    var wd1 := d1.(prefix := [BlockClose(l), GuardClose(l)]);
    ForwardGuards(l, jump);
    ForwardWrap(l, jump);
    EmitTwo(wd0, wd1);
    ForwardRender(l);
  }

  lemma ForwardGuards(l: string, jump: string)
    ensures var d0 := StatementData(jump, [l], [], [], [], false);
      var d1 := StatementData("", [], [l], [], [], false);
      GuardFrom([d0, d1], 0) == [d0.(prefix := [GuardOpen(l)]), d1.(prefix := [GuardClose(l)])]
  {
    var d0 := StatementData(jump, [l], [], [], [], false);
    var d1 := StatementData("", [], [l], [], [], false);
    var ds := [d0, d1];
    var g := [d0.(prefix := [GuardOpen(l)]), d1.(prefix := [GuardClose(l)])];
    assert GuardFrom(ds, 0) == GuardFrom(ds, 1);
    var g1 := GuardLabels(ds, 1, 0);
    assert GuardFrom(ds, 1) == GuardFrom(g1, 2) == g1;
    assert [GuardOpen(l)] + [] == [GuardOpen(l)];
    assert [GuardClose(l)] + [] == [GuardClose(l)];
    var ds' := ds[0 := ds[0].(prefix := [GuardOpen(l)] + ds[0].prefix)]
                 [1 := ds[1].(prefix := [GuardClose(l)] + ds[1].prefix)];
    assert ds' == g;
    assert ds[1].labels[0] == l;
    assert g1 == GuardLabels(ds', 1, 1);
    assert GuardLabels(g, 1, 1) == g;
  }

  lemma ForwardWrap(l: string, jump: string)
    ensures var d0 := StatementData(jump, [l], [], [], [], false);
      var d1 := StatementData("", [], [l], [], [], false);
      WrapFrom([d0.(prefix := [GuardOpen(l)]), d1.(prefix := [GuardClose(l)])], 0)
      == [d0.(prefix := [BlockOpen(l), GuardOpen(l)]), d1.(prefix := [BlockClose(l), GuardClose(l)])]
  {
    var d0 := StatementData(jump, [l], [], [], [], false);
    var d1 := StatementData("", [], [l], [], [], false);
    var g := [d0.(prefix := [GuardOpen(l)]), d1.(prefix := [GuardClose(l)])];
    var wd0 := d0.(prefix := [BlockOpen(l), GuardOpen(l)]);
    var wd1 := d1.(prefix := [BlockClose(l), GuardClose(l)]);
    var t := WrapTargets(g, 0, l, 0);
    assert t == WrapTargets(g, 0, l, 1);
    assert [BlockOpen(l)] + [GuardOpen(l)] == [BlockOpen(l), GuardOpen(l)];
    assert [BlockClose(l)] + [GuardClose(l)] == [BlockClose(l), GuardClose(l)];
    assert WrapStep(g, 0, l, 1) == [wd0, wd1];
    assert t == WrapTargets([wd0, wd1], 0, l, 2) == [wd0, wd1];
    assert WrapGotos(g, 0, 0) == WrapGotos(t, 0, 1) == t;
    assert WrapFrom(g, 0) == WrapFrom(t, 1);
    assert WrapGotos(t, 1, 0) == t;
    assert WrapFrom(t, 1) == WrapFrom(t, 2) == t;
  }

  lemma ForwardRender(l: string)
    ensures Render([BlockOpen(l), GuardOpen(l)]) == (l + ": {") + ("if (!goingToLabel_" + l + ") {")
    ensures Render([BlockClose(l), GuardClose(l)]) == "}" + "}"
  {
    assert [BlockOpen(l), GuardOpen(l)][1..] == [GuardOpen(l)];
    RenderOne(GuardOpen(l));
    assert [BlockClose(l), GuardClose(l)][1..] == [GuardClose(l)];
    RenderOne(GuardClose(l));
  }

  /** Assembling "l:" followed by "goto l". */
  lemma BackwardAssembly(l: string, jump: string)
    ensures var d0 := StatementData("", [], [l], [], [], false);
      var d1 := StatementData(jump, [l], [], [], [], false);
      Assemble([d0, d1], None) == ("continue_" + l + ": do {") + jump + ("} while (goingToLabel_" + l + ");")
  {
    var d0 := StatementData("", [], [l], [], [], false);
    var d1 := StatementData(jump, [l], [], [], [], false);
    var ds := [d0, d1];
    assert GuardFrom(ds, 0) == ds by {
      assert GuardFrom(ds, 0) == GuardFrom(ds, 1);
      assert GuardLabels(ds, 1, 0) == ds;
      assert GuardFrom(ds, 1) == GuardFrom(ds, 2) == ds;
    }
    var wd0 := d0.(prefix := [LoopOpen(l)]);
    var wd1 := d1.(suffix := [LoopClose(l)]);
    assert WrapFrom(ds, 0) == [wd0, wd1] by {
      assert WrapGotos(ds, 0, 0) == ds;
      assert WrapFrom(ds, 0) == WrapFrom(ds, 1);
      var t := WrapTargets(ds, 1, l, 0);
      assert [] + [LoopOpen(l)] == [LoopOpen(l)];
      assert [] + [LoopClose(l)] == [LoopClose(l)];
      assert WrapStep(ds, 1, l, 0) == [wd0, wd1];
      assert t == WrapTargets([wd0, wd1], 1, l, 1);
      assert WrapStep([wd0, wd1], 1, l, 1) == [wd0, wd1];
      assert t == WrapTargets([wd0, wd1], 1, l, 2) == [wd0, wd1];
      assert WrapGotos(ds, 1, 0) == WrapGotos(t, 1, 1) == t;
      assert WrapFrom(ds, 1) == WrapFrom(t, 2) == t;
    }
    EmitTwo(wd0, wd1);
    RenderOne(LoopOpen(l));
    RenderOne(LoopClose(l));
  }

  lemma RenderOne(p: Piece)
    ensures Render([p]) == PieceText(p)
  {
    assert [p][1..] == [];
    assert PieceText(p) + "" == PieceText(p);
  }

  lemma EmitTwo(a: StatementData, b: StatementData)
    ensures Emit([a, b]) == Render(a.prefix) + a.code + Render(a.suffix) + Render(b.prefix) + b.code + Render(b.suffix)
  {
    assert [a, b][..1] == [a];
    assert [a][..0] == [];
    var ea := Render(a.prefix) + a.code + Render(a.suffix);
    assert Emit([a]) == "" + Render(a.prefix) + a.code + Render(a.suffix);
    assert "" + Render(a.prefix) == Render(a.prefix);
    assert Emit([a]) == ea;
    assert Emit([a, b]) == ea + Render(b.prefix) + b.code + Render(b.suffix);
  }

  /** `goto l; l:` in one block: the goto leaves a block labelled `l` that
      ends just before the label, and the label's guard skips nothing when
      the block is entered from the top. */
  lemma ForwardGotoBlock(l: string, ctx: Ctx, st: CState)
    requires ctx.resume.None? && l !in st.repo.found && st.repo.loopListeners == 0
    ensures var jump := "goingToLabel_" + l + " = true;" + " break " + l + ";";
      var r := ProcessBlockSpec([GotoStatement(l), LabelStatement(l)], ctx, st);
      r.Done? && r.value == (l + ": {") + ("if (!goingToLabel_" + l + ") {") + jump + "}" + "}"
  {
    var jump := "goingToLabel_" + l + " = true;" + " break " + l + ";";
    GotoRule(l, ctx, st);
    var c0 := Compile(GotoStatement(l), ctx, st);
    LabelRule(l, ctx, c0.st);
    var c1 := Compile(LabelStatement(l), ctx, c0.st);
    TwoRecords(GotoStatement(l), LabelStatement(l), ctx, st, c0.value, c0.st, c1.value, c1.st);
    assert c0.st.repo.events[|st.repo.events|..] == [Pending(l)];
    assert c1.st.repo.events[|c0.st.repo.events|..] == [Found(l)];
    OneEvent(Pending(l));
    OneEvent(Found(l));
    assert c0.value == jump;
    assert StatementRecord(GotoStatement(l), c0.value, [Pending(l)]) == StatementData(jump, [l], [], [], [], false);
    assert StatementRecord(LabelStatement(l), c1.value, [Found(l)]) == StatementData("", [], [l], [], [], false);
    ForwardAssembly(l, jump);
    var d0 := StatementData(jump, [l], [], [], [], false);
    var d1 := StatementData("", [], [l], [], [], false);
    var r := ProcessBlockSpec([GotoStatement(l), LabelStatement(l)], ctx, st);
    assert r == Done(Assemble([d0, d1], None), c1.st);
    assert r.value == (l + ": {") + ("if (!goingToLabel_" + l + ") {") + jump + "}" + "}";
  }

  /** `l: goto l;` in one block: the label opens a loop labelled
      `continue_l` that the goto continues, and that ends after the goto. */
  lemma BackwardGotoLoop(l: string, ctx: Ctx, st: CState)
    requires ctx.resume.None? && st.repo.loopListeners == 0
    ensures var jump := "goingToLabel_" + l + " = true;" + " continue continue_" + l + ";";
      var r := ProcessBlockSpec([LabelStatement(l), GotoStatement(l)], ctx, st);
      r.Done? && r.value == ("continue_" + l + ": do {") + jump + ("} while (goingToLabel_" + l + ");")
  {
    var jump := "goingToLabel_" + l + " = true;" + " continue continue_" + l + ";";
    LabelRule(l, ctx, st);
    var c0 := Compile(LabelStatement(l), ctx, st);
    GotoRule(l, ctx, c0.st);
    var c1 := Compile(GotoStatement(l), ctx, c0.st);
    TwoRecords(LabelStatement(l), GotoStatement(l), ctx, st, c0.value, c0.st, c1.value, c1.st);
    assert c0.st.repo.events[|st.repo.events|..] == [Found(l)];
    assert c1.st.repo.events[|c0.st.repo.events|..] == [Pending(l)];
    OneEvent(Pending(l));
    OneEvent(Found(l));
    assert c1.value == jump;
    var d0 := StatementData("", [], [l], [], [], false);
    var d1 := StatementData(jump, [l], [], [], [], false);
    assert StatementRecord(LabelStatement(l), c0.value, [Found(l)]) == d0;
    assert StatementRecord(GotoStatement(l), c1.value, [Pending(l)]) == d1;
    BackwardAssembly(l, jump);
    var r := ProcessBlockSpec([LabelStatement(l), GotoStatement(l)], ctx, st);
    assert r == Done(Assemble([d0, d1], None), c1.st);
    assert r.value == ("continue_" + l + ": do {") + jump + ("} while (goingToLabel_" + l + ");");
  }
}
