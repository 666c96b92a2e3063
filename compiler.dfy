/** The code generator for the modelled node kinds: each node compiles to
    JavaScript source text. Compilation threads a state (the current label
    repository, the shared foreach counter and the anchor table) and can stop
    with a PHP fatal error or with a host error, which is how a JavaScript
    `TypeError` raised by a rule (reading a field of an absent context entry or
    of a missing first operation) shows up. */
module Compiler {
  import opened Errors
  import opened Strings
  import opened Operators
  import opened Ast
  import opened Labels
  import opened Blocks

  /** Resume data: the reserved label, and the ids of the call nodes on the
      path that was active when execution was suspended, outermost first. */
  datatype Resume = Resume(labelName: string, nodes: seq<nat>)

  /** The compilation context. A rule that passes a sub-context overrides some
      of these fields for the call it makes; the others are inherited.
      `getValue` starts out true, since only an explicit `false` asks for the
      variable itself. `inForeach` says whether a foreach counter object is
      reachable from the context. */
  datatype Ctx = Ctx(
    assignment: bool,
    getValue: bool,
    switchDepth: Option<int>,
    inForeach: bool,
    resume: Option<Resume>,
    loopListener: LoopListener)

  /** How long the listener a `while` loop attaches to the label repository
      stays attached: for good, as the source has it, or only while the loop
      itself compiles, as its error message intends. */
  datatype LoopListener = KeptAfterLoop | RemovedAfterLoop

  /** The program rule's starting context. */
  function RootContext(resume: Option<Resume>, loopListener: LoopListener): Ctx {
    Ctx(false, true, None, false, resume, loopListener)
  }

  /** State carried from one compile step to the next: the label repository of
      the current function body or program, the shared foreach counter and the
      anchor table. The table lists the call nodes in the order they were
      given an anchor, so a node's anchor id is its position and the id leads
      back to the node by construction. */
  datatype CState = CState(
    repo: LabelRepository,
    foreachDepth: nat,
    anchors: seq<nat>)

  function InitialState(): CState {
    CState(EmptyRepository(), 0, [])
  }

  datatype CompileError = Fatal(fatal: FatalError) | HostError

  datatype Outcome<T> = Done(value: T, st: CState) | Thrown(error: CompileError, st: CState)

  function Rethrow<T, U>(o: Outcome<T>): (r: Outcome<U>)
    requires o.Thrown?
    ensures r.Thrown? && r.error == o.error && r.st == o.st
  {
    Thrown(o.error, o.st)
  }

  /** The label repository's log only grows while compiling, listeners are
      never detached below what they were, and the anchor table only grows at
      its end, so every anchor keeps its node. */
  predicate Extends(before: CState, after: CState) {
    && |before.repo.events| <= |after.repo.events|
    && before.repo.loopListeners <= after.repo.loopListeners
    && before.anchors <= after.anchors
  }

  /** With loop listeners scoped to their loop, a completed compile step leaves
      the number of attached listeners as it found it. */
  predicate Balanced<T>(ctx: Ctx, before: CState, r: Outcome<T>) {
    r.Done? && ctx.loopListener == RemovedAfterLoop ==> r.st.repo.loopListeners == before.repo.loopListeners
  }

  /** Inside a foreach body the shared foreach counter never goes down: a
      nested loop raises it and nothing lowers it when that loop ends. */
  predicate CounterKept<T>(ctx: Ctx, before: CState, r: Outcome<T>) {
    ctx.inForeach ==> before.foreachDepth <= r.st.foreachDepth
  }

  // ---------------------------------------------------------------------------
  // Pure code shapes.

  function VariableCode(variable: string, ctx: Ctx): string {
    "scope.getVariable(\"" + variable + "\")" + (if ctx.getValue then ".getValue()" else "")
  }

  function GotoCode(labelName: string, found: bool): string {
    "goingToLabel_" + labelName + " = true;"
      + (if found then " continue continue_" + labelName + ";" else " break " + labelName + ";")
  }

  /** Indexing: in an assignment the container is passed through `implyArray`
      and the element itself is the result; otherwise the element's value. */
  function ArrayIndexCode(arrayCode: string, indexCodes: seq<string>, assignment: bool): string {
    (if assignment then "tools.implyArray(" + arrayCode + ")" else arrayCode)
      + ".getElementByKey(" + Join(indexCodes, ").getValue().getElementByKey(") + ")"
      + (if assignment then "" else ".getValue()")
  }

  /** One `operator operand` step appended to an expression. */
  function OperationCode(operator: string, operandCode: string, isReference: bool): string {
    "." + BinaryMethod(operator, isReference) + "(" + operandCode
      + (if isReference then ".getReference()" else "") + ")"
  }

  function SwitchCode(depth: int, expressionCode: string, caseCodes: seq<string>): string {
    var d := IntToString(depth);
    var head := "switch_" + d + ": {";
    head + ("var switchExpression_" + d + " = " + expressionCode + "," + " switchMatched_" + d + " = false;"
            + Join(caseCodes, "") + "}")
  }

  function CaseCode(depth: int, expressionCode: string, bodyCode: string): string {
    var d := IntToString(depth);
    "if (switchMatched_" + d + " || switchExpression_" + d + ".isEqualTo(" + expressionCode
      + ").getNative()) {switchMatched_" + d + " = true; " + bodyCode + "}"
  }

  function DefaultCaseCode(depth: int, bodyCode: string): string {
    var d := IntToString(depth);
    "if (!switchMatched_" + d + ") {switchMatched_" + d + " = true; " + bodyCode + "}"
  }

  /** `break n` and `continue n` leave the switch `n - 1` levels out. */
  function BreakCode(depth: int, levels: int): string {
    "break switch_" + IntToString(depth - (levels - 1)) + ";"
  }

  /** A foreach loop over the array cached in `array_d`, with the cursor
      advanced before the body runs. `keyCode` is empty when there is no key. */
  function ForeachCode(depth: nat, arrayCode: string, keyCode: string, valueCode: string,
                       byReference: bool, bodyCode: string): string
  {
    var d := NatToString(depth);
    var arrayVariable := "array_" + d;
    var lengthVariable := "length_" + d;
    var pointerVariable := "pointer_" + d;
    var head := "var array_" + d;
    var rest := " = " + arrayCode + ".reset();"
      + "var " + lengthVariable + " = " + arrayVariable + ".getLength();"
      + "var " + pointerVariable + " = 0;"
      + "while (" + pointerVariable + " < " + lengthVariable + ") {"
      + (if keyCode != "" then keyCode + ".setValue(" + arrayVariable + ".getKeyByIndex(" + pointerVariable + "));" else "")
      + valueCode + ".set" + (if byReference then "Reference" else "Value") + "(" + arrayVariable
      + ".getElementByIndex(" + pointerVariable + ")" + (if byReference then "" else ".getValue()") + ");"
      + pointerVariable + "++;"
      + bodyCode
      + "}";
    head + rest
  }

  function ArgumentCopies(params: seq<string>): string
    decreases |params|
  {
    if params == [] then ""
    else "scope.getVariable(\"" + params[0] + "\").setValue($" + params[0] + ");" + ArgumentCopies(params[1..])
  }

  function BindingCopies(bindings: seq<Binding>): string
    decreases |bindings|
  {
    if bindings == [] then ""
    else
      var b := bindings[0];
      var m := if b.reference then "Reference" else "Value";
      "scope.getVariable(\"" + b.variable + "\").set" + m + "(parentScope.getVariable(\"" + b.variable + "\").get" + m + "());"
        + BindingCopies(bindings[1..])
  }

  function DollarNames(params: seq<string>): (r: seq<string>)
    ensures |r| == |params|
    ensures forall k :: 0 <= k < |r| ==> r[k] == "$" + params[k]
  {
    seq(|params|, k requires 0 <= k < |params| => "$" + params[k])
  }

  function FunctionPrologue(): string {
    "var scope = tools.pushCall(this).getScope(); try { "
  }

  function FunctionEpilogue(): string {
    " } finally { tools.popCall(); }"
  }

  function ParentScopeOpen(): string {
    "(function (parentScope) { return "
  }

  function ParentScopeClose(): string {
    "; }(scope))"
  }

  /** `interpretFunction` once the body is compiled: argument copies, then
      binding copies, then the body, inside the push/pop of a call; wrapped in a
      function taking the parent scope when there are bindings. */
  function FunctionCode(params: seq<string>, bindings: seq<Binding>, bodyCode: string): string {
    var inner := FunctionPrologue() + ArgumentCopies(params) + BindingCopies(bindings) + bodyCode + FunctionEpilogue();
    var f := "function (" + Join(DollarNames(params), ", ") + ") {" + inner + "}";
    if |bindings| > 0 then ParentScopeOpen() + f + ParentScopeClose() else f
  }

  function AnchorMarker(guid: nat): string {
    "/*#UNITER-" + NatToString(guid) + "#*/"
  }

  /** A node's anchor id: the position at which it entered the table. */
  function AnchorOf(anchors: seq<nat>, id: nat): (g: nat)
    requires id in anchors
    ensures g < |anchors| && anchors[g] == id && id !in anchors[..g]
  {
    if anchors[0] == id then 0
    else
      var g := 1 + AnchorOf(anchors[1..], id);
      assert anchors[..g] == [anchors[0]] + anchors[1..][..g - 1];
      g
  }

  /** `getAnchor`: a call node keeps the anchor id it was first given; a node
      without one gets the next id. */
  function GetAnchor(id: nat, st: CState): (r: (string, CState))
    ensures r.1.repo == st.repo && r.1.foreachDepth == st.foreachDepth
    ensures id in r.1.anchors && r.0 == AnchorMarker(AnchorOf(r.1.anchors, id))
    ensures Extends(st, r.1)
  {
    if id in st.anchors then (AnchorMarker(AnchorOf(st.anchors, id)), st)
    else
      var anchors := st.anchors + [id];
      assert anchors[|st.anchors|] == id;
      assert anchors[..|st.anchors|] == st.anchors;
      (AnchorMarker(|st.anchors|), st.(anchors := anchors))
  }

  function ResumeLabel(resume: Option<Resume>): Option<string> {
    match resume
    case None => None
    case Some(r) => Some(r.labelName)
  }

  // ---------------------------------------------------------------------------
  // The node rules.

  function Compile(n: Node, ctx: Ctx, st: CState): (r: Outcome<string>)
    ensures Extends(st, r.st)
    ensures Balanced(ctx, st, r)
    ensures CounterKept(ctx, st, r)
    decreases n, 2
  {
    match n
    case GotoStatement(l) => CompileGoto(l, st)
    case LabelStatement(l) => CompileLabel(l, st)
    case WhileStatement(_, _) => CompileWhile(n, ctx, st)
    case CompoundStatement(statements) => ProcessBlockSpec(statements, ctx, st)
    case Variable(v) => Done(VariableCode(v, ctx), st)
    case ArrayIndex(_, _) => CompileArrayIndex(n, ctx, st)
    case Expression(_, _) => CompileExpression(n, ctx, st)
    case UnaryExpression(_, _, _) => CompileUnary(n, ctx, st)
    case SwitchStatement(_, _) => CompileSwitch(n, ctx, st)
    case BreakStatement(levels) => CompileBreak(levels, ctx, st)
    case ContinueStatement(levels) => CompileBreak(levels, ctx, st)
    case ForeachStatement(_, _, _, _, _) => CompileForeach(n, ctx, st)
    case FunctionStatement(_, _, _) => CompileFunctionStatement(n, ctx, st)
    case Closure(_, _, _) => CompileClosure(n, ctx, st)
    case FunctionCall(_, _, _) => CompileCall(n, ctx, st)
    case Opaque(_, code) => Done(code, st)
  }

  /** Compiles `ns` in order, each with the state the previous one left. */
  function CompileList(ns: seq<Node>, ctx: Ctx, st: CState): (r: Outcome<seq<string>>)
    ensures Extends(st, r.st)
    ensures Balanced(ctx, st, r)
    ensures CounterKept(ctx, st, r)
    ensures r.Done? ==> |r.value| == |ns|
    decreases ns, 0
  {
    if ns == [] then Done([], st)
    else
      var first := Compile(ns[0], ctx, st);
      if first.Thrown? then Rethrow(first)
      else
        var rest := CompileList(ns[1..], ctx, first.st);
        if rest.Thrown? then rest else Done([first.value] + rest.value, rest.st)
  }

  function CompileGoto(labelName: string, st: CState): (r: Outcome<string>)
    ensures Extends(st, r.st)
    ensures r.st.repo.loopListeners == st.repo.loopListeners
  {
    var repo := AddPending(st.repo, labelName);
    Done(GotoCode(labelName, HasBeenFound(repo, labelName)), st.(repo := repo))
  }

  function CompileLabel(labelName: string, st: CState): (r: Outcome<string>)
    ensures Extends(st, r.st)
    ensures r.st.repo.loopListeners == st.repo.loopListeners
  {
    match MarkFound(st.repo, labelName)
    case Fail(e) => Thrown(Fatal(e), st)
    case Ok(repo) => Done("", st.(repo := repo))
  }

  /** The loop's listener is attached before its statements compile. The
      source leaves it attached afterwards; with `RemovedAfterLoop` it is
      detached once the condition has compiled. */
  function CompileWhile(n: Node, ctx: Ctx, st: CState): (r: Outcome<string>)
    requires n.WhileStatement?
    ensures Extends(st, r.st)
    ensures Balanced(ctx, st, r)
    ensures CounterKept(ctx, st, r)
    decreases n, 1
  {
    var st1 := st.(repo := AddLoopListener(st.repo));
    var body := CompileList(n.statements, ctx, st1);
    if body.Thrown? then Rethrow(body)
    else
      var condition := Compile(n.condition, ctx, body.st);
      if condition.Thrown? then condition
      else
        var repo := condition.st.repo;
        Done("while (" + condition.value + ".coerceToBoolean().getNative()) {" + Join(body.value, "") + "}",
             if ctx.loopListener == KeptAfterLoop then condition.st
             else condition.st.(repo := repo.(loopListeners := repo.loopListeners - 1)))
  }

  function CompileArrayIndex(n: Node, ctx: Ctx, st: CState): (r: Outcome<string>)
    requires n.ArrayIndex?
    ensures Extends(st, r.st)
    ensures Balanced(ctx, st, r)
    ensures CounterKept(ctx, st, r)
    decreases n, 1
  {
    var indices := CompileList(n.indices, ctx.(assignment := false, getValue := false), st);
    if indices.Thrown? then Rethrow(indices)
    else
      var container := Compile(n.arrayNode, ctx.(getValue := !ctx.assignment), indices.st);
      if container.Thrown? then container
      else Done(ArrayIndexCode(container.value, indices.value, ctx.assignment), container.st)
  }

  function CompileExpression(n: Node, ctx: Ctx, st: CState): (r: Outcome<string>)
    requires n.Expression?
    ensures Extends(st, r.st)
    ensures Balanced(ctx, st, r)
    ensures CounterKept(ctx, st, r)
    decreases n, 1
  {
    if |n.right| == 0 then Thrown(HostError, st)
    else
      var isAssignment := n.right[0].operator == "=";
      var left := Compile(n.left, ctx.(assignment := isAssignment, getValue := !isAssignment), st);
      if left.Thrown? then left
      else CompileOperations(n.right, isAssignment, ctx, left.st, left.value)
  }

  /** Appends each operation to `expression` in turn. An operand written by
      reference is passed as a reference only on the right of an assignment. */
  function CompileOperations(ops: seq<Operation>, isAssignment: bool, ctx: Ctx, st: CState, expression: string): (r: Outcome<string>)
    ensures Extends(st, r.st)
    ensures Balanced(ctx, st, r)
    ensures CounterKept(ctx, st, r)
    decreases ops, 0
  {
    if ops == [] then Done(expression, st)
    else
      var op := ops[0];
      var isReference := isAssignment && op.reference;
      var operand := Compile(op.operand, ctx.(getValue := !isReference), st);
      if operand.Thrown? then operand
      else CompileOperations(ops[1..], isAssignment, ctx, operand.st,
                             expression + OperationCode(op.operator, operand.value, isReference))
  }

  function CompileUnary(n: Node, ctx: Ctx, st: CState): (r: Outcome<string>)
    requires n.UnaryExpression?
    ensures Extends(st, r.st)
    ensures Balanced(ctx, st, r)
    ensures CounterKept(ctx, st, r)
    decreases n, 1
  {
    var operand := Compile(n.operand, ctx.(getValue := UnaryOperandWantsValue(n.operator)), st);
    if operand.Thrown? then operand
    else Done(operand.value + "." + UnaryMethod(n.operator, n.prefix) + "()", operand.st)
  }

  /** Depth of a switch compiled in `ctx`: one more than the enclosing switch. */
  function SwitchDepthIn(ctx: Ctx): int {
    match ctx.switchDepth
    case None => 0
    case Some(d) => d + 1
  }

  function CompileSwitch(n: Node, ctx: Ctx, st: CState): (r: Outcome<string>)
    requires n.SwitchStatement?
    ensures Extends(st, r.st)
    ensures Balanced(ctx, st, r)
    ensures CounterKept(ctx, st, r)
    decreases n, 1
  {
    var expression := Compile(n.expression, ctx, st);
    if expression.Thrown? then expression
    else
      var depth := SwitchDepthIn(ctx);
      var cases := CompileCases(n.cases, ctx.(switchDepth := Some(depth)), expression.st);
      if cases.Thrown? then Rethrow(cases)
      else Done(SwitchCode(depth, expression.value, cases.value), cases.st)
  }

  function CompileCases(cases: seq<SwitchCase>, ctx: Ctx, st: CState): (r: Outcome<seq<string>>)
    ensures Extends(st, r.st)
    ensures Balanced(ctx, st, r)
    ensures CounterKept(ctx, st, r)
    decreases cases, 0
  {
    if cases == [] then Done([], st)
    else
      var first := CompileCase(cases[0], ctx, st);
      if first.Thrown? then Rethrow(first)
      else
        var rest := CompileCases(cases[1..], ctx, first.st);
        if rest.Thrown? then rest else Done([first.value] + rest.value, rest.st)
  }

  /** A case compiles its body first, then reads the switch depth, then
      compiles its expression. */
  function CompileCase(c: SwitchCase, ctx: Ctx, st: CState): (r: Outcome<string>)
    ensures Extends(st, r.st)
    ensures Balanced(ctx, st, r)
    ensures CounterKept(ctx, st, r)
    decreases c, 1
  {
    var body := CompileList(c.body, ctx, st);
    if body.Thrown? then Rethrow(body)
    else if ctx.switchDepth.None? then Thrown(HostError, body.st)
    else
      match c
      case DefaultCase(_) => Done(DefaultCaseCode(ctx.switchDepth.value, Join(body.value, "")), body.st)
      case Case(e, _) =>
        var expression := Compile(e, ctx, body.st);
        if expression.Thrown? then expression
        else Done(CaseCode(ctx.switchDepth.value, expression.value, Join(body.value, "")), expression.st)
  }

  function CompileBreak(levels: int, ctx: Ctx, st: CState): (r: Outcome<string>)
    ensures Extends(st, r.st)
    ensures Balanced(ctx, st, r)
    ensures CounterKept(ctx, st, r)
  {
    match ctx.switchDepth
    case None => Thrown(HostError, st)
    case Some(d) => Done(BreakCode(d, levels), st)
  }

  /** The array, key and value compile before the loop takes its counter: 0 for
      a loop with no counter in reach, else one more than the shared counter. */
  function CompileForeach(n: Node, ctx: Ctx, st: CState): (r: Outcome<string>)
    requires n.ForeachStatement?
    ensures Extends(st, r.st)
    ensures Balanced(ctx, st, r)
    ensures CounterKept(ctx, st, r)
    ensures ctx.inForeach && r.Done? ==> r.st.foreachDepth > st.foreachDepth
    decreases n, 1
  {
    var head := CompileLoopHead(n, ctx, st);
    if head.Thrown? then Rethrow(head)
    else
      var depth := LoopDepth(ctx, head.st);
      LoopOutcome(depth, head.value.container, head.value.key, head.value.value, n.byReference,
                  Compile(n.body, ctx.(inForeach := true), head.st.(foreachDepth := depth)))
  }

  /** The compiled array, key (empty when the loop has none) and value
      variable of a loop. */
  datatype LoopHead = LoopHead(container: string, key: string, value: string)

  /** A loop's array, then its key, then its value variable, each compiled in
      the state the previous one left. */
  function CompileLoopHead(n: Node, ctx: Ctx, st: CState): (r: Outcome<LoopHead>)
    requires n.ForeachStatement?
    ensures Extends(st, r.st)
    ensures Balanced(ctx, st, r)
    ensures CounterKept(ctx, st, r)
    decreases n, 0
  {
    var container := Compile(n.arrayNode, ctx, st);
    if container.Thrown? then Rethrow(container)
    else
      var key := match n.key
        case None => Done("", container.st)
        case Some(k) => Compile(k, ctx.(getValue := false), container.st);
      if key.Thrown? then Rethrow(key)
      else
        var value := Compile(n.value, ctx.(getValue := false), key.st);
        if value.Thrown? then Rethrow(value)
        else Done(LoopHead(container.value, key.value, value.value), value.st)
  }

  /** The depth a loop takes once its head is compiled: outside every loop the
      counter restarts at 0, inside one the shared counter goes one up. */
  function LoopDepth(ctx: Ctx, st: CState): (depth: nat)
    ensures ctx.inForeach ==> depth > st.foreachDepth
    ensures !ctx.inForeach ==> depth == 0
  {
    if ctx.inForeach then st.foreachDepth + 1 else 0
  }

  /** A loop at depth `depth` around its compiled body: its code opens by
      caching the array in `array_<depth>`, and the body's state is the loop's. */
  function LoopOutcome(depth: nat, container: string, key: string, value: string, byReference: bool,
                       body: Outcome<string>): (r: Outcome<string>)
    ensures r.st == body.st && r.Done? == body.Done?
    ensures r.Done? ==> IsPrefix("var array_" + NatToString(depth), r.value)
  {
    if body.Thrown? then body
    else
      var code := ForeachCode(depth, container, key, value, byReference, body.value);
      assert code == ("var array_" + NatToString(depth)) + code[|"var array_" + NatToString(depth)|..];
      Done(code, body.st)
  }

  /** A function declaration compiles its body against a new label repository;
      the enclosing one is untouched. */
  function CompileFunctionStatement(n: Node, ctx: Ctx, st: CState): (r: Outcome<string>)
    requires n.FunctionStatement?
    ensures Extends(st, r.st)
    ensures Balanced(ctx, st, r)
    ensures CounterKept(ctx, st, r)
    decreases n, 1
  {
    var f := InterpretFunction(n.params, [], n.body, ctx, st.(repo := EmptyRepository()));
    if f.Thrown? then Thrown(f.error, f.st.(repo := st.repo))
    else Done("namespace.defineFunction(" + Quote(n.funcName) + ", " + f.value + ");", f.st.(repo := st.repo))
  }

  /** A closure is the framed function handed to `createClosure`. */
  function CompileClosure(n: Node, ctx: Ctx, st: CState): (r: Outcome<string>)
    requires n.Closure?
    ensures Extends(st, r.st)
    ensures Balanced(ctx, st, r)
    ensures CounterKept(ctx, st, r)
    decreases n, 1
  {
    var f := InterpretFunction(n.params, n.bindings, n.body, ctx, st);
    if f.Thrown? then f else Done("tools.createClosure(" + f.value + ")", f.st)
  }

  /** `interpretFunction`: the body is compiled first, then framed. */
  function InterpretFunction(params: seq<string>, bindings: seq<Binding>, body: Node, ctx: Ctx, st: CState): (r: Outcome<string>)
    ensures Extends(st, r.st)
    ensures Balanced(ctx, st, r)
    ensures CounterKept(ctx, st, r)
    decreases body, 3
  {
    var b := Compile(body, ctx, st);
    if b.Thrown? then b else Done(FunctionCode(params, bindings, b.value), b.st)
  }

  /** A call on the resume path marks the resume label as found; the innermost
      one is replaced by the resumed value. Otherwise the arguments, then the
      callee, then the anchor. */
  function CompileCall(n: Node, ctx: Ctx, st: CState): (r: Outcome<string>)
    requires n.FunctionCall?
    ensures Extends(st, r.st)
    ensures Balanced(ctx, st, r)
    ensures CounterKept(ctx, st, r)
    decreases n, 1
  {
    if ctx.resume.Some? && n.id in ctx.resume.value.nodes then
      match MarkFound(st.repo, ctx.resume.value.labelName)
      case Fail(e) => Thrown(Fatal(e), st)
      case Ok(repo) =>
        var nodes := ctx.resume.value.nodes;
        if n.id == nodes[|nodes| - 1] then Done("tools.getResumeValue()", st.(repo := repo))
        else CompileCallBody(n, ctx, st.(repo := repo))
    else CompileCallBody(n, ctx, st)
  }

  function CompileCallBody(n: Node, ctx: Ctx, st: CState): (r: Outcome<string>)
    requires n.FunctionCall?
    ensures Extends(st, r.st)
    ensures Balanced(ctx, st, r)
    ensures CounterKept(ctx, st, r)
    decreases n, 0
  {
    var args := CompileList(n.args, ctx, st);
    if args.Thrown? then Rethrow(args)
    else
      var func := Compile(n.func, ctx.(getValue := true), args.st);
      if func.Thrown? then func
      else
        var (marker, st') := GetAnchor(n.id, func.st);
        Done("(" + func.value + ".call" + marker + "([" + Join(args.value, ", ")
               + "], namespaceScope) || tools.valueFactory.createNull())", st')
  }

  // ---------------------------------------------------------------------------
  // processBlock, as a function of the statements.

  /** The record of one compiled statement: the labels of the notifications
      published while it compiled. */
  function StatementRecord(statement: Node, code: string, events: seq<LabelEvent>): StatementData {
    StatementData(code, PendingLabels(events), FoundLabels(events), [], [],
                  IsFunctionDeclaration(statement))
  }

  /** Compiles statements `i..`, appending their records to `acc`. */
  function CollectFrom(statements: seq<Node>, i: nat, ctx: Ctx, st: CState, acc: seq<StatementData>): (r: Outcome<seq<StatementData>>)
    requires i <= |statements|
    ensures Extends(st, r.st)
    ensures Balanced(ctx, st, r)
    ensures CounterKept(ctx, st, r)
    decreases statements, |statements| - i
  {
    if i == |statements| then Done(acc, st)
    else
      var mark := |st.repo.events|;
      var c := Compile(statements[i], ctx, st);
      if c.Thrown? then Rethrow(c)
      else
        var d := StatementRecord(statements[i], c.value, c.st.repo.events[mark..]);
        CollectFrom(statements, i + 1, ctx, c.st, acc + [d])
  }

  /** `processBlock`: compile every statement, then (when resuming) register the
      resume label as pending and assemble. */
  function ProcessBlockSpec(statements: seq<Node>, ctx: Ctx, st: CState): (r: Outcome<string>)
    ensures Extends(st, r.st)
    ensures Balanced(ctx, st, r)
    ensures CounterKept(ctx, st, r)
    decreases statements, |statements| + 1
  {
    var collected := CollectFrom(statements, 0, ctx, st, []);
    if collected.Thrown? then Rethrow(collected)
    else
      var st' := match ctx.resume
        case None => collected.st
        case Some(res) => collected.st.(repo := AddPending(collected.st.repo, res.labelName));
      Done(Assemble(collected.value, ResumeLabel(ctx.resume)), st')
  }
}
