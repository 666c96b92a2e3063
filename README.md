# Uniter PHP interpreter core, modelled in Dafny

Uniter runs PHP in JavaScript. Its interpreter turns a PHP syntax tree into
JavaScript source text, one rule per node kind, and evaluates that text with
`eval`. This project models the core of that translator, together with the
runtime objects it relies on:

- **Block assembly** (`hoistDeclarations`, `processBlock`,
  `interpretFunction`). PHP `goto` is translated into JavaScript labelled
  blocks, labelled `do … while` loops and `goingToLabel_<l>` flags. Each
  statement of a block is compiled while the block listens to the label
  repository's `pending label` and `found label` notifications. An optional
  resume goto is then spliced in. Labels defined after the first statement
  get guards. Each goto that crosses statements is wrapped, as a block for a
  forward jump or as a loop for a backward one.
- **Node rules** that talk to the repository, address variables or draw on
  the shared state: goto, label, while, array index, expression, unary,
  switch/case/break, foreach, function declaration and call. These use the binary and unary
  operator-to-method tables and the runtime's `implyArray`.
- **The program rule** (`N_PROGRAM`). It hoists and assembles the program,
  declares the label flags and strips the `/*#UNITER-n#*/` anchor comments.
  The row and column where each comment stood are recorded against the call
  node the comment named. `Deferment.getStackASTNodes` reads that table back
  from an error stack's `at eval (…:row:column)` frames.
- **Namespaces**: a tree of mutable namespace objects holding functions and
  classes. They support function lookup up the parent chain, case-insensitive
  class lookup with an `__autoload` hook, class definition with constructor
  selection, and creation of descendants on demand.
- **The interpreter state**: its services, the global namespace and the time
  limit.

How the model is built:

- Pure logic is written as functions.
- Loops in the source are methods proved against those functions:
  - hoisting;
  - each stage of `processBlock`;
  - anchor stripping;
  - stack reading;
  - constructor selection;
  - function lookup;
  - descendant creation.
- Objects whose fields the source updates are classes: `Namespace`,
  `PHPState`, `Deferment` and the runtime `Variable`.
- The compiler threads an explicit state through every rule: the label
  repository as a value, the shared foreach counter and the anchor table.
  Each rule returns `Done(code, state)` or `Thrown(error, state)`.

## Model

| member | source | states |
|---|---|---|
| Hoisting.HoistDeclarations | languages/PHP/interpreter.js:219-232 | the loop yields the class and function declarations first and then the other statements, as a permutation of the block |
| Hoisting.HoistedIsPermutation | languages/PHP/interpreter.js:219-232 | hoisting neither loses nor duplicates a statement |
| Hoisting.HoistedPartition | languages/PHP/interpreter.js:219-232 | a position of the result holds a declaration exactly when it lies below the number of declarations, so every declaration precedes every other statement |
| Hoisting.HoistedKeepsOrder | languages/PHP/interpreter.js:223-229 | each group keeps its relative order from the original block |
| Hoisting.HoistedIdempotent | languages/PHP/interpreter.js:219-232 | hoisting an already hoisted block changes nothing |
| Hoisting.DeclarationsOfConcat | languages/PHP/interpreter.js:223-229 | the split into the two groups distributes over concatenation |
| Hoisting.Declarations | languages/PHP/interpreter.js:224-225 | only declarations are collected, never more than the block holds |
| Hoisting.NonDeclarations | languages/PHP/interpreter.js:226-227 | only non-declarations are collected, never more than the block holds |
| Ast.DeclarationsByName | languages/PHP/interpreter.js:224 | a node counts as a declaration exactly when its rule name is `N_CLASS_STATEMENT` or `N_FUNCTION_STATEMENT` |
| Operators.BinaryTableRoundTrip | languages/PHP/interpreter.js:53-69 | every binary operator maps to a method name that leads back to the operator, and for `=` the reference flag picks `setValue` or `setReference` |
| Operators.UnknownBinaryOperator | languages/PHP/interpreter.js:53-69 | an operator missing from the table yields the method name `undefined`, which names no operator |
| Operators.OnlyAssignmentReadsReferenceFlag | languages/PHP/interpreter.js:53-69 | the reference flag changes the method name exactly for `=` |
| Operators.UnaryReferenceOperandsMutate | languages/PHP/interpreter.js:71-84 | among the unary operators in the table, the ones whose operand is compiled as a variable (`++` and `--`) are exactly the incrementing and decrementing methods |
| Runtime.Implied | languages/PHP/interpreter.js:123-130 | an undefined or null variable is turned into an empty array, any other value is kept, and the result is never null |
| Runtime.ImpliedIdempotent | languages/PHP/interpreter.js:123-130 | implying an array a second time changes nothing |
| Runtime.ImplyArray | languages/PHP/interpreter.js:123-130 | the variable afterwards holds the implied value, and that value is returned |
| Labels.EmptyRepository | languages/PHP/interpreter.js:770 | a new repository has found no labels and has no loop listener attached |
| Labels.AddPending | languages/PHP/interpreter.js:589 | a goto publishes a pending notification and changes nothing else |
| Labels.MarkFound | languages/PHP/interpreter.js:660-666 | a label is recorded as found and published, unless a loop listener is attached, which turns it into the goto-into-loop fatal error |
| Labels.AddLoopListener | languages/PHP/interpreter.js:909-911 | a while loop attaches one more listener and changes nothing else |
| Labels.GetLabels | languages/PHP/interpreter.js:792 | the labels listed are exactly those found, each once |
| Labels.PendingLabels | languages/PHP/interpreter.js:283-285 | a statement's gotos are the labels of the pending notifications it published, each once |
| Labels.FoundLabels | languages/PHP/interpreter.js:287-289 | a statement's labels are the labels of the found notifications it published, each once |
| Labels.AddKey | languages/PHP/interpreter.js:283-289 | recording a label in an object used as a set adds exactly that key |
| BlockProcessor.CollectStatements | languages/PHP/interpreter.js:278-306 | compiling the statements in order yields one record per statement, each holding the notifications published while it compiled |
| BlockProcessor.CollectLength | languages/PHP/interpreter.js:278-306 | a completed collection holds one record per statement |
| BlockProcessor.SpliceResume | languages/PHP/interpreter.js:308-330 | the resume goto is inserted at most once |
| Blocks.SpliceResumeGoto | languages/PHP/interpreter.js:317-328 | with resume data, exactly one resume goto goes right before the first statement that is not a function declaration, and the rest are kept; when every statement is a function declaration nothing changes |
| Blocks.SpliceWithoutResume | languages/PHP/interpreter.js:308 | without resume data the records are left alone |
| Blocks.FirstNonFunction | languages/PHP/interpreter.js:317-318 | the index found is that of the first record, from the start point on, that is not a function declaration |
| BlockProcessor.AddGuards | languages/PHP/interpreter.js:332-339 | the guard loop computes the guard stage |
| Blocks.WrappedGuards | languages/PHP/interpreter.js:332-339 | the first record gets one `if (!goingToLabel_l) {` opening per later record that defines `l`, and no other record gets one; a record other than the first gets one closing `}` per label it defines, and the first gets none |
| Blocks.GuardLabelsEffect | languages/PHP/interpreter.js:334-337 | guarding the labels of one record puts, in front of the existing prefixes, the sequence of its guards, the last label's first: an opening at the first record and a closing at the record itself per label |
| Blocks.GuardFromEffect | languages/PHP/interpreter.js:332-339 | the guard pass puts in front of each prefix exactly the sequence of guards the records from a given index contribute, the last record's first |
| BlockProcessor.WrapAll | languages/PHP/interpreter.js:341-363 | the goto-wrapping loop computes the wrapping stage |
| BlockProcessor.WrapStatementGotos | languages/PHP/interpreter.js:342-362 | the loop over one record's gotos computes the wrapping for those gotos |
| BlockProcessor.WrapLabelTargets | languages/PHP/interpreter.js:345-360 | the loop over the other records computes the wrapping of one goto |
| Blocks.WrapStepEffect | languages/PHP/interpreter.js:346-358 | visiting one other record that defines the label prepends `l: {` to the goto's record and `}` to the target for a label ahead; for a label behind it appends `continue_l: do {` to the target's prefix and the loop closing to the goto record's suffix; nothing otherwise |
| Blocks.WrapTargetsEffect | languages/PHP/interpreter.js:345-360 | one goto's visits prepend and append exactly the sequences of pieces the visited records call for, in visiting order |
| Blocks.WrapGotosEffect | languages/PHP/interpreter.js:342-362 | a record's gotos add exactly their sequences of pieces, goto by goto, and a goto the record resolves itself adds nothing |
| Blocks.WrapFromEffect | languages/PHP/interpreter.js:341-363 | the wrapping stage prepends, appends to prefixes and appends to suffixes exactly the sequences of pieces the records' cross-statement gotos call for, in record order |
| Blocks.WrappedLayout | languages/PHP/interpreter.js:332-363 | after both stages a record's prefix is, in order: the blocks its own forward gotos open, the closings of blocks earlier records opened for its labels (latest record first), its guards, then the loops later records' backward gotos open at it (earliest first); its suffix is the loop closings of its own backward gotos, in goto order |
| Blocks.GuardFrontsOwn | languages/PHP/interpreter.js:333-337 | a record other than the first is guarded only by its own labels |
| Blocks.FromFrontsSplit | languages/PHP/interpreter.js:349-352 | in front of a record: the blocks its own gotos open, then the closings of blocks that earlier records opened |
| Blocks.FromSuffixOwn | languages/PHP/interpreter.js:355 | a record's suffix holds only the loop closings of its own gotos |
| Blocks.TargetFrontsMeaning | languages/PHP/interpreter.js:349-352 | one goto puts in front of its own record one block opening per later record defining the label, and one closing in front of each such record |
| Blocks.TargetBacksMeaning | languages/PHP/interpreter.js:354 | one goto appends one loop opening to each earlier record defining the label |
| Blocks.TargetSuffixMeaning | languages/PHP/interpreter.js:355 | one goto appends to its own record's suffix one loop closing per earlier record defining the label |
| Blocks.GuardOpenCount | languages/PHP/interpreter.js:334-335 | the first record gets one guard opening per later record defining the label |
| Blocks.LabelGuardCounts | languages/PHP/interpreter.js:334-336 | one record's labels give one opening at the first record and one closing at the record itself per label |
| Blocks.GotoFrontCounts | languages/PHP/interpreter.js:349-352 | a record's gotos give one block opening per later record defining the label, and one closing at each such record |
| Blocks.GotoBackCounts | languages/PHP/interpreter.js:354 | a record's gotos give one loop opening at each earlier record defining the label |
| Blocks.GotoSuffixCounts | languages/PHP/interpreter.js:355 | a record's gotos give one loop closing in its suffix per earlier record defining the label |
| Blocks.ClosingsCount | languages/PHP/interpreter.js:352 | the block closings in front of a record defining `l` number the earlier records with a goto to `l` they do not resolve themselves |
| Blocks.BacksCount | languages/PHP/interpreter.js:354 | the loop openings at a record defining `l` number the later records with a goto to `l` they do not resolve themselves |
| Blocks.StatementCloseCount | languages/PHP/interpreter.js:352 | one earlier record puts one closing in front of a record per goto it does not resolve itself to a label that record defines |
| Blocks.StatementBackCount | languages/PHP/interpreter.js:354 | one later record opens one loop at a record per goto it does not resolve itself to a label that record defines |
| Blocks.DefinedCount | languages/PHP/interpreter.js:347 | the number of records in a range defining a label is at most the range's length, and zero exactly when none does |
| Blocks.CrossGotoCount | languages/PHP/interpreter.js:343 | the number of records in a range with a goto they do not resolve themselves is at most the range's length, and zero exactly when none has one |
| Blocks.DuplicateForwardBlocks | languages/PHP/interpreter.js:349-352 | as written, two records jumping forward to the same label each open a block `l`, and the label's record closes both, so the second block is nested in the first under the same name |
| Blocks.ForwardGotoBlocks | languages/PHP/interpreter.js:349-352 | a record opens block `l` once per later record defining `l` when it has a goto to `l` it does not resolve itself, and a record defining `l` closes such a block once per earlier record with such a goto |
| Blocks.BackwardGotoLoops | languages/PHP/interpreter.js:353-356 | a record defining `l` opens loop `continue_l` once per later record with a goto to `l` it does not resolve itself; such a goto record closes the loop after its code once per earlier record defining `l`; suffixes hold only loop closings |
| BlockProcessor.EmitAll | languages/PHP/interpreter.js:365-367 | the emitted code is each record's prefix, code and suffix, in order |
| BlockProcessor.ProcessBlock | languages/PHP/interpreter.js:273-370 | the method runs the collection, the resume splice, the guards, the wrapping and the emission in the source's order, and registers the resume label as pending |
| Compiler.ProcessBlockSpec | languages/PHP/interpreter.js:273-370 | assembling a block never shrinks the label log or the anchor table, and with loop listeners scoped to their loop it leaves the listener count as it found it |
| Compiler.Compile | languages/PHP/interpreter.js:376-918 | no rule shrinks the label log or the anchor table, and with scoped loop listeners no completed rule changes the listener count |
| Compiler.CompileList | languages/PHP/interpreter.js:376-918 | a completed list compile yields one code per node |
| Compiler.CollectFrom | languages/PHP/interpreter.js:278-306 | the state grows monotonically through the statements |
| Compiler.CompileGoto | languages/PHP/interpreter.js:586-601 | a goto never attaches or detaches a loop listener |
| Compiler.CompileLabel | languages/PHP/interpreter.js:660-666 | a label never attaches or detaches a loop listener |
| Compiler.CompileWhile | languages/PHP/interpreter.js:906-918 | under the scoped policy a while loop leaves the listener count as it found it |
| Compiler.CompileArrayIndex | languages/PHP/interpreter.js:376-393 | indexing keeps the state monotone |
| Compiler.CompileExpression | languages/PHP/interpreter.js:475-499 | an expression keeps the state monotone |
| Compiler.CompileOperations | languages/PHP/interpreter.js:479-496 | the operations keep the state monotone |
| Compiler.CompileUnary | languages/PHP/interpreter.js:878-883 | a unary expression keeps the state monotone |
| Compiler.CompileSwitch | languages/PHP/interpreter.js:850-868 | a switch keeps the state monotone |
| Compiler.CompileCases | languages/PHP/interpreter.js:864-866 | the cases keep the state monotone |
| Compiler.CompileCase | languages/PHP/interpreter.js:409-417 | a case keeps the state monotone |
| Compiler.CompileBreak | languages/PHP/interpreter.js:406-408 | a break keeps the state monotone |
| Compiler.CompileForeach | languages/PHP/interpreter.js:514-560 | a foreach keeps the state monotone, and inside a loop it leaves the shared counter above where it found it |
| Compiler.CompileLoopHead | languages/PHP/interpreter.js:515-521 | the array, key and value of a loop, compiled in that order, keep the state monotone |
| Compiler.LoopOutcome | languages/PHP/interpreter.js:531-557 | a loop's code opens by caching its array in `array_<depth>`, and the loop leaves the state its body left |
| Compiler.CompileFunctionStatement | languages/PHP/interpreter.js:561-569 | a function declaration keeps the state monotone |
| Compiler.CompileClosure | languages/PHP/interpreter.js:438-442 | a closure keeps the state monotone and, with scoped listeners, the listener count unchanged |
| Compiler.InterpretFunction | languages/PHP/interpreter.js:234-271 | framing a function body keeps the state monotone |
| Compiler.CompileCall | languages/PHP/interpreter.js:570-585 | a call keeps the state monotone |
| Compiler.CompileCallBody | languages/PHP/interpreter.js:579-584 | a call's arguments, callee and anchor keep the state monotone |
| Compiler.GetAnchor | languages/PHP/interpreter.js:756-768 | the node gets an entry in the anchor table, the marker names its id, the rest of the state is untouched and the table only grows |
| Compiler.AnchorOf | languages/PHP/interpreter.js:759-765 | a node's anchor id is the first position at which it stands in the table |
| Compiler.DollarNames | languages/PHP/interpreter.js:252-255 | each parameter becomes its `$`-prefixed name, in order |
| RuleProperties.GotoRule | languages/PHP/interpreter.js:586-601 | a goto publishes its label as pending, sets its flag, and breaks out of the labelled block when the label is still ahead or continues the labelled loop when it was already found |
| RuleProperties.LabelRule | languages/PHP/interpreter.js:660-666 | a label compiles to nothing and is recorded as found, unless a loop listener is attached, in which case it is the goto-into-loop error |
| RuleProperties.WhileRule | languages/PHP/interpreter.js:906-918 | for any loop: the listener is attached, the statements compile in order and then the condition; the code is `while (<condition>.coerceToBoolean().getNative()) {<statements>}`; a failing part is the loop's failure; the listener stays attached as written and only it is detached under the scoped policy |
| RuleProperties.LoopListenerHeld | languages/PHP/interpreter.js:909-915 | while a loop's statements compile, its listener stays attached |
| RuleProperties.ListStopsAt | languages/PHP/interpreter.js:913-915 | the statements stop at the first one that fails, with its error |
| RuleProperties.LabelInsideLoopRejected | languages/PHP/interpreter.js:906-918 | a label at any position among a loop's statements is rejected with the goto-into-loop error once the statements before it have compiled, and with their own error otherwise, under either listener policy |
| RuleProperties.WhileListenerOutlivesLoop | languages/PHP/interpreter.js:909-911 | as written, a compiled while loop leaves more listeners attached than before |
| RuleProperties.WhileListenerScoped | languages/PHP/interpreter.js:906-918 | with the listener scoped to its loop, a compiled while loop leaves the listener count unchanged |
| RuleProperties.LoopThenLabel | languages/PHP/interpreter.js:273-306 | in the block "loop, then label", the label is rejected exactly when a listener is still attached after the loop |
| RuleProperties.LabelAfterLoopRejected | languages/PHP/interpreter.js:909-911 | as written, a label anywhere after a while loop in the same block is rejected, although it is outside the loop |
| RuleProperties.LabelAfterEmptyLoopRejected | languages/PHP/interpreter.js:909-911 | as written, `while ($x) {} a:` at the top level is rejected |
| RuleProperties.LabelAfterScopedLoopAccepted | languages/PHP/interpreter.js:906-918 | with the listener scoped to its loop, the same block compiles when no loop encloses it |
| RuleProperties.ReadIndexTakesValues | languages/PHP/interpreter.js:376-393 | reading `$v[i]` takes the variable's value, then the element's value |
| RuleProperties.ArrayIndexAddressing | languages/PHP/interpreter.js:376-393 | for any container and indices: the indices compile first as plain values, then the container, by value exactly outside an assignment; in an assignment the container goes through `implyArray` and the element itself is the result, otherwise the element's value; a failing part is the rule's failure |
| RuleProperties.ArrayIndexText | languages/PHP/interpreter.js:385-392 | the element code: `implyArray` around the container and no trailing `.getValue()` in an assignment, the element's value otherwise, with one `getElementByKey` per index |
| RuleProperties.ImpliedArrayPrefix | languages/PHP/interpreter.js:385-387 | wrapping a container that opens with `k` `implyArray` calls gives an element that opens with `k + 1` |
| RuleProperties.AssignTwoLevelIndex | languages/PHP/interpreter.js:376-393 | `$v[i][j] = x` compiles to both levels implied and `.setValue(x)` on the element |
| RuleProperties.AssignmentImpliesArraysAtEveryLevel | languages/PHP/interpreter.js:376-393 | whatever the containers and indices, an assignment target indexed `k` levels deep opens with `k` nested `implyArray` calls |
| RuleProperties.VariableRule | languages/PHP/interpreter.js:897-899 | a variable is read by value unless the context asks for the variable itself |
| RuleProperties.ReferenceAssignment | languages/PHP/interpreter.js:475-499 | `$v = &$w` targets the variable itself and passes the operand's reference to `setReference` |
| RuleProperties.ReferenceMarkIgnoredOutsideAssignment | languages/PHP/interpreter.js:483-486 | outside an assignment the reference mark on an operand is ignored and both sides are read by value |
| RuleProperties.OneOperation | languages/PHP/interpreter.js:475-499 | with one operation the left operand is the variable itself in an assignment and its value otherwise, and the right operand is a reference only when assigned by reference |
| RuleProperties.OperationsFold | languages/PHP/interpreter.js:479-496 | for any list of operations: the code is the left operand followed by one method call per operation, in order, each operand compiled in turn; the first operand to fail is the failure |
| RuleProperties.ExpressionFold | languages/PHP/interpreter.js:475-499 | for any expression: with no operations the rule fails on the host; otherwise the first operation decides whether it is an assignment, the left operand is the variable itself in an assignment and its value otherwise, and the operations' calls follow it in order |
| RuleProperties.UnaryRule | languages/PHP/interpreter.js:878-883 | for any unary expression: the operand is the variable itself for `++` and `--` and its value otherwise, and the code calls the operator's prefix or suffix method on it; a failing operand is the rule's failure |
| RuleProperties.UnaryOperandAddressing | languages/PHP/interpreter.js:878-883 | `$v++` works on the variable itself, `-$v` on its value |
| RuleProperties.BreakLevels | languages/PHP/interpreter.js:406-408 | `break n` and `continue n` leave the switch `n - 1` levels out, and outside any switch the rule fails on the host |
| RuleProperties.SwitchLabel | languages/PHP/interpreter.js:850-868 | a switch is the block labelled with its depth: one more than the enclosing switch, 0 at the outermost |
| RuleProperties.SwitchShape | languages/PHP/interpreter.js:850-868 | a compiled switch is the switch frame of its depth around some expression and cases |
| RuleProperties.SwitchRule | languages/PHP/interpreter.js:850-868 | for any switch: the expression compiles first, then the cases one switch level deeper, and the code is the switch frame of that depth |
| RuleProperties.SwitchCodeOpens | languages/PHP/interpreter.js:854-856 | the switch code of a depth opens the block labelled with that depth |
| RuleProperties.CaseShape | languages/PHP/interpreter.js:409-417 | for any case: its statements compile first and outside a switch the rule fails on the host; inside the switch of depth `d` a default case tests the matched flag alone, another case also compares against its expression, compiled after the body; then the flag is set and the body runs |
| RuleProperties.BreakLeavesOwnSwitch | languages/PHP/interpreter.js:406-417 | `break 1` in a case leaves that very switch |
| RuleProperties.BreakOnlySwitch | languages/PHP/interpreter.js:850-868 | a switch whose only case is a default `break 1` compiles to its frame around that case |
| RuleProperties.DefaultBreakCase | languages/PHP/interpreter.js:458-466 | a default case holding only `break 1` breaks its own switch |
| RuleProperties.OutermostForeach | languages/PHP/interpreter.js:514-560 | a loop over a variable with no enclosing loop uses depth 0: its code is the loop code of depth 0 and opens by caching the array in `array_0` |
| RuleProperties.OutermostForeachBody | languages/PHP/interpreter.js:514-560 | an outermost loop over a variable, whatever its body: the body compiles inside a loop with the counter reset to 0, and its failure is the loop's |
| RuleProperties.VariableLoopHead | languages/PHP/interpreter.js:515-521 | the head of a loop over variables compiles the array under the enclosing context, no key, and the value variable by reference, in that order, without touching the state |
| RuleProperties.ForeachCodeOpens | languages/PHP/interpreter.js:531-534 | the loop code of a depth opens with `var array_<depth>` |
| RuleProperties.LoopDepthOpens | languages/PHP/interpreter.js:514-560 | a compiled loop has drawn a depth, opens with `var array_<depth>`, and leaves the counter at least at that depth |
| RuleProperties.LoopDepthBounds | languages/PHP/interpreter.js:523-529 | inside a loop a nested loop's depth is above the counter it started from; outside every loop it is 0 |
| RuleProperties.SiblingLoops | languages/PHP/interpreter.js:523-529 | two loops compiled one after the other inside a loop get strictly increasing depths, since nothing lowers the shared counter |
| RuleProperties.FunctionStatementIsolated | languages/PHP/interpreter.js:561-569 | a function declaration leaves the enclosing label repository exactly as it was, given that each rule gets its own copy of the context |
| RuleProperties.LabelInFunctionInsideLoop | languages/PHP/interpreter.js:561-569 | a function declared inside a loop may still define labels |
| RuleProperties.LabelInClosureSharesRepository | languages/PHP/interpreter.js:438-442 | a closure shares the enclosing repository, so its labels are rejected exactly when a loop listener is attached |
| RuleProperties.ParentScopeOnlyWithBindings | languages/PHP/interpreter.js:266-268 | the parent-scope wrapper is present exactly when there are bindings |
| RuleProperties.FunctionCodeLayout | languages/PHP/interpreter.js:234-271 | the body is framed: the call is pushed, the arguments then the bindings are copied, the body runs, and the call is popped whatever happens |
| RuleProperties.ArgumentCopiesConcat | languages/PHP/interpreter.js:252-255 | each parameter's argument is copied into the variable of the same name, in order |
| RuleProperties.ResumeInnermostCall | languages/PHP/interpreter.js:573-578 | the innermost call on the resume path becomes the resumed value and marks the resume label as found |
| RuleProperties.CallAnchorLeadsBack | languages/PHP/interpreter.js:570-585 | a call off the resume path is tagged with its node's anchor: the id leads back to the node, and a node that already had an id keeps it |
| RuleProperties.CallBodyCode | languages/PHP/interpreter.js:579-584 | for any call off the resume path: the arguments compile first, in order, then the callee by value; the code is `<callee>.call<anchor>([<arguments>], namespaceScope)`, falling back to `tools.valueFactory.createNull()`; a failing part is the rule's failure |
| RuleProperties.CallBodyAnchor | languages/PHP/interpreter.js:579-584 | the same for the body of any call |
| RuleProperties.AnchorKept | languages/PHP/interpreter.js:756-768 | an anchor id never changes once the table has grown past it |
| RuleProperties.GetAnchorIdempotent | languages/PHP/interpreter.js:756-768 | asking again for a node's anchor changes nothing |
| RuleProperties.TwoRecords | languages/PHP/interpreter.js:278-306 | a two-statement block is assembled from the notifications each statement published while it compiled |
| RuleProperties.QuietPair | languages/PHP/interpreter.js:273-370 | a two-statement block whose statements publish no label notification is their codes, in order |
| RuleProperties.ForwardAssembly | languages/PHP/interpreter.js:332-367 | "goto l; l:" as records assembles into a block labelled `l` that the goto leaves, around a guard |
| RuleProperties.BackwardAssembly | languages/PHP/interpreter.js:341-367 | "l: goto l" as records assembles into a loop `continue_l` around the goto |
| RuleProperties.ForwardGotoBlock | languages/PHP/interpreter.js:273-370 | compiling `goto l; l:` gives a block labelled `l` that ends just before the label, with the guard skipping nothing when entered from the top |
| RuleProperties.BackwardGotoLoop | languages/PHP/interpreter.js:273-370 | compiling `l: goto l;` gives a loop `continue_l` that the goto continues and that ends after it |
| Program.CompileProgram | languages/PHP/interpreter.js:752-818 | the rule as the source runs it, under either listener policy: hoist, assemble, declare the label flags and strip the anchors, with a fatal error rejecting the program and a host error leaving the body empty |
| Program.FatalErrorRejects | languages/PHP/interpreter.js:782-790 | under either listener policy, a PHP fatal error raised while compiling rejects the program with that error |
| Program.FlagDeclarators | languages/PHP/interpreter.js:794-796 | there is one declarator per label, in order |
| Program.DeclarationsListEachLabel | languages/PHP/interpreter.js:794-796 | the declaration is one `var` statement that initialises a `goingToLabel_` flag to false for each label, in discovery order |
| Program.StripAnchors | languages/PHP/interpreter.js:798-815 | the replacement loop computes the stripping pass over the whole body |
| Program.StripMarkerFree | languages/PHP/interpreter.js:798-815 | text without anchor comments passes through unchanged and records nothing |
| Program.StripOneAnchor | languages/PHP/interpreter.js:798-815 | a single anchor comment between two stretches of code is removed, and the row and column where it stood in the result lead back to the node it was written for |
| Program.StripOneComment | languages/PHP/interpreter.js:798-815 | the same for any comment around a run of digits |
| Program.StripComments | languages/PHP/interpreter.js:798-815 | for a one-line body with any number of anchor comments, each before its own stretch of code: the pass yields the code without the comments and the table that records each comment in turn |
| Program.StripCommentsFinds | languages/PHP/interpreter.js:798-815 | in that body, a comment followed by code, or the last one, is recorded at row 1 and the column just after the code before it in the stripped text, against the node its digits name |
| Program.StripPieces | languages/PHP/interpreter.js:798-815 | from a comment on, the pass keeps the code between comments and, through the subtracted offsets, records each comment at its position in the code without comments |
| Program.StripSpan | languages/PHP/interpreter.js:798-815 | a stretch with no comment is copied as it is |
| Program.StripText | languages/PHP/interpreter.js:798-815 | a stretch spelling a given text with no comment copies that text |
| Program.LaidOf | languages/PHP/interpreter.js:798 | comments written out one after the other are the ones the pattern finds, when no other comment is recognised |
| Program.RecordedKeys | languages/PHP/interpreter.js:805-809 | the table has one entry per comment, at the position where it stood, and no other new entry |
| Program.RecordedEntry | languages/PHP/interpreter.js:805-809 | the entry at a comment's position names the node its digits give, unless a later comment stood at the same position and took it over |
| Program.ProgramStripsAnchors | languages/PHP/interpreter.js:752-818 | a completed one-line body with any number of anchor comments: under either listener policy, the program evaluates the flag declarations and the body without comments, with each comment's node keyed at where it stood |
| Program.HostErrorKeepsDeclarations | languages/PHP/interpreter.js:782-796 | a host error while compiling is swallowed: the program evaluates only the flag declarations, with an empty table |
| Program.MarkerAt | languages/PHP/interpreter.js:798 | a recognised comment holds a non-empty run of digits and lies within the text |
| Program.MarkerAtComment | languages/PHP/interpreter.js:798 | a comment around a run of digits is recognised with those digits wherever it stands |
| Program.MarkerAtAnchor | languages/PHP/interpreter.js:767 | the comment written for anchor id `g` is recognised with `g`'s digits |
| Program.NodeOfAnchor | languages/PHP/interpreter.js:805 | the digits of an anchor id lead back to the node given that id |
| Program.KeyTextInjective | languages/PHP/interpreter.js:809 | no two row and column pairs share a key text |
| Program.RowColumnKeyIsPosition | languages/PHP/interpreter.js:806-807 | where the text at the offset is not a newline, the key is the one-based row and column just after the preceding text |
| Program.CommentRecognised | languages/PHP/interpreter.js:798-809 | the comment after a stretch of code is recognised at the row and column that stretch ends at |
| Program.DigitRun | languages/PHP/interpreter.js:798 | the digit group is the whole run of digits at that point |
| Deferments.Deferment.GetStackASTNodes | languages/PHP/interpreter/Deferment.js:29-53 | the loop returns the nodes of the stack's eval frames in reverse line order, the last eval frame first; since a stack lists its innermost frame first, the innermost frame comes last |
| Deferments.FrameNodesCount | languages/PHP/interpreter/Deferment.js:34-51 | there is one entry per eval frame, even when the lookup finds nothing |
| Deferments.FrameNodesAppend | languages/PHP/interpreter/Deferment.js:34-51 | lines contribute independently and in order |
| Deferments.FrameNodesOfLine | languages/PHP/interpreter/Deferment.js:40-50 | one line gives one entry when it is an eval frame and none otherwise |
| Deferments.EmptyStackNoNodes | languages/PHP/interpreter/Deferment.js:29-53 | an empty stack yields no nodes |
| Deferments.EvalLineOf | languages/PHP/interpreter/Deferment.js:40 | an indented `at eval (` line is an eval frame |
| Deferments.FrameLocation | languages/PHP/interpreter/Deferment.js:41 | when the location pattern matches, both groups are runs of digits that each follow a colon |
| Deferments.FrameKeyOf | languages/PHP/interpreter/Deferment.js:41-48 | a frame ending in `:row:column)` is keyed by the row less two and the column |
| Deferments.UnlocatedFrameFindsNothing | languages/PHP/interpreter/Deferment.js:43-48 | a frame without a location is keyed `undefined,undefined`, which no row and column spell, so it finds no node |
| Deferments.TextKeyed | languages/PHP/interpreter.js:809 | the program rule's table as the object the stack reader sees: each row and column under its `row,column` text, and no other key |
| Deferments.FrameFindsNode | languages/PHP/interpreter/Deferment.js:29-53 | for any table, a stack holding the eval frame two rows below a position reads back the node stored under that position |
| Deferments.AnchorFrameFindsNode | languages/PHP/interpreter.js:798-815 | round trip: after the program rule strips one anchor comment, the eval frame pointing at the comment's position reads back the call node the comment named |
| Deferments.AnchorsFrameFindsNode | languages/PHP/interpreter.js:798-815 | round trip for any number of anchor comments: the eval frame pointing at where a comment stood in the stripped code reads back the call node it named |
| Deferments.Deferment.constructor | languages/PHP/interpreter/Deferment.js:20-24 | a deferment holds the error's stack text |
| Namespaces.Namespace.constructor | languages/PHP/interpreter/Namespace.js:25-33 | a new namespace has the given parent and name, and no children, classes or functions |
| Namespaces.Namespace.DefineClass | languages/PHP/interpreter/Namespace.js:36-78 | the class is stored under its lowercased name, with the chosen constructor, the qualified name and the methods as prototype, and the notices of the constructor scan are raised |
| Namespaces.ConstructorChoice | languages/PHP/interpreter/Namespace.js:56-71 | `__construct` is the constructor wherever it stands, otherwise the method named like the class; a notice is raised exactly when a non-empty class-named method came first and was displaced |
| Namespaces.ConstructorScan | languages/PHP/interpreter/Namespace.js:56-71 | every notice raised is the constructor-redefinition notice for this class |
| Namespaces.MethodTable | languages/PHP/interpreter/Namespace.js:70 | every method of the definition is on the prototype, and nothing else is |
| Namespaces.MethodTableHolds | languages/PHP/interpreter/Namespace.js:70 | with distinct names, each method is stored under its own name |
| Namespaces.InstanceProperties | languages/PHP/interpreter/Namespace.js:40-50 | an instance has its superclass's properties and its own, its own defaults taking precedence |
| Namespaces.FindMethodNearest | languages/PHP/interpreter/Namespace.js:52-54 | a method is found on the nearest class up the prototype chain that defines it |
| Namespaces.FindMethodMissing | languages/PHP/interpreter/Namespace.js:52-54 | a method no class in the chain defines is not found |
| Namespaces.Namespace.DefineFunction | languages/PHP/interpreter/Namespace.js:80-90 | the function is stored and found under its name, unless this is the global namespace and an `__autoload` function, in any letter case, does not take exactly one parameter, which is the fatal error naming the lowercased function |
| Namespaces.Namespace.GetClass | languages/PHP/interpreter/Namespace.js:92-110 | the lookup of `ClassLookup`, with the autoloader taken from the global namespace |
| Namespaces.ClassLookupOutcome | languages/PHP/interpreter/Namespace.js:92-110 | a defined class is returned without calling the autoloader; on a miss the autoloader is called once with the qualified name, and a class still missing is the class-not-found error |
| Namespaces.ClassLookupRepeat | languages/PHP/interpreter/Namespace.js:94-97 | looking a class up again, in any case, hits the same entry without calling the autoloader |
| Namespaces.Namespace.GetDescendant | languages/PHP/interpreter/Namespace.js:112-124 | following the path's segments from here ends at the returned namespace; only missing segments are created, fresh and each under its parent; nothing changes when the whole path exists; for a path without empty segments the result's prefix is this one's followed by the path |
| Namespaces.DescendantPrefix | languages/PHP/interpreter/Namespace.js:112-124 | a namespace reached along a path without empty segments has this namespace's prefix followed by the path as its prefix, and the same global namespace |
| Namespaces.WalkPrefix | languages/PHP/interpreter/Namespace.js:154-162 | each named segment walked down adds itself and a backslash to the prefix |
| Namespaces.Namespace.GetFunction | languages/PHP/interpreter/Namespace.js:126-142 | a function value is returned as it is; a name is found in this namespace or the nearest parent defining it, and otherwise is the undefined-function error |
| Namespaces.Namespace.FindFunctionNearest | languages/PHP/interpreter/Namespace.js:134-141 | the function found is the one of the nearest namespace up the chain that defines it |
| Namespaces.Namespace.FindFunctionMissing | languages/PHP/interpreter/Namespace.js:134-141 | a name that no namespace up the chain defines is not found |
| Namespaces.Namespace.Global | languages/PHP/interpreter/Namespace.js:144-148 | the global namespace found is named `""` |
| Namespaces.Namespace.GlobalNearest | languages/PHP/interpreter/Namespace.js:144-148 | the global namespace is the nearest namespace up the chain named `""` |
| Namespaces.Namespace.GlobalMissing | languages/PHP/interpreter/Namespace.js:144-148 | a chain with no namespace named `""` has no global namespace |
| Namespaces.Namespace.Prefix | languages/PHP/interpreter/Namespace.js:154-162 | a named namespace's prefix ends with a backslash after its name |
| Namespaces.Namespace.Ancestor | languages/PHP/interpreter/Namespace.js:150-152 | every namespace up the parent chain is well founded |
| States.PHPState.constructor | languages/PHP/interpreter/State.js:30-44 | a new state has fresh services, an empty global namespace named `""` with no parent, a one-second limit and a timeout 1000 ms after the timer's reading |
| States.PHPState.SetTimeLimit | languages/PHP/interpreter/State.js:79-84 | the limit becomes the given seconds and the timeout that many seconds after the timer's reading; the getters for the services and the global namespace return what they did before |
| States.GlobalNamespaceIsRoot | languages/PHP/interpreter/State.js:36 | the state's global namespace is its own global namespace, has no parent and has no prefix |
| States.GlobalDescendant | languages/PHP/interpreter/State.js:51-53 | a namespace reached from the state's global namespace along a path without empty segments has the path as its prefix and the state's global namespace as its global |
| Errors.Code | languages/PHP/interpreter/Error/Fatal.js:37-44 | each fatal error kind has its code, from 1 to 7 |

## Left out

- `evaluateModule` and everything that runs the generated code are not modelled: the `eval`, the tools object, the promise and the output streams. Where the source passes through them, the model stops at the generated text and the row/column table.
- The value layer is left out: `ValueFactory`, `Scope`, `Call`, `CallStack`, `ReferenceFactory`, `Timer` and the runtime value methods. In `PHPState` these services are identity-only `Service` objects, and the clock is a parameter `now`. `Runtime.Value` covers null, booleans, integers, strings and arrays; objects and floats are not modelled.
- `LabelRepository.js` is not part of this model. The repository is modelled as a value from how the rules use it: `addPending`, `found`, `hasBeenFound`, `getLabels`, and the `on`/`off` subscriptions. A subscription is the slice of the notification log published while one statement compiled.
- Rules that neither touch the label repository nor address variables are each kept as one opaque node with fixed code: literals, echo, for, class and method declarations, new, property access, ternary, use and the rest.
- Four further rules are kept as opaque nodes too, although they do touch the repository or address variables, so the model does not capture these behaviours of theirs:
  - the `if` rule (languages/PHP/interpreter.js:602-639) subscribes and unsubscribes a `pending label` listener and prepends `goingToLabel_l || (` to its condition, so a goto into an `if` body is not modelled;
  - the method call rule (languages/PHP/interpreter.js:676-697) resumes at the pending label and records anchors, so the resume path through method calls is not modelled;
  - the `isset` rule (languages/PHP/interpreter.js:646-656) and the `list` rule (languages/PHP/interpreter.js:667-675) address their variables as references rather than values; the model does not state this.
- `Strings.Quote`: escapes quotes and backslashes only. `JSON.stringify` also escapes control characters such as newlines; names holding them are outside the model.
- The asynchronous side of `Deferment` is not modelled: its promise, and its `error` beyond the stack text.
- Strings are sequences of characters.
  - `Lower` folds ASCII letters only. The `/__autoload/i` test is ASCII-exact, but the source's `toLowerCase` folds all of Unicode.
  - Number parsing of the frame location (`* 1`) is exact on digit runs; the floating-point precision of very long runs is not modelled.
- The anchor comment pattern is applied to the whole body text, as in the source, so a comment-like sequence inside a generated string literal is stripped too. The model keeps this, and it has no lemma about literals.
- The replacement callback measures rows and columns in the body before any comment is removed, at the offset with earlier comments subtracted. The model keeps this. `Program.StripCommentsFinds` and `Deferments.AnchorsFrameFindsNode` show that the recorded positions agree with positions in the stripped code for a body on one line, with any number of comments; bodies spanning several lines are not covered by a lemma.
- `Namespaces.Namespace.GetClass`: what the autoloader does is outside the model. Its effect is a parameter `loaded`, the classes it defines in this namespace. The method requires a global namespace up the chain; the source's TypeError on a chain without one is not modelled.
- `Namespaces.Namespace.DefineClass`: the `E_STRICT` notices sent to the call stack are returned instead. `Class.call`-style construction is modelled by `InstanceProperties` and `FindMethod` on class values.
- `Namespaces.ConstructorChoice`: the method names of a definition are distinct, because the source takes them from the keys of an object.
- `Namespaces.Namespace.GetDescendant`: the children are described through a ghost `Tree` value that mirrors the heap. Empty path segments, as in a leading or doubled backslash, are followed like any other segment; the prefix property is stated only for paths without them.
- `Program.CompileProgram`: a non-PHP error thrown while compiling is swallowed, as in the source, and leaves the body empty. The listener policy is a parameter: the as-written policy of the while rule or the scoped one described under Findings.
- CompileArrayIndex: its own contract states only how the state moves (monotone, listeners balanced, counter kept). The code it emits is stated for every container and every list of indices by `RuleProperties.ArrayIndexAddressing` and `RuleProperties.ArrayIndexText`.
- CompileExpression: its own contract states only how the state moves. The code it emits, and the host error for an expression without operations, are stated for every expression by `RuleProperties.ExpressionFold`.
- CompileOperations: its own contract states only how the state moves. The code, one method call per operation in order, is stated for every list of operations by `RuleProperties.OperationsFold`.
- CompileWhile: its own contract states only how the state moves. The code, the order of statements and condition, and the listener are stated for every loop by `RuleProperties.WhileRule`, and the rejection of a label among its statements by `RuleProperties.LabelInsideLoopRejected`.
- CompileUnary: its own contract states only how the state moves. The code and the operand's addressing are stated for every unary expression by `RuleProperties.UnaryRule`.
- CompileCallBody: its own contract states only how the state moves. The code and the order of arguments and callee are stated for every call by `RuleProperties.CallBodyCode`, and the anchor by `RuleProperties.CallBodyAnchor`.
- CompileCase: its own contract states only how the state moves. The shape of every case (matched-flag test, flag set, body) is stated by `RuleProperties.CaseShape`, and its place in the switch by `RuleProperties.SwitchRule`.
- CompileForeach: its own contract states that the state moves monotonically and that inside a loop the counter rises. The depth each loop draws is stated by `RuleProperties.LoopDepthOpens`, `RuleProperties.LoopDepthBounds` and `RuleProperties.SiblingLoops`. The restart at depth 0 outside every loop rests on the context assumption stated below.
- CompileLoopHead: its own contract states only how the state moves; the order of the three parts is stated for variables by `RuleProperties.VariableLoopHead`.
- ProcessBlockSpec: its own contract states only how the state moves; `BlockProcessor.ProcessBlock` is proved equal to it. The text it emits is `Blocks.Assemble` of the statement records. The layout of each record's prefix and suffix is stated by `Blocks.WrappedLayout`, and their counts by `Blocks.WrappedGuards`, `Blocks.ForwardGotoBlocks` and `Blocks.BackwardGotoLoops`.
- CompileFunctionStatement: the dispatcher `interpret` is not part of this model. The model assumes that each rule works on its own copy of the context, so the write `context.labelRepository = new LabelRepository()` (languages/PHP/interpreter.js:564) reaches only the function's body. Under that assumption the enclosing repository is what the rule leaves behind. If the dispatcher shared one context, the enclosing block would keep the new repository.
- FunctionStatementIsolated: the restored repository it states holds under the same per-rule context assumption as `CompileFunctionStatement`.
- CompileForeach, on the context: the write of `context.foreach` (languages/PHP/interpreter.js:524) is assumed, in the same way, to reach only the loop's own nodes, so that a loop outside every other loop starts again at depth 0 (`RuleProperties.LoopDepthBounds`, `RuleProperties.OutermostForeach`).
- DuplicateForwardBlocks: two forward gotos to the same label from different statements open two nested blocks with the same label, and JavaScript rejects a label nested inside a block of the same name. The model keeps the as-written behaviour, states the doubled blocks, and has no corrected variant.
- `Compiler.Compile`, and the other rules whose contracts speak of `Balanced`: the listener-count property holds under the scoped policy only; the as-written policy is modelled alongside, see Findings.

## Findings

| source | as written | input that shows it | evidently intended | confidence | as-written member | corrected member |
|---|---|---|---|---|---|---|
| languages/PHP/interpreter.js:909-911 | the while rule subscribes a `found label` listener that throws the goto-into-loop error and never unsubscribes it, so it outlives the loop | `while ($x) {} a:` at the top level: the label stands after the loop, yet compiling the program raises "'goto' into loop or switch statement is disallowed" | only labels inside the loop's statements are rejected; the listener is removed once the loop's statements have compiled | medium, not executed | RuleProperties.LabelAfterEmptyLoopRejected | RuleProperties.LabelAfterScopedLoopAccepted |
