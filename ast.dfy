/** The closed fragment of the PHP syntax tree the code generator model covers. */
module Ast {
  import opened Errors

  /** A call node's identity is an integer id; it keys the resume path and the
      anchor table. `Opaque` stands for any node kind outside this fragment:
      it carries its node name and the code its own rule would produce. */
  datatype Node =
    | GotoStatement(labelName: string)
    | LabelStatement(labelName: string)
    | WhileStatement(condition: Node, statements: seq<Node>)
    | CompoundStatement(statements: seq<Node>)
    | Variable(variable: string)
    | ArrayIndex(arrayNode: Node, indices: seq<Node>)
    | Expression(left: Node, right: seq<Operation>)
    | UnaryExpression(operator: string, prefix: bool, operand: Node)
    | SwitchStatement(expression: Node, cases: seq<SwitchCase>)
    | BreakStatement(levels: int)
    | ContinueStatement(levels: int)
    | ForeachStatement(arrayNode: Node, key: Option<Node>, value: Node, byReference: bool, body: Node)
    | FunctionStatement(funcName: string, params: seq<string>, body: Node)
    | Closure(params: seq<string>, bindings: seq<Binding>, body: Node)
    | FunctionCall(id: nat, func: Node, args: seq<Node>)
    | Opaque(name: string, code: string)

  /** One `operator operand` step of an expression; `reference` marks an
      operand written as `&$x`. */
  datatype Operation = Operation(operator: string, operand: Node, reference: bool)

  datatype SwitchCase =
    | Case(expression: Node, body: seq<Node>)
    | DefaultCase(body: seq<Node>)

  /** A closure's `use` binding, by value or by reference. */
  datatype Binding = Binding(variable: string, reference: bool)

  /** The node's kind name, as the parser tags it. */
  function NodeName(n: Node): string
  {
    match n
    case GotoStatement(_) => "N_GOTO_STATEMENT"
    case LabelStatement(_) => "N_LABEL_STATEMENT"
    case WhileStatement(_, _) => "N_WHILE_STATEMENT"
    case CompoundStatement(_) => "N_COMPOUND_STATEMENT"
    case Variable(_) => "N_VARIABLE"
    case ArrayIndex(_, _) => "N_ARRAY_INDEX"
    case Expression(_, _) => "N_EXPRESSION"
    case UnaryExpression(_, _, _) => "N_UNARY_EXPRESSION"
    case SwitchStatement(_, _) => "N_SWITCH_STATEMENT"
    case BreakStatement(_) => "N_BREAK_STATEMENT"
    case ContinueStatement(_) => "N_CONTINUE_STATEMENT"
    case ForeachStatement(_, _, _, _, _) => "N_FOREACH_STATEMENT"
    case FunctionStatement(_, _, _) => "N_FUNCTION_STATEMENT"
    case Closure(_, _, _) => "N_CLOSURE"
    case FunctionCall(_, _, _) => "N_FUNCTION_CALL"
    case Opaque(name, _) => name
  }

  /** A node whose kind name is `N_FUNCTION_STATEMENT`. */
  predicate IsFunctionDeclaration(n: Node) {
    match n
    case FunctionStatement(_, _, _) => true
    case Opaque(name, _) => name == "N_FUNCTION_STATEMENT"
    case _ => false
  }

  /** Class and function declarations, the statements hoisted to the front. */
  predicate IsDeclaration(n: Node) {
    IsFunctionDeclaration(n) || (n.Opaque? && n.name == "N_CLASS_STATEMENT")
  }

  /** The two predicates are the kind-name tests the code generator makes. */
  lemma DeclarationsByName(n: Node)
    ensures IsFunctionDeclaration(n) <==> NodeName(n) == "N_FUNCTION_STATEMENT"
    ensures IsDeclaration(n) <==> NodeName(n) == "N_CLASS_STATEMENT" || NodeName(n) == "N_FUNCTION_STATEMENT"
  {
  }
}
