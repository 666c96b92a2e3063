/** The operator tables the code generator uses: every PHP operator compiles to a
    method call on the compiled left operand. */
module Operators {
  import opened Errors

  /** The binary operators the table knows. */
  const BinaryOperators: seq<string> :=
    ["+", "-", "*", "/", ".", "<<", ">>", "==", "!=", "===", "!==", "<", "="]

  /** Method name for a binary operator. Only `=` depends on whether the right
      operand is reference-tagged. An operator missing from the table yields
      JavaScript's `undefined` coerced to text, as the generated code would. */
  function BinaryMethod(operator: string, isReference: bool): string
  {
    match operator
    case "+" => "add"
    case "-" => "subtract"
    case "*" => "multiply"
    case "/" => "divide"
    case "." => "concat"
    case "<<" => "shiftLeftBy"
    case ">>" => "shiftRightBy"
    case "==" => "isEqualTo"
    case "!=" => "isNotEqualTo"
    case "===" => "isIdenticalTo"
    case "!==" => "isNotIdenticalTo"
    case "<" => "isLessThan"
    case "=" => if isReference then "setReference" else "setValue"
    case _ => "undefined"
  }

  /** The reverse reading of the binary table: which operator a method name
      stands for. */
  function BinaryOperatorOf(name: string): Option<string>
  {
    match name
    case "add" => Some("+")
    case "subtract" => Some("-")
    case "multiply" => Some("*")
    case "divide" => Some("/")
    case "concat" => Some(".")
    case "shiftLeftBy" => Some("<<")
    case "shiftRightBy" => Some(">>")
    case "isEqualTo" => Some("==")
    case "isNotEqualTo" => Some("!=")
    case "isIdenticalTo" => Some("===")
    case "isNotIdenticalTo" => Some("!==")
    case "isLessThan" => Some("<")
    case "setValue" => Some("=")
    case "setReference" => Some("=")
    case _ => None
  }

  /** Every known operator is recovered from its method name, whatever the
      reference flag: no two operators share a method. */
  lemma BinaryTableRoundTrip(operator: string, isReference: bool)
    requires operator in BinaryOperators
    ensures BinaryOperatorOf(BinaryMethod(operator, isReference)) == Some(operator)
  {
  }

  /** An operator outside the table maps to `undefined`, which names no operator. */
  lemma UnknownBinaryOperator(operator: string, isReference: bool)
    requires operator !in BinaryOperators
    ensures BinaryMethod(operator, isReference) == "undefined"
    ensures BinaryOperatorOf(BinaryMethod(operator, isReference)) == None
  {
  }

  /** Assignment is the only operator whose method depends on the reference
      flag, and for it the two flags give different methods. */
  lemma OnlyAssignmentReadsReferenceFlag(operator: string)
    ensures BinaryMethod(operator, true) == BinaryMethod(operator, false) <==> operator != "="
  {
  }

  /** Method name for a prefix (`prefix == true`) or suffix unary operator. */
  function UnaryMethod(operator: string, prefix: bool): string
  {
    if prefix then
      match operator
      case "+" => "toPositive"
      case "-" => "toNegative"
      case "++" => "preIncrement"
      case "--" => "preDecrement"
      case "~" => "onesComplement"
      case _ => "undefined"
    else
      match operator
      case "++" => "postIncrement"
      case "--" => "postDecrement"
      case _ => "undefined"
  }

  /** The operand of a unary operator is compiled to its value except for the
      increment and decrement operators, which need the variable itself. */
  predicate UnaryOperandWantsValue(operator: string) {
    operator != "++" && operator != "--"
  }

  const MutatingUnaryMethods: set<string> :=
    {"preIncrement", "preDecrement", "postIncrement", "postDecrement"}

  /** The operators compiled against the variable rather than its value are
      exactly those whose method updates the variable. */
  lemma UnaryReferenceOperandsMutate(operator: string, prefix: bool)
    requires UnaryMethod(operator, prefix) != "undefined"
    ensures UnaryMethod(operator, prefix) in MutatingUnaryMethods <==> !UnaryOperandWantsValue(operator)
  {
  }
}
