/** The runtime helper the compiled code calls when it writes through an
    array index: a variable that holds nothing usable as an array is given
    an empty one. */
module Runtime {
  import opened Errors

  /** The PHP values this model distinguishes; objects and floats are
      outside it. */
  datatype Value =
    | NullValue
    | BoolValue(b: bool)
    | IntValue(i: int)
    | StringValue(s: string)
    | ArrayValue(elements: seq<(Value, Value)>)

  /** A variable: `None` while it is undefined. */
  class Variable {
    var value: Option<Value>

    constructor(value: Option<Value>)
      ensures this.value == value
    {
      this.value := value;
    }

    predicate IsDefined()
      reads this
    {
      value.Some?
    }
  }

  /** The value a variable holds after `implyArray`: an undefined or null
      variable holds an empty array, any other keeps its value. */
  function Implied(value: Option<Value>): (v: Value)
    ensures v != NullValue
    ensures value.Some? && value.value != NullValue ==> v == value.value
    ensures value.None? || value.value == NullValue ==> v == ArrayValue([])
  {
    match value
    case None => ArrayValue([])
    case Some(NullValue) => ArrayValue([])
    case Some(x) => x
  }

  /** Implying an array a second time changes nothing. */
  lemma ImpliedIdempotent(value: Option<Value>)
    ensures Implied(Some(Implied(value))) == Implied(value)
  {
  }

  /** `implyArray`: stores an empty array in an undefined or null variable
      and returns the variable's value. */
  method ImplyArray(variable: Variable) returns (v: Value)
    modifies variable
    ensures variable.value == Some(Implied(old(variable.value)))
    ensures v == Implied(old(variable.value))
  {
    if !variable.IsDefined() || variable.value.value == NullValue {
      variable.value := Some(ArrayValue([]));
    }
    return variable.value.value;
  }
}
