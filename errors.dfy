/** The interpreter's error kinds and the option/result wrappers the model uses
    for the source's thrown errors and missing values. */
module Errors {

  datatype Option<T> = None | Some(value: T)

  /** The fatal error kinds of `PHPFatalError`; each carries the variables its
      message template is filled with. */
  datatype FatalError =
    | UnsupportedOperandTypes
    | CallToUndefinedFunction(name: string)
    | ClassNotFound(name: string)
    | UndefinedMethod(className: string, methodName: string)
    | GotoDisallowed
    | ExpectExactly1Arg(name: string)
    | MaxExecTimeExceeded(seconds: int)

  /** The numeric code the source gives each kind. */
  function Code(e: FatalError): (c: nat)
    ensures 1 <= c <= 7
  {
    match e
    case UnsupportedOperandTypes => 1
    case CallToUndefinedFunction(_) => 2
    case ClassNotFound(_) => 3
    case UndefinedMethod(_, _) => 4
    case GotoDisallowed => 5
    case ExpectExactly1Arg(_) => 6
    case MaxExecTimeExceeded(_) => 7
  }

  /** A non-fatal notice raised through the call stack (`E_STRICT`). */
  datatype Diagnostic = StrictNotice(message: string)

  datatype Result<T> = Ok(value: T) | Fail(error: FatalError)
}
