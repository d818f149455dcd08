/** Values shared by every stage of the calculator: its number type, the
    failure-compatible Option and Result wrappers, and the kinds of error the
    stages raise. */
module Common {

  /** The calculator's double-precision number. Its arithmetic lives entirely in
      the caller's operator and function mappings, so the model never looks
      inside a number. */
  type Num(==, !new)

  datatype Option<+T> = None | Some(value: T) {
    predicate IsFailure() { None? }

    function PropagateFailure<U>(): Option<U>
      requires None?
    {
      None
    }

    function Extract(): T
      requires Some?
    {
      value
    }
  }

  /** A computation that either produces a value or raises one of the errors below. */
  datatype Result<+T> = Success(value: T) | Failure(error: Error) {
    predicate IsFailure() { Failure? }

    function PropagateFailure<U>(): Result<U>
      requires Failure?
    {
      Failure(error)
    }

    function Extract(): T
      requires Success?
    {
      value
    }
  }

  /** What a caller-supplied mapping does: return a number or throw its own exception. */
  datatype Outcome = Returned(value: Num) | Threw(reason: string)

  /** Every exception the core can raise, one constructor per exception class
      (or per .NET runtime exception the core lets escape). */
  datatype Error =
    | LexicalError(position: int, length: int)    // ExceptionAtPosition, raised by the lexer
    | SyntaxError(position: int, length: int)     // ErrorAtPosition, raised by the parser
    | UnmatchingParenthesis
    | UnreachableCode                             // the parser's internal-consistency exception
    | InconsistentNode                            // a node evaluated with a missing operand, child or argument
    | KeyNotFound                                 // a dictionary indexed with a missing key
    | EmptyStack                                  // Peek, Pop or Last on an empty stack or list
    | IndexOutOfRange                             // a list or string indexed past its end
    | DuplicateKey                                // ToDictionary meeting the same key twice
    | ConstantNamedLikeFunction(identifier: string)
    | ConstantNamedLikeOperator(identifier: string)
    | InvalidDefinition(text: string)             // a registry entry rejected by its constructor
    | MappingFailed(reason: string)               // a caller mapping's own exception, unchanged
}
