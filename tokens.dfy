/** The tokens exchanged by the lexer, the preprocessor and the tree builder. */
module Tokens {
  import opened Common

  /** A token with the offset where it starts in the expression text. Only a
      Number stores its length; every other token's length follows from its
      kind (one character, or the characters of its name). */
  datatype Token =
    | OpeningParenthesis(pos: int)
    | ClosingParenthesis(pos: int)
    | Comma(pos: int)
    | Number(value: Num, pos: int, len: int)
    | Name(name: string, pos: int)
    | NumberSymbol(symbol: char, pos: int)
    | OperatorSymbol(symbol: char, pos: int)
    | FunctionName(name: string, pos: int)
    | NumberName(name: string, pos: int)
  {
    /** The length reported in errors about this token. */
    function Length(): int {
      match this
      case Number(_, _, len) => len
      case Name(name, _) => |name|
      case FunctionName(name, _) => |name|
      case NumberName(name, _) => |name|
      case _ => 1
    }
  }
}
