/** A second definition of the number-constant constructors, kept beside the
    first in the repository, in which the two validity checks are swapped: the
    one-character constructor checks its character against the identifier
    pattern and the named constructor checks the first character of its name
    against the number symbols. It builds the same constant record. */
module DependencyWrappers {
  import opened Common
  import opened Lexer
  import opened Wrappers

  /** `new NumberConstant(symbol, value)` in this variant. */
  function SymbolConstant(symbol: char, value: Num): (r: Result<NumberConstant>)
    ensures r.Success? <==> IsNameStart(symbol)
    ensures r.Success? ==> r.value == NumberConstant([symbol], value)
    ensures r.Failure? ==> r.error.InvalidDefinition?
  {
    NameMatch([symbol]);
    var identifier := [symbol];
    if !IsMatch(NameRegex, identifier) then Failure(InvalidDefinition(identifier))
    else Success(NumberConstant(identifier, value))
  }

  /** `new NumberConstant(name, value)` in this variant: indexing the first
      character of an empty name fails before any check. */
  function NamedConstant(name: string, value: Num): (r: Result<NumberConstant>)
    ensures name == [] ==> r == Failure(IndexOutOfRange)
    ensures name != [] ==> (r.Success? <==> name[0] in NumberSymbols)
    ensures r.Success? ==> r.value == NumberConstant(name, value)
  {
    if |name| == 0 then Failure(IndexOutOfRange)
    else
      NumberSymbolsListed(name[0]);
      if !IsNumberSymbol(name[0]) then Failure(InvalidDefinition(name))
      else Success(NumberConstant(name, value))
  }

  /** The one-character constructor of this variant rejects every Greek
      number symbol, which the other variant exists to accept. */
  lemma NumberSymbolsRejected(symbol: char, value: Num)
    requires symbol in NumberSymbols
    ensures SymbolConstant(symbol, value).Failure?
    ensures NewSymbolConstant(symbol, value).Success?
  {
    NumberSymbolsListed(symbol);
  }

  /** The named constructor of this variant looks at the first character
      only, so a number symbol followed by anything at all is accepted, while
      no identifier the other variant accepts is. */
  lemma NamedConstantChecksFirstCharacterOnly(name: string, value: Num, w: Num)
    requires name != [] && name[0] in NumberSymbols
    ensures NamedConstant(name, value).Success?
    ensures NewNamedConstant(name, w).Failure?
  {
    NumberSymbolsListed(name[0]);
    NameMatch(name);
    assert name[..|name| - 1] == [] || name[..|name| - 1][0] == name[0];
  }
}
