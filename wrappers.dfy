/** The registry entries a parser is built from: operators, functions and
    number constants. Each constructor validates its symbol or name against
    the lexer's character classes and regular expressions, then stores its
    arguments unchanged; a rejected definition raises an exception. */
module Wrappers {
  import opened Common
  import opened Lexer

  /** The twelve operator characters, in the order the lexer lists them. */
  const OperatorSymbols: string := "+-*/^%:&#@><"

  /** The twenty-four number-symbol characters, in the order the lexer lists them. */
  const NumberSymbols: string := "αχδβεφγηικλμνοπθρστυωξψζ"

  /** A binary operator: its symbol, what it computes, and how tightly it binds. */
  datatype Operator = Operator(symbol: char, mapping: (Num, Num) -> Outcome, precedence: int)

  /** A named function of any number of arguments. */
  datatype Function = Function(name: string, mapping: seq<Num> -> Outcome)

  /** A named or one-symbol constant. */
  datatype NumberConstant = NumberConstant(identifier: string, value: Num)

  // ---------------------------------------------------------------------------
  // The character lists and the identifier pattern, stated independently

  lemma OperatorSymbolsListed(c: char)
    ensures IsOperatorSymbol(c) <==> c in OperatorSymbols
  {
  }

  lemma NumberSymbolsListed(c: char)
    ensures IsNumberSymbol(c) <==> c in NumberSymbols
  {
    if IsNumberSymbol(c) {
      assert c == 'α' || c == 'β' || c == 'γ' || c == 'δ' || c == 'ε' || c == 'ζ'
        || c == 'η' || c == 'θ' || c == 'ι' || c == 'κ' || c == 'λ' || c == 'μ'
        || c == 'ν' || c == 'ξ' || c == 'ο' || c == 'π' || c == 'ρ' || c == 'σ'
        || c == 'τ' || c == 'υ' || c == 'φ' || c == 'χ' || c == 'ψ' || c == 'ω';
    }
  }

  /** `[a-zA-Z_][a-zA-Z0-9_]*`: a letter or underscore, then letters, digits and underscores. */
  predicate IdentifierText(s: string) {
    0 < |s| && IsNameStart(s[0]) && forall k | 0 < k < |s| :: IsNameCharacter(s[k])
  }

  lemma {:induction false} ReadIdentifierText(s: string, until: nat)
    requires until <= |s|
    ensures ReadRange(s, 0, until) == Identifier <==> IdentifierText(s[..until])
    decreases until
  {
    if until > 0 {
      ReadIdentifierText(s, until - 1);
      assert s[..until][..until - 1] == s[..until - 1];
      if until == 1 {
        assert ReadRange(s, 0, 0) == Empty;
      } else {
        assert IdentifierText(s[..until]) <==>
          IdentifierText(s[..until - 1]) && IsNameCharacter(s[until - 1]);
      }
    }
  }

  /** The anchored identifier pattern matches an identifier, or, since .NET's
      `$` also matches before a final line feed, an identifier followed by one. */
  lemma NameMatch(s: string)
    ensures IsMatch(NameRegex, s) <==>
      IdentifierText(s) || (0 < |s| && s[|s| - 1] == '\n' && IdentifierText(s[..|s| - 1]))
  {
    ReadIdentifierText(s, |s|);
    assert s[..|s|] == s;
    if 0 < |s| {
      ReadIdentifierText(s, |s| - 1);
    }
  }

  /** No identifier is empty or starts with a digit. */
  lemma NameNeverStartsWithDigit(s: string)
    requires s == [] || IsDigit(s[0])
    ensures !IsMatch(NameRegex, s)
  {
    NameMatch(s);
    if 0 < |s| {
      assert s[..|s| - 1] == [] || s[..|s| - 1][0] == s[0];
    }
  }

  // ---------------------------------------------------------------------------
  // The constructors

  /** `new Operator(symbol, mapping, precedence)`. */
  function NewOperator(symbol: char, mapping: (Num, Num) -> Outcome, precedence: int): (r: Result<Operator>)
    ensures r.Success? <==> symbol in OperatorSymbols
    ensures r.Success? ==> r.value == Operator(symbol, mapping, precedence)
    ensures r.Failure? ==> r.error.InvalidDefinition?
  {
    OperatorSymbolsListed(symbol);
    if !IsOperatorSymbol(symbol) then Failure(InvalidDefinition([symbol])) else Success(Operator(symbol, mapping, precedence))
  }

  /** `new Function(name, mapping)`. */
  function NewFunction(name: string, mapping: seq<Num> -> Outcome): (r: Result<Function>)
    ensures r.Success? <==>
      IdentifierText(name) || (0 < |name| && name[|name| - 1] == '\n' && IdentifierText(name[..|name| - 1]))
    ensures r.Success? ==> r.value == Function(name, mapping)
    ensures r.Failure? ==> r.error.InvalidDefinition?
  {
    NameMatch(name);
    if !IsMatch(NameRegex, name) then Failure(InvalidDefinition(name)) else Success(Function(name, mapping))
  }

  /** `new NumberConstant(symbol, value)`: a constant written as one Greek letter. */
  function NewSymbolConstant(symbol: char, value: Num): (r: Result<NumberConstant>)
    ensures r.Success? <==> symbol in NumberSymbols
    ensures r.Success? ==> r.value == NumberConstant([symbol], value) && |r.value.identifier| == 1
    ensures r.Failure? ==> r.error.InvalidDefinition?
  {
    NumberSymbolsListed(symbol);
    if !IsNumberSymbol(symbol) then Failure(InvalidDefinition([symbol])) else Success(NumberConstant([symbol], value))
  }

  /** `new NumberConstant(name, value)`: a constant written as an identifier. */
  function NewNamedConstant(name: string, value: Num): (r: Result<NumberConstant>)
    ensures r.Success? <==>
      IdentifierText(name) || (0 < |name| && name[|name| - 1] == '\n' && IdentifierText(name[..|name| - 1]))
    ensures r.Success? ==> r.value == NumberConstant(name, value)
    ensures r.Failure? ==> r.error.InvalidDefinition?
  {
    NameMatch(name);
    if !IsMatch(NameRegex, name) then Failure(InvalidDefinition(name)) else Success(NumberConstant(name, value))
  }

  // ---------------------------------------------------------------------------
  // Consequences

  /** Whether a definition is accepted depends on its symbol or name alone,
      never on the mapping, the precedence or the value. */
  lemma AcceptanceIgnoresPayload(symbol: char, name: string,
                                 m1: (Num, Num) -> Outcome, p1: int, m2: (Num, Num) -> Outcome, p2: int,
                                 f1: seq<Num> -> Outcome, f2: seq<Num> -> Outcome, v1: Num, v2: Num)
    ensures NewOperator(symbol, m1, p1).Success? == NewOperator(symbol, m2, p2).Success?
    ensures NewFunction(name, f1).Success? == NewFunction(name, f2).Success?
    ensures NewSymbolConstant(symbol, v1).Success? == NewSymbolConstant(symbol, v2).Success?
    ensures NewNamedConstant(name, v1).Success? == NewNamedConstant(name, v2).Success?
  {
  }

  /** Functions and named constants cannot be given an empty name or one
      that starts with a digit. */
  lemma DigitNamesRejected(name: string, f: seq<Num> -> Outcome, v: Num)
    requires name == [] || IsDigit(name[0])
    ensures NewFunction(name, f).Failure? && NewNamedConstant(name, v).Failure?
  {
    NameNeverStartsWithDigit(name);
  }

  /** A named constant can never be written with one Greek letter: the two
      constructors accept disjoint identifiers. */
  lemma SymbolAndNamedConstantsDiffer(symbol: char, v: Num, w: Num)
    requires NewSymbolConstant(symbol, v).Success?
    ensures NewNamedConstant([symbol], w).Failure?
  {
    NameMatch([symbol]);
  }
}
