/** The parser's first pass over the token list: it checks that each pair of
    neighbouring tokens may stand side by side, turns each name into a
    function name (before an opening parenthesis) or a constant name, checks
    that commas only separate function arguments, and matches parentheses. */
module Preprocessor {
  import opened Common
  import opened Tokens

  // ---------------------------------------------------------------------------
  // Token classes and the adjacency table

  /** A token an expression may start with. */
  predicate StartsOperand(t: Token) {
    t.Name? || t.Number? || t.NumberSymbol? || t.OpeningParenthesis?
  }

  /** A token an expression may end with. */
  predicate EndsOperand(t: Token) {
    t.Name? || t.Number? || t.NumberSymbol? || t.ClosingParenthesis?
  }

  /** `second` may not follow `first`. */
  predicate Forbidden(first: Token, second: Token) {
    ((first.Number? || first.NumberSymbol? || first.ClosingParenthesis?)
      && !second.OperatorSymbol? && !second.Comma? && !second.ClosingParenthesis?)
    || ((first.Comma? || first.OperatorSymbol? || first.OpeningParenthesis?) && !StartsOperand(second))
    || (first.Name?
      && !second.OpeningParenthesis? && !second.OperatorSymbol? && !second.Comma? && !second.ClosingParenthesis?)
  }

  /** What `first` becomes in the output when `second` follows it. */
  function Converted(first: Token, second: Token): (r: Token)
    ensures r.pos == first.pos
    ensures first.Name? ==>
      (r.FunctionName? || r.NumberName?) && r.name == first.name && (r.FunctionName? <==> second.OpeningParenthesis?)
    ensures !first.Name? ==> r == first
  {
    if first.Name? then
      if second.OpeningParenthesis? then FunctionName(first.name, first.pos) else NumberName(first.name, first.pos)
    else first
  }

  // ---------------------------------------------------------------------------
  // The pair scan

  /** The three position stacks, top last: opening parentheses of function
      calls, unmatched opening parentheses, and closing parentheses that had
      nothing to match. */
  datatype Stacks = Stacks(calls: seq<int>, opening: seq<int>, closing: seq<int>)

  /** The output so far and the stacks, after some pairs were scanned. */
  datatype Scan = Scan(result: seq<Token>, stacks: Stacks)

  function Top(s: seq<int>): int requires |s| > 0 { s[|s| - 1] }

  function Pop(s: seq<int>): seq<int> requires |s| > 0 { s[..|s| - 1] }

  /** The check on a comma: it must sit directly inside the parenthesis that
      opened the innermost function call. Peeking at an empty opening stack
      raises `InvalidOperationException`. */
  function CommaError(comma: Token, st: Stacks): Option<Error> {
    if |st.calls| == 0 then Some(SyntaxError(comma.pos, comma.Length()))
    else if |st.opening| == 0 then Some(EmptyStack)
    else if Top(st.calls) != Top(st.opening) then Some(SyntaxError(comma.pos, comma.Length()))
    else None
  }

  /** The stacks after `first` and `second` are scanned. */
  function Push(first: Token, second: Token, st: Stacks): Stacks {
    var calls := if first.Name? && second.OpeningParenthesis? then st.calls + [second.pos] else st.calls;
    var opening := if first.OpeningParenthesis? then st.opening + [first.pos] else st.opening;
    if !second.ClosingParenthesis? then Stacks(calls, opening, st.closing)
    else if |opening| > 0 then
      Stacks(if |calls| > 0 && Top(calls) == Top(opening) then Pop(calls) else calls, Pop(opening), st.closing)
    else Stacks(calls, opening, st.closing + [second.pos])
  }

  /** One iteration of the pair loop: the token it appends and the new stacks. */
  function PairStep(first: Token, second: Token, st: Stacks): Result<Scan> {
    if Forbidden(first, second) then Failure(SyntaxError(second.pos, second.Length()))
    else if first.Comma? && CommaError(first, st).Some? then Failure(CommaError(first, st).value)
    else Success(Scan([Converted(first, second)], Push(first, second, st)))
  }

  /** The state after the pairs `(tokens[k], tokens[k + 1])` for `k < i`. */
  function ScanState(tokens: seq<Token>, i: nat): Result<Scan>
    requires i < |tokens|
    decreases i, 1
  {
    if i == 0 then Success(Scan([], Stacks([], [], []))) else ScanThrough(tokens, i)
  }

  /** The state once the pair `(tokens[i - 1], tokens[i])` is scanned as well. */
  function ScanThrough(tokens: seq<Token>, i: nat): Result<Scan>
    requires 0 < i < |tokens|
    decreases i, 0
  {
    var s :- ScanState(tokens, i - 1);
    var step :- PairStep(tokens[i - 1], tokens[i], s.stacks);
    Success(Scan(s.result + step.result, step.stacks))
  }

  /** One more pair succeeds exactly when its own checks pass, and fails with their error. */
  lemma ScanOutcome(tokens: seq<Token>, i: nat)
    requires 0 < i < |tokens| && ScanState(tokens, i - 1).Success?
    ensures var step := PairStep(tokens[i - 1], tokens[i], ScanState(tokens, i - 1).value.stacks);
      (ScanState(tokens, i).Success? <==> step.Success?)
      && (step.Failure? ==> ScanState(tokens, i) == Failure(step.error))
  {
    assert ScanState(tokens, i) == ScanThrough(tokens, i);
  }

  /** How one more pair changes the stacks. */
  lemma ScanAdvance(tokens: seq<Token>, i: nat)
    requires 0 < i < |tokens| && ScanState(tokens, i).Success?
    ensures ScanState(tokens, i - 1).Success?
    ensures ScanState(tokens, i).value.stacks == Push(tokens[i - 1], tokens[i], ScanState(tokens, i - 1).value.stacks)
  {
    assert ScanState(tokens, i) == ScanThrough(tokens, i);
  }

  /** The checks after the pair loop: the last token, then the parentheses. */
  function Finish(tokens: seq<Token>, s: Scan): Result<seq<Token>>
    requires |tokens| > 0
  {
    var last := tokens[|tokens| - 1];
    if !EndsOperand(last) then Failure(SyntaxError(last.pos, last.Length()))
    else if |s.stacks.opening| > 0 || |s.stacks.closing| > 0 then Failure(UnmatchingParenthesis)
    else Success(s.result + [last])
  }

  /** `Preprocess(tokens)`. A single token is returned as it is: the branch
      that would turn a lone name into a constant name asks for a second token
      and can never be taken. */
  function PreprocessOf(tokens: seq<Token>): Result<seq<Token>> {
    if |tokens| == 0 then Failure(IndexOutOfRange)
    else if !StartsOperand(tokens[0]) then Failure(SyntaxError(tokens[0].pos, tokens[0].Length()))
    else if |tokens| == 1 then Success([tokens[0]])
    else
      var s :- ScanState(tokens, |tokens| - 1);
      Finish(tokens, s)
  }

  lemma {:induction false} ScanFailureSticks(tokens: seq<Token>, i: nat, j: nat)
    requires i <= j < |tokens| && ScanState(tokens, i).Failure?
    ensures ScanState(tokens, j) == ScanState(tokens, i)
    decreases j
  {
    if i < j {
      ScanFailureSticks(tokens, i, j - 1);
    }
  }

  /** The first failing pair decides the outcome of the whole list. */
  lemma ScanFailureReported(tokens: seq<Token>, i: nat)
    requires 0 < i < |tokens| && StartsOperand(tokens[0]) && ScanState(tokens, i).Failure?
    ensures PreprocessOf(tokens) == Failure(ScanState(tokens, i).error)
  {
    ScanFailureSticks(tokens, i, |tokens| - 1);
  }

  /** The body of the pair loop: checks the pair, then updates the stacks. */
  method ScanPair(token1: Token, token2: Token, functionCalls: seq<int>, openingParenthesisMatch: seq<int>,
                  closingParenthesisMatch: seq<int>) returns (r: Result<Scan>)
    ensures r == PairStep(token1, token2, Stacks(functionCalls, openingParenthesisMatch, closingParenthesisMatch))
  {
    var calls, opening, closing := functionCalls, openingParenthesisMatch, closingParenthesisMatch;
    if Forbidden(token1, token2) {
      return Failure(SyntaxError(token2.pos, token2.Length()));
    }
    var added: Token;
    if token1.Name? {
      if token2.OpeningParenthesis? {
        added := FunctionName(token1.name, token1.pos);
        calls := calls + [token2.pos];
      } else {
        added := NumberName(token1.name, token1.pos);
      }
    } else if token1.Comma? {
      if |calls| == 0 {
        return Failure(SyntaxError(token1.pos, token1.Length()));
      }
      if |opening| == 0 {
        return Failure(EmptyStack);
      }
      if Top(calls) != Top(opening) {
        return Failure(SyntaxError(token1.pos, token1.Length()));
      }
      added := token1;
    } else {
      added := token1;
    }
    if token1.OpeningParenthesis? {
      opening := opening + [token1.pos];
    }
    if token2.ClosingParenthesis? {
      if |opening| > 0 {
        if |calls| > 0 && Top(calls) == Top(opening) {
          calls := Pop(calls);
        }
        opening := Pop(opening);
      } else {
        closing := closing + [token2.pos];
      }
    }
    return Success(Scan([added], Stacks(calls, opening, closing)));
  }

  method Preprocess(tokens: seq<Token>) returns (r: Result<seq<Token>>)
    ensures r == PreprocessOf(tokens)
  {
    var result: seq<Token> := [];
    if |tokens| == 0 {
      return Failure(IndexOutOfRange);
    }
    if !StartsOperand(tokens[0]) {
      return Failure(SyntaxError(tokens[0].pos, tokens[0].Length()));
    }
    if |tokens| == 1 {
      result := result + [tokens[0]];
      assert result == [tokens[0]];
      return Success(result);
    }
    var functionCalls: seq<int> := [];
    var openingParenthesisMatch: seq<int> := [];
    var closingParenthesisMatch: seq<int> := [];
    for i := 0 to |tokens| - 1
      invariant ScanState(tokens, i)
        == Success(Scan(result, Stacks(functionCalls, openingParenthesisMatch, closingParenthesisMatch)))
    {
      var step := ScanPair(tokens[i], tokens[i + 1], functionCalls, openingParenthesisMatch, closingParenthesisMatch);
      if step.Failure? {
        ScanFailureSticks(tokens, i + 1, |tokens| - 1);
        return Failure(step.error);
      }
      result := result + step.value.result;
      functionCalls, openingParenthesisMatch, closingParenthesisMatch :=
        step.value.stacks.calls, step.value.stacks.opening, step.value.stacks.closing;
    }
    var last := tokens[|tokens| - 1];
    if !EndsOperand(last) {
      return Failure(SyntaxError(last.pos, last.Length()));
    }
    result := result + [last];
    if |openingParenthesisMatch| > 0 || |closingParenthesisMatch| > 0 {
      return Failure(UnmatchingParenthesis);
    }
    return Success(result);
  }
}
