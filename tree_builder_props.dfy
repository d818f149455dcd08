/** What the tree builder promises: which tokens it rejects and with what, how
    an operator is placed by precedence, and, read as trees, the shapes it
    builds for small expressions. */
module TreeBuilderProperties {
  import opened Common
  import opened Tokens
  import opened Wrappers
  import Parser
  import Nodes
  import opened TreeBuilder

  // ---------------------------------------------------------------------------
  // Failures

  /** The first token whose step fails decides the outcome of the whole build. */
  lemma StepFailureReported(p: Parser.Parser, tokens: seq<Token>, i: nat)
    requires i < |tokens| && Built(p, tokens, i).Success?
    requires Step(p, Built(p, tokens, i).value, tokens[i]).Failure?
    ensures BuildOf(p, tokens) == Failure(Step(p, Built(p, tokens, i).value, tokens[i]).error)
  {
    BuiltStep(p, tokens, i);
    BuiltFailureSticks(p, tokens, i + 1, |tokens|);
  }

  /** An unregistered function or operator is reported at its token; an
      unregistered constant fails as a plain dictionary lookup; a name that
      the preprocessor left unconverted is an internal error. */
  lemma UnknownNamesReported(p: Parser.Parser, tokens: seq<Token>, i: nat)
    requires i < |tokens| && Built(p, tokens, i).Success?
    ensures var t := tokens[i];
      t.FunctionName? && t.name !in p.functions ==> BuildOf(p, tokens) == Failure(SyntaxError(t.pos, |t.name|))
    ensures var t := tokens[i];
      t.OperatorSymbol? && t.symbol !in p.operators ==> BuildOf(p, tokens) == Failure(SyntaxError(t.pos, 1))
    ensures var t := tokens[i];
      (t.NumberName? && t.name !in p.constants) || (t.NumberSymbol? && [t.symbol] !in p.constants) ==>
      BuildOf(p, tokens) == Failure(KeyNotFound)
    ensures tokens[i].Name? ==> BuildOf(p, tokens) == Failure(UnreachableCode)
  {
    if Step(p, Built(p, tokens, i).value, tokens[i]).Failure? {
      StepFailureReported(p, tokens, i);
    }
  }

  /** The state after `n` tokens depends on those tokens alone. */
  lemma {:induction false} BuiltPrefix(p: Parser.Parser, tokens: seq<Token>, longer: seq<Token>, n: nat)
    requires n <= |tokens| && n <= |longer| && tokens[..n] == longer[..n]
    ensures Built(p, tokens, n) == Built(p, longer, n)
    decreases n
  {
    if n > 0 {
      assert tokens[..n - 1] == tokens[..n][..n - 1] && longer[..n - 1] == longer[..n][..n - 1];
      assert tokens[n - 1] == tokens[..n][n - 1] && longer[n - 1] == longer[..n][n - 1];
      BuiltPrefix(p, tokens, longer, n - 1);
      assert Built(p, tokens, n) == BuiltThrough(p, tokens, n);
      assert Built(p, longer, n) == BuiltThrough(p, longer, n);
    }
  }

  // One more token of a known kind: the branch of `Step` it takes.

  lemma ValueStep(p: Parser.Parser, tokens: seq<Token>, i: nat)
    requires i < |tokens| && Built(p, tokens, i).Success? && tokens[i].Number?
    ensures Built(p, tokens, i + 1) == Placed(Built(p, tokens, i).value, ValueNode(tokens[i].value), true)
  {
    BuiltStep(p, tokens, i);
  }

  lemma OpeningStep(p: Parser.Parser, tokens: seq<Token>, i: nat)
    requires i < |tokens| && Built(p, tokens, i).Success? && tokens[i].OpeningParenthesis?
    ensures Built(p, tokens, i + 1) == Placed(Built(p, tokens, i).value, ParenthesisNode(None), true)
  {
    BuiltStep(p, tokens, i);
  }

  lemma ClosingStep(p: Parser.Parser, tokens: seq<Token>, i: nat)
    requires i < |tokens| && Built(p, tokens, i).Success? && tokens[i].ClosingParenthesis?
    ensures Built(p, tokens, i + 1) == Success(OnClosing(Built(p, tokens, i).value))
  {
    BuiltStep(p, tokens, i);
  }

  lemma OperatorStep(p: Parser.Parser, tokens: seq<Token>, i: nat)
    requires i < |tokens| && Built(p, tokens, i).Success? && tokens[i].OperatorSymbol?
    ensures Built(p, tokens, i + 1) == OnOperator(p, Built(p, tokens, i).value, tokens[i])
  {
    BuiltStep(p, tokens, i);
  }

  lemma CallStep(p: Parser.Parser, tokens: seq<Token>, i: nat)
    requires i < |tokens| && Built(p, tokens, i).Success? && tokens[i].FunctionName? && tokens[i].name in p.functions
    ensures Built(p, tokens, i + 1) == Placed(Built(p, tokens, i).value, CallNode(p.functions[tokens[i].name], []), false)
  {
    BuiltStep(p, tokens, i);
  }

  lemma CommaStep(p: Parser.Parser, tokens: seq<Token>, i: nat)
    requires i < |tokens| && Built(p, tokens, i).Success? && tokens[i].Comma?
    ensures Built(p, tokens, i + 1) == OnComma(Built(p, tokens, i).value)
  {
    BuiltStep(p, tokens, i);
  }

  /** No tokens, no tree: `Last()` on the empty stack fails. */
  lemma NoTokens(p: Parser.Parser)
    ensures BuildOf(p, []) == Failure(EmptyStack)
  {
  }

  // ---------------------------------------------------------------------------
  // Values, calls and parentheses

  /** Where a value, a call or a parenthesis goes. On an empty stack it is
      the only node on the stack. Otherwise it becomes the child of a
      parenthesis, the right operand of an operation or, where a call is
      accepted, the call's last argument; no other node changes. It is pushed,
      except for a value that an operation takes as its right operand. */
  lemma PlacedMeaning(s: State, node: Node, calls: bool)
    requires Valid(s) && !node.OperationNode? && Linked(node, |s.arena|)
    ensures |s.views| == 0 ==> Placed(s, node, calls) == Success(State(s.arena + [node], [|s.arena|]))
    ensures var r := Placed(s, node, calls);
      |s.views| > 0 ==> var top := Last(s.views);
        (r.Success? <==> s.arena[top].ParenthesisNode? || s.arena[top].OperationNode? || (calls && s.arena[top].CallNode?))
        && (r.Failure? ==> r.error == UnreachableCode)
    ensures var r := Placed(s, node, calls); var n := |s.arena|;
      |s.views| > 0 && r.Success? ==> var top := Last(s.views);
        |r.value.arena| == n + 1 && r.value.arena[n] == node
        && (forall k | 0 <= k < n && k != top :: r.value.arena[k] == s.arena[k])
        && r.value.views == (if node.ValueNode? && s.arena[top].OperationNode? then s.views else s.views + [n])
        && (s.arena[top].ParenthesisNode? ==> r.value.arena[top] == ParenthesisNode(Some(n)))
        && (s.arena[top].OperationNode? ==> r.value.arena[top] == s.arena[top].(right := Some(n)))
        && (s.arena[top].CallNode? ==> r.value.arena[top] == s.arena[top].(arguments := s.arena[top].arguments + [n]))
  {
  }

  /** A comma: the stack is unwound to the innermost call, which gets a new
      empty parenthesis as its last argument, and that parenthesis is
      pushed; no other node changes. With no call on the stack, `Peek` fails
      on the emptied stack. */
  lemma CommaAppendsArgument(s: State)
    requires Valid(s)
    ensures OnComma(s).Failure? <==> forall k | 0 <= k < |s.views| :: !s.arena[s.views[k]].CallNode?
    ensures OnComma(s).Failure? ==> OnComma(s).error == EmptyStack
    ensures var r := OnComma(s); var views := Unwound(s.arena, s.views, false); var n := |s.arena|;
      r.Success? ==>
        |views| > 0 && r.value.views == views + [n]
        && |r.value.arena| == n + 1 && r.value.arena[n] == ParenthesisNode(None)
        && r.value.arena[Last(views)] == s.arena[Last(views)].(arguments := s.arena[Last(views)].arguments + [n])
        && forall k | 0 <= k < n && k != Last(views) :: r.value.arena[k] == s.arena[k]
  {
  }

  // ---------------------------------------------------------------------------
  // Operators and precedence

  /** An operator of strictly higher precedence than the operation on top of
      the stack rotates into that operation's right operand: it takes the
      old right operand as its left, and only the top node changes. */
  lemma HigherPrecedenceRotates(p: Parser.Parser, s: State, t: Token)
    requires Valid(s) && t.OperatorSymbol? && t.symbol in p.operators && |s.views| > 0
    requires s.arena[Last(s.views)].OperationNode?
    requires p.operators[t.symbol].precedence > s.arena[Last(s.views)].op.precedence
    ensures var r := Step(p, s, t); var top := Last(s.views); var n := |s.arena|;
      r.Success? && r.value.views == s.views + [n] && |r.value.arena| == n + 1
      && r.value.arena[n] == OperationNode(p.operators[t.symbol], s.arena[top].right, None)
      && r.value.arena[top] == s.arena[top].(right := Some(n))
      && forall k | 0 <= k < n && k != top :: r.value.arena[k] == s.arena[k]
  {
  }

  /** The new operation `n` took the top of the stack as its left operand and
      replaced it on the stack. In the node below, if any, the operation took
      the popped node's place: a call's last argument, a parenthesis's
      child or an operation's right operand. No other node changed. */
  ghost predicate PoppedInto(s: State, r: State, op: Operator)
    requires |s.views| > 0 && forall k | 0 <= k < |s.views| :: s.views[k] < |s.arena|
  {
    var top := Last(s.views);
    var below := s.views[..|s.views| - 1];
    var n := |s.arena|;
    r.views == below + [n] && |r.arena| == n + 1 && r.arena[n] == OperationNode(op, Some(top), None)
    && (forall k | 0 <= k < n && (|below| == 0 || k != Last(below)) :: r.arena[k] == s.arena[k])
    && (|below| > 0 ==>
      var parent := s.arena[Last(below)];
      (parent.CallNode? ==>
        (|parent.arguments| > 0 && r.arena[Last(below)] == parent.(arguments := parent.arguments[..|parent.arguments| - 1] + [n])))
      && (parent.ParenthesisNode? ==> r.arena[Last(below)] == ParenthesisNode(Some(n)))
      && (parent.OperationNode? ==> r.arena[Last(below)] == parent.(right := Some(n))))
  }

  /** An operator of equal or lower precedence pops the operation on top as
      its left operand, which makes chains of equal precedence associate to
      the left. The node exposed below must be a call with an argument or a
      parenthesis: an operation or a value there is an internal error, and a
      call without arguments fails to pop its argument stack. */
  lemma LowerPrecedencePops(p: Parser.Parser, s: State, t: Token)
    requires Valid(s) && t.OperatorSymbol? && t.symbol in p.operators && |s.views| > 0
    requires s.arena[Last(s.views)].OperationNode?
    requires p.operators[t.symbol].precedence <= s.arena[Last(s.views)].op.precedence
    ensures var r := Step(p, s, t); var below := s.views[..|s.views| - 1];
      r.Success? <==> (|below| == 0 || s.arena[Last(below)].ParenthesisNode?
        || (s.arena[Last(below)].CallNode? && |s.arena[Last(below)].arguments| > 0))
    ensures var r := Step(p, s, t); var below := s.views[..|s.views| - 1];
      r.Failure? ==> |below| > 0 && r.error == (if s.arena[Last(below)].CallNode? then EmptyStack else UnreachableCode)
    ensures var r := Step(p, s, t);
      r.Success? ==> PoppedInto(s, r.value, p.operators[t.symbol])
  {
  }

  /** An operator after a value pops the value as its left operand. The
      node below must be a call with an argument or a parenthesis, as when
      an operation of equal or higher precedence is on top. */
  lemma ValueOnTopPops(p: Parser.Parser, s: State, t: Token)
    requires Valid(s) && t.OperatorSymbol? && t.symbol in p.operators && |s.views| > 0
    requires s.arena[Last(s.views)].ValueNode?
    ensures var r := Step(p, s, t); var below := s.views[..|s.views| - 1];
      r.Success? <==> (|below| == 0 || s.arena[Last(below)].ParenthesisNode?
        || (s.arena[Last(below)].CallNode? && |s.arena[Last(below)].arguments| > 0))
    ensures var r := Step(p, s, t); var below := s.views[..|s.views| - 1];
      r.Failure? ==> |below| > 0 && r.error == (if s.arena[Last(below)].CallNode? then EmptyStack else UnreachableCode)
    ensures var r := Step(p, s, t);
      r.Success? ==> PoppedInto(s, r.value, p.operators[t.symbol])
  {
  }

  /** An operator after a call or a parenthesis pops it as its left operand.
      This is the one path on which an operation below accepts the new
      operation as its right operand. */
  lemma GroupOnTopPops(p: Parser.Parser, s: State, t: Token)
    requires Valid(s) && t.OperatorSymbol? && t.symbol in p.operators && |s.views| > 0
    requires s.arena[Last(s.views)].CallNode? || s.arena[Last(s.views)].ParenthesisNode?
    ensures var r := Step(p, s, t); var below := s.views[..|s.views| - 1];
      r.Success? <==> (|below| == 0 || s.arena[Last(below)].ParenthesisNode? || s.arena[Last(below)].OperationNode?
        || (s.arena[Last(below)].CallNode? && |s.arena[Last(below)].arguments| > 0))
    ensures var r := Step(p, s, t); var below := s.views[..|s.views| - 1];
      r.Failure? ==> |below| > 0 && r.error == (if s.arena[Last(below)].CallNode? then EmptyStack else UnreachableCode)
    ensures var r := Step(p, s, t);
      r.Success? ==> PoppedInto(s, r.value, p.operators[t.symbol])
  {
  }

  /** An operator with nothing before it finds an empty stack. */
  lemma OperatorOnEmptyStack(p: Parser.Parser, s: State, t: Token)
    requires Valid(s) && t.OperatorSymbol? && t.symbol in p.operators && |s.views| == 0
    ensures Step(p, s, t) == Failure(EmptyStack)
  {
  }

  // ---------------------------------------------------------------------------
  // The built nodes as trees

  /** The tree rooted at node `id`, following at most `fuel` links down;
      `None` when a link leaves the arena or the fuel runs out. */
  function Unfold(arena: seq<Node>, id: nat, fuel: nat): (r: Option<Nodes.Tree>)
    decreases fuel, 0, 0
  {
    if fuel == 0 || id >= |arena| then None
    else
      match arena[id]
      case ValueNode(v) => Some(Nodes.Value(v))
      case OperationNode(op, left, right) =>
        var l :- UnfoldLink(arena, left, fuel - 1);
        var r :- UnfoldLink(arena, right, fuel - 1);
        Some(Nodes.Operation(op, l, r))
      case CallNode(fn, arguments) =>
        var ts :- UnfoldAll(arena, arguments, fuel - 1);
        Some(Nodes.FunctionCall(fn, ts))
      case ParenthesisNode(child) =>
        var c :- UnfoldLink(arena, child, fuel - 1);
        Some(Nodes.Parenthesis(c))
  }

  /** An operand or a child: absent, or the tree it links to. */
  function UnfoldLink(arena: seq<Node>, link: Option<nat>, fuel: nat): (r: Option<Option<Nodes.Tree>>)
    decreases fuel, 1, 0
  {
    if link.None? then Some(None)
    else
      var t :- Unfold(arena, link.value, fuel);
      Some(Some(t))
  }

  /** A call's arguments, in the order they were pushed. */
  function UnfoldAll(arena: seq<Node>, ids: seq<nat>, fuel: nat): (r: Option<seq<Nodes.Tree>>)
    ensures r.Some? ==> |r.value| == |ids|
    decreases fuel, 1, |ids|
  {
    if |ids| == 0 then Some([])
    else
      var t :- Unfold(arena, ids[0], fuel);
      var ts :- UnfoldAll(arena, ids[1..], fuel);
      Some([t] + ts)
  }

  /** The tree a build produced. */
  function TreeOf(g: Graph): Option<Nodes.Tree> {
    Unfold(g.arena, g.root, |g.arena|)
  }

  // ---------------------------------------------------------------------------
  // Small expressions

  /** The first three tokens of `a op b ...`: the operation holds both
      values and is alone on the stack. */
  lemma FirstOperation(p: Parser.Parser, tokens: seq<Token>, op: Operator, a: Num, b: Num)
    requires |tokens| >= 3 && tokens[0] == Number(a, 0, 1) && tokens[2] == Number(b, 2, 1)
    requires tokens[1].OperatorSymbol? && tokens[1].pos == 1
    requires tokens[1].symbol in p.operators && p.operators[tokens[1].symbol] == op
    ensures Built(p, tokens, 3) == Success(State([ValueNode(a), OperationNode(op, Some(0), Some(2)), ValueNode(b)], [1]))
  {
    var s1 := State([ValueNode(a)], [0]);
    var s2 := State([ValueNode(a), OperationNode(op, Some(0), None)], [1]);
    assert Built(p, tokens, 0) == Success(State([], []));
    ValueStep(p, tokens, 0);
    assert [] + [ValueNode(a)] == [ValueNode(a)];
    assert Built(p, tokens, 1) == Success(s1);
    OperatorStep(p, tokens, 1);
    assert s1.views[..0] == [];
    assert s1.arena + [OperationNode(op, Some(0), None)] == s2.arena;
    assert OnOperator(p, s1, tokens[1]) == Lowered(s2.arena, [], 1, false);
    assert Built(p, tokens, 2) == Success(s2);
    ValueStep(p, tokens, 2);
    assert (s2.arena + [ValueNode(b)])[1 := OperationNode(op, Some(0), Some(2))]
      == [ValueNode(a), OperationNode(op, Some(0), Some(2)), ValueNode(b)];
  }

  /** The tokens of `a-b+c`. */
  function SumAfterDifferenceTokens(a: Num, b: Num, c: Num): seq<Token> {
    [Number(a, 0, 1), OperatorSymbol('-', 1), Number(b, 2, 1), OperatorSymbol('+', 3), Number(c, 4, 1)]
  }

  /** `a-b+`: with equal precedences, `+` pops the difference as its left
      operand and replaces it on the stack. */
  lemma DifferencePopped(plus: Operator, minus: Operator, a: Num, b: Num, c: Num)
    requires plus.precedence == minus.precedence
    ensures var p := Parser.Parser(map[], map['+' := plus, '-' := minus], map[]);
      Built(p, SumAfterDifferenceTokens(a, b, c), 4) ==
      Success(State([ValueNode(a), OperationNode(minus, Some(0), Some(2)), ValueNode(b), OperationNode(plus, Some(1), None)], [3]))
  {
    var p := Parser.Parser(map[], map['+' := plus, '-' := minus], map[]);
    var tokens := SumAfterDifferenceTokens(a, b, c);
    var s3 := State([ValueNode(a), OperationNode(minus, Some(0), Some(2)), ValueNode(b)], [1]);
    var arena := [ValueNode(a), OperationNode(minus, Some(0), Some(2)), ValueNode(b), OperationNode(plus, Some(1), None)];
    FirstOperation(p, tokens, minus, a, b);
    OperatorStep(p, tokens, 3);
    assert s3.views[..0] == [];
    assert s3.arena + [OperationNode(plus, Some(1), None)] == arena;
    assert OnOperator(p, s3, tokens[3]) == Lowered(arena, [], 3, false);
  }

  /** `a-b+c` with `+` and `-` of equal precedence is `(a-b)+c`. */
  lemma EqualPrecedenceAssociatesLeft(plus: Operator, minus: Operator, a: Num, b: Num, c: Num)
    requires plus.precedence == minus.precedence
    ensures var p := Parser.Parser(map[], map['+' := plus, '-' := minus], map[]);
      var tokens := [Number(a, 0, 1), OperatorSymbol('-', 1), Number(b, 2, 1), OperatorSymbol('+', 3), Number(c, 4, 1)];
      BuildOf(p, tokens).Success?
      && TreeOf(BuildOf(p, tokens).value) ==
        Some(Nodes.Operation(plus, Some(Nodes.Operation(minus, Some(Nodes.Value(a)), Some(Nodes.Value(b)))), Some(Nodes.Value(c))))
  {
    var p := Parser.Parser(map[], map['+' := plus, '-' := minus], map[]);
    var tokens := SumAfterDifferenceTokens(a, b, c);
    var s4 := [ValueNode(a), OperationNode(minus, Some(0), Some(2)), ValueNode(b), OperationNode(plus, Some(1), None)];
    var arena := [ValueNode(a), OperationNode(minus, Some(0), Some(2)), ValueNode(b), OperationNode(plus, Some(1), Some(4)), ValueNode(c)];
    DifferencePopped(plus, minus, a, b, c);
    ValueStep(p, tokens, 4);
    assert (s4 + [ValueNode(c)])[3 := OperationNode(plus, Some(1), Some(4))] == arena;
    assert Built(p, tokens, 5) == Success(State(arena, [3]));
    assert Unfold(arena, 1, 4) == Some(Nodes.Operation(minus, Some(Nodes.Value(a)), Some(Nodes.Value(b))));
  }

  /** The first four tokens of `a+b*c...` with `*` binding tighter than `+`:
      the product becomes the sum's right operand, taking `b` as its left,
      and is pushed. */
  lemma ProductRotatesIn(p: Parser.Parser, plus: Operator, times: Operator, a: Num, b: Num, c: Num)
    requires '+' in p.operators && p.operators['+'] == plus && '*' in p.operators && p.operators['*'] == times
    requires times.precedence > plus.precedence
    ensures var tokens := [Number(a, 0, 1), OperatorSymbol('+', 1), Number(b, 2, 1), OperatorSymbol('*', 3), Number(c, 4, 1)];
      Built(p, tokens, 4) ==
      Success(State([ValueNode(a), OperationNode(plus, Some(0), Some(3)), ValueNode(b), OperationNode(times, Some(2), None)], [1, 3]))
  {
    var tokens := [Number(a, 0, 1), OperatorSymbol('+', 1), Number(b, 2, 1), OperatorSymbol('*', 3), Number(c, 4, 1)];
    var s3 := State([ValueNode(a), OperationNode(plus, Some(0), Some(2)), ValueNode(b)], [1]);
    FirstOperation(p, tokens, plus, a, b);
    OperatorStep(p, tokens, 3);
    assert s3.arena[1 := OperationNode(plus, Some(0), Some(3))] + [OperationNode(times, Some(2), None)]
      == [ValueNode(a), OperationNode(plus, Some(0), Some(3)), ValueNode(b), OperationNode(times, Some(2), None)];
    assert [1] + [3] == [1, 3];
  }

  /** The first five tokens of `a+b*c...` with `*` binding tighter than `+`:
      the product hangs as the sum's right operand, and both operations
      stay on the stack. */
  lemma ProductUnderSum(p: Parser.Parser, plus: Operator, times: Operator, a: Num, b: Num, c: Num)
    requires '+' in p.operators && p.operators['+'] == plus && '*' in p.operators && p.operators['*'] == times
    requires times.precedence > plus.precedence
    ensures var tokens := [Number(a, 0, 1), OperatorSymbol('+', 1), Number(b, 2, 1), OperatorSymbol('*', 3), Number(c, 4, 1)];
      Built(p, tokens, 5) ==
      Success(State([ValueNode(a), OperationNode(plus, Some(0), Some(3)), ValueNode(b), OperationNode(times, Some(2), Some(4)), ValueNode(c)], [1, 3]))
  {
    var tokens := [Number(a, 0, 1), OperatorSymbol('+', 1), Number(b, 2, 1), OperatorSymbol('*', 3), Number(c, 4, 1)];
    var s4 := [ValueNode(a), OperationNode(plus, Some(0), Some(3)), ValueNode(b), OperationNode(times, Some(2), None)];
    ProductRotatesIn(p, plus, times, a, b, c);
    ValueStep(p, tokens, 4);
    assert (s4 + [ValueNode(c)])[3 := OperationNode(times, Some(2), Some(4))]
      == [ValueNode(a), OperationNode(plus, Some(0), Some(3)), ValueNode(b), OperationNode(times, Some(2), Some(4)), ValueNode(c)];
  }

  /** `a+b*c` with `*` binding tighter than `+` is `a+(b*c)`. */
  lemma HigherPrecedenceNestsRight(plus: Operator, times: Operator, a: Num, b: Num, c: Num)
    requires times.precedence > plus.precedence
    ensures var p := Parser.Parser(map[], map['+' := plus, '*' := times], map[]);
      var tokens := [Number(a, 0, 1), OperatorSymbol('+', 1), Number(b, 2, 1), OperatorSymbol('*', 3), Number(c, 4, 1)];
      BuildOf(p, tokens).Success?
      && TreeOf(BuildOf(p, tokens).value) ==
        Some(Nodes.Operation(plus, Some(Nodes.Value(a)), Some(Nodes.Operation(times, Some(Nodes.Value(b)), Some(Nodes.Value(c))))))
  {
    var p := Parser.Parser(map[], map['+' := plus, '*' := times], map[]);
    var tokens := [Number(a, 0, 1), OperatorSymbol('+', 1), Number(b, 2, 1), OperatorSymbol('*', 3), Number(c, 4, 1)];
    ProductUnderSum(p, plus, times, a, b, c);
    var arena := [ValueNode(a), OperationNode(plus, Some(0), Some(3)), ValueNode(b), OperationNode(times, Some(2), Some(4)), ValueNode(c)];
    assert Unfold(arena, 3, 4) == Some(Nodes.Operation(times, Some(Nodes.Value(b)), Some(Nodes.Value(c))));
  }

  /** `a+b*c-d` with `*` binding tighter than both `+` and `-` fails: once `-`
      pops the product, the sum below it is an operation, which the builder
      treats as unreachable there. */
  lemma MixedPrecedenceUnreachable(plus: Operator, times: Operator, minus: Operator, a: Num, b: Num, c: Num, d: Num)
    requires times.precedence > plus.precedence && minus.precedence <= times.precedence
    ensures var p := Parser.Parser(map[], map['+' := plus, '*' := times, '-' := minus], map[]);
      var tokens := [Number(a, 0, 1), OperatorSymbol('+', 1), Number(b, 2, 1), OperatorSymbol('*', 3), Number(c, 4, 1),
                     OperatorSymbol('-', 5), Number(d, 6, 1)];
      BuildOf(p, tokens) == Failure(UnreachableCode)
  {
    var p := Parser.Parser(map[], map['+' := plus, '*' := times, '-' := minus], map[]);
    var tokens := [Number(a, 0, 1), OperatorSymbol('+', 1), Number(b, 2, 1), OperatorSymbol('*', 3), Number(c, 4, 1),
                   OperatorSymbol('-', 5), Number(d, 6, 1)];
    var prefix := tokens[..5];
    ProductUnderSum(p, plus, times, a, b, c);
    BuiltPrefix(p, prefix, tokens, 5);
    assert Step(p, Built(p, tokens, 5).value, tokens[5]) == Failure(UnreachableCode);
    StepFailureReported(p, tokens, 5);
  }

  /** The tokens of `((a)+b)`. */
  function DoubleParenthesisTokens(a: Num, b: Num): seq<Token> {
    [OpeningParenthesis(0), OpeningParenthesis(1), Number(a, 2, 1), ClosingParenthesis(3),
     OperatorSymbol('+', 4), Number(b, 5, 1), ClosingParenthesis(6)]
  }

  /** `((`: the inner parenthesis is the outer one's child, and both are on
      the stack. */
  lemma BothParenthesesOpened(p: Parser.Parser, a: Num, b: Num)
    ensures Built(p, DoubleParenthesisTokens(a, b), 2) ==
      Success(State([ParenthesisNode(Some(1)), ParenthesisNode(None)], [0, 1]))
  {
    var tokens := DoubleParenthesisTokens(a, b);
    assert Built(p, tokens, 0) == Success(State([], []));
    OpeningStep(p, tokens, 0);
    assert [] + [ParenthesisNode(None)] == [ParenthesisNode(None)];
    assert Built(p, tokens, 1) == Success(State([ParenthesisNode(None)], [0]));
    OpeningStep(p, tokens, 1);
    assert [0] + [1] == [0, 1];
    assert ([ParenthesisNode(None)] + [ParenthesisNode(None)])[0 := ParenthesisNode(Some(1))]
      == [ParenthesisNode(Some(1)), ParenthesisNode(None)];
  }

  /** `((a`: the value is the inner parenthesis's child, and is pushed. */
  lemma InnerParenthesisFilled(p: Parser.Parser, a: Num, b: Num)
    ensures Built(p, DoubleParenthesisTokens(a, b), 3) ==
      Success(State([ParenthesisNode(Some(1)), ParenthesisNode(Some(2)), ValueNode(a)], [0, 1, 2]))
  {
    var tokens := DoubleParenthesisTokens(a, b);
    BothParenthesesOpened(p, a, b);
    ValueStep(p, tokens, 2);
    assert [0, 1] + [2] == [0, 1, 2];
    assert ([ParenthesisNode(Some(1)), ParenthesisNode(None)] + [ValueNode(a)])[1 := ParenthesisNode(Some(2))]
      == [ParenthesisNode(Some(1)), ParenthesisNode(Some(2)), ValueNode(a)];
  }

  /** The inner closing parenthesis of `((a)` pops the value and the inner
      parenthesis, leaving only the outer one on the stack. */
  lemma InnerClosingUnwinds(a: Num)
    ensures var arena := [ParenthesisNode(Some(1)), ParenthesisNode(Some(2)), ValueNode(a)];
      Valid(State(arena, [0, 1, 2])) && OnClosing(State(arena, [0, 1, 2])) == State(arena, [0])
  {
    var arena := [ParenthesisNode(Some(1)), ParenthesisNode(Some(2)), ValueNode(a)];
    assert [0, 1, 2][..2] == [0, 1] && [0, 1][..1] == [0];
    assert Unwound(arena, [0, 1], true) == [0, 1];
    assert Unwound(arena, [0, 1, 2], true) == [0, 1];
  }

  /** `((a)`: only the outer parenthesis is left on the stack. */
  lemma InnerParenthesisClosed(p: Parser.Parser, a: Num, b: Num)
    ensures Built(p, DoubleParenthesisTokens(a, b), 4) ==
      Success(State([ParenthesisNode(Some(1)), ParenthesisNode(Some(2)), ValueNode(a)], [0]))
  {
    InnerParenthesisFilled(p, a, b);
    ClosingStep(p, DoubleParenthesisTokens(a, b), 3);
    InnerClosingUnwinds(a);
  }

  /** `+` after `((a)`: with only the outer parenthesis on the stack, the
      operation pops it as its left operand and is alone on the stack. */
  lemma PlusPopsOuterParenthesis(p: Parser.Parser, a: Num)
    requires '+' in p.operators
    ensures var s := State([ParenthesisNode(Some(1)), ParenthesisNode(Some(2)), ValueNode(a)], [0]);
      Step(p, s, OperatorSymbol('+', 4)) ==
      Success(State(s.arena + [OperationNode(p.operators['+'], Some(0), None)], [3]))
  {
    var before := [ParenthesisNode(Some(1)), ParenthesisNode(Some(2)), ValueNode(a)];
    var arena := before + [OperationNode(p.operators['+'], Some(0), None)];
    assert [0][..0] == [];
    assert OnOperator(p, State(before, [0]), OperatorSymbol('+', 4)) == Lowered(arena, [], 3, true);
  }

  /** `((a)+`: the operation holds the outer parenthesis. */
  lemma PlusTakesOuterParenthesis(p: Parser.Parser, a: Num, b: Num)
    requires '+' in p.operators
    ensures Built(p, DoubleParenthesisTokens(a, b), 5) ==
      Success(State([ParenthesisNode(Some(1)), ParenthesisNode(Some(2)), ValueNode(a),
                     OperationNode(p.operators['+'], Some(0), None)], [3]))
  {
    var before := [ParenthesisNode(Some(1)), ParenthesisNode(Some(2)), ValueNode(a)];
    InnerParenthesisClosed(p, a, b);
    BuiltStep(p, DoubleParenthesisTokens(a, b), 4);
    PlusPopsOuterParenthesis(p, a);
    assert before + [OperationNode(p.operators['+'], Some(0), None)]
      == [ParenthesisNode(Some(1)), ParenthesisNode(Some(2)), ValueNode(a), OperationNode(p.operators['+'], Some(0), None)];
  }

  /** `((a)+b`: the operation takes `b` as its right operand, which is not
      pushed. */
  lemma PlusTakesRightOperand(p: Parser.Parser, a: Num, b: Num)
    requires '+' in p.operators
    ensures Built(p, DoubleParenthesisTokens(a, b), 6) ==
      Success(State([ParenthesisNode(Some(1)), ParenthesisNode(Some(2)), ValueNode(a),
                     OperationNode(p.operators['+'], Some(0), Some(4)), ValueNode(b)], [3]))
  {
    var tokens := DoubleParenthesisTokens(a, b);
    var plus := p.operators['+'];
    var arena := [ParenthesisNode(Some(1)), ParenthesisNode(Some(2)), ValueNode(a), OperationNode(plus, Some(0), None)];
    PlusTakesOuterParenthesis(p, a, b);
    ValueStep(p, tokens, 5);
    assert (arena + [ValueNode(b)])[3 := OperationNode(plus, Some(0), Some(4))]
      == [ParenthesisNode(Some(1)), ParenthesisNode(Some(2)), ValueNode(a), OperationNode(plus, Some(0), Some(4)), ValueNode(b)];
  }

  /** `((a)+b)` has no tree: `+` pops the outer parenthesis, the only node
      left on the stack, as its left operand. The last closing parenthesis
      then pops the operation and empties the stack, and `Last()` fails on
      it. */
  lemma NestedParenthesesLoseRoot(p: Parser.Parser, a: Num, b: Num)
    requires '+' in p.operators
    ensures BuildOf(p, DoubleParenthesisTokens(a, b)) == Failure(EmptyStack)
  {
    var tokens := DoubleParenthesisTokens(a, b);
    var arena := [ParenthesisNode(Some(1)), ParenthesisNode(Some(2)), ValueNode(a),
                  OperationNode(p.operators['+'], Some(0), Some(4)), ValueNode(b)];
    PlusTakesRightOperand(p, a, b);
    ClosingStep(p, tokens, 6);
    assert [3][..0] == [];
    assert Unwound(arena, [3], true) == [];
    assert Built(p, tokens, 7) == Success(State(arena, []));
  }

  /** A lone number symbol builds a single value holding the constant's
      value, and evaluates to it. */
  lemma SymbolConstantEvaluates(p: Parser.Parser, symbol: char, pos: int)
    requires [symbol] in p.constants
    ensures BuildOf(p, [NumberSymbol(symbol, pos)]).Success?
    ensures TreeOf(BuildOf(p, [NumberSymbol(symbol, pos)]).value) == Some(Nodes.Value(p.constants[[symbol]].value))
    ensures Nodes.Evaluate(Nodes.Value(p.constants[[symbol]].value)) == Success(p.constants[[symbol]].value)
  {
    var tokens := [NumberSymbol(symbol, pos)];
    BuiltStep(p, tokens, 0);
    assert Built(p, tokens, 0) == Success(State([], []));
    assert [] + [ValueNode(p.constants[[symbol]].value)] == [ValueNode(p.constants[[symbol]].value)];
  }

  /** The closing parenthesis of `(a)` pops the value and leaves the
      parenthesis, the outermost node, on the stack. */
  lemma ValueClosingUnwinds(a: Num)
    ensures var arena := [ParenthesisNode(Some(1)), ValueNode(a)];
      Valid(State(arena, [0, 1])) && OnClosing(State(arena, [0, 1])) == State(arena, [0])
  {
    var arena := [ParenthesisNode(Some(1)), ValueNode(a)];
    assert [0, 1][..1] == [0];
    assert Unwound(arena, [0], true) == [0];
    assert Unwound(arena, [0, 1], true) == [0];
  }

  /** `(a)` builds a parenthesis around the value: the closing parenthesis
      leaves the outermost node on the stack. */
  lemma ParenthesisedValue(p: Parser.Parser, a: Num)
    ensures var tokens := [OpeningParenthesis(0), Number(a, 1, 1), ClosingParenthesis(2)];
      BuildOf(p, tokens).Success?
      && TreeOf(BuildOf(p, tokens).value) == Some(Nodes.Parenthesis(Some(Nodes.Value(a))))
  {
    var tokens := [OpeningParenthesis(0), Number(a, 1, 1), ClosingParenthesis(2)];
    var arena := [ParenthesisNode(Some(1)), ValueNode(a)];
    assert Built(p, tokens, 0) == Success(State([], []));
    OpeningStep(p, tokens, 0);
    assert [] + [ParenthesisNode(None)] == [ParenthesisNode(None)];
    assert Built(p, tokens, 1) == Success(State([ParenthesisNode(None)], [0]));
    ValueStep(p, tokens, 1);
    assert [0] + [1] == [0, 1];
    assert ([ParenthesisNode(None)] + [ValueNode(a)])[0 := ParenthesisNode(Some(1))] == arena;
    assert Built(p, tokens, 2) == Success(State(arena, [0, 1]));
    ClosingStep(p, tokens, 2);
    ValueClosingUnwinds(a);
  }

  /** The tokens of `f(a,b)`. */
  function CallTokens(a: Num, b: Num): seq<Token> {
    [FunctionName("f", 0), OpeningParenthesis(1), Number(a, 2, 1), Comma(3), Number(b, 4, 1), ClosingParenthesis(5)]
  }

  /** `f(`: the call has the parenthesis as its first argument, and both are
      on the stack. */
  lemma CallOpened(p: Parser.Parser, f: Function, a: Num, b: Num)
    requires p.functions == map["f" := f]
    ensures Built(p, CallTokens(a, b), 2) == Success(State([CallNode(f, [1]), ParenthesisNode(None)], [0, 1]))
  {
    var tokens := CallTokens(a, b);
    var s1 := State([CallNode(f, [])], [0]);
    assert Built(p, tokens, 0) == Success(State([], []));
    CallStep(p, tokens, 0);
    assert [] + [CallNode(f, [])] == [CallNode(f, [])];
    assert Built(p, tokens, 1) == Success(s1);
    OpeningStep(p, tokens, 1);
    assert [] + [1] == [1] && [0] + [1] == [0, 1];
    assert (s1.arena + [ParenthesisNode(None)])[0 := CallNode(f, [1])] == [CallNode(f, [1]), ParenthesisNode(None)];
  }

  /** Up to the comma of `f(a,b)`: the call holds its first argument, and the
      comma's new parenthesis is on top of the call. */
  lemma FirstArgument(p: Parser.Parser, f: Function, a: Num, b: Num)
    requires p.functions == map["f" := f]
    ensures Built(p, CallTokens(a, b), 4) ==
      Success(State([CallNode(f, [1, 3]), ParenthesisNode(Some(2)), ValueNode(a), ParenthesisNode(None)], [0, 3]))
  {
    var tokens := CallTokens(a, b);
    var s2 := [CallNode(f, [1]), ParenthesisNode(None)];
    var s3 := State([CallNode(f, [1]), ParenthesisNode(Some(2)), ValueNode(a)], [0, 1, 2]);
    CallOpened(p, f, a, b);
    ValueStep(p, tokens, 2);
    assert (s2 + [ValueNode(a)])[1 := ParenthesisNode(Some(2))] == s3.arena;
    assert [0, 1] + [2] == [0, 1, 2];
    assert Built(p, tokens, 3) == Success(s3);
    CommaStep(p, tokens, 3);
    CommaUnwindsToCall(p, f, a);
  }

  /** The comma of `f(a,b)` pops the first argument's value and parenthesis,
      and gives the call a second, empty, parenthesis. */
  lemma CommaUnwindsToCall(p: Parser.Parser, f: Function, a: Num)
    ensures var s := State([CallNode(f, [1]), ParenthesisNode(Some(2)), ValueNode(a)], [0, 1, 2]);
      Step(p, s, Comma(3)) ==
      Success(State([CallNode(f, [1, 3]), ParenthesisNode(Some(2)), ValueNode(a), ParenthesisNode(None)], [0, 3]))
  {
    var s := State([CallNode(f, [1]), ParenthesisNode(Some(2)), ValueNode(a)], [0, 1, 2]);
    assert [0, 1, 2][..2] == [0, 1] && [0, 1][..1] == [0];
    assert Unwound(s.arena, [0], false) == [0];
    assert Unwound(s.arena, [0, 1, 2], false) == [0];
    assert [1] + [3] == [1, 3] && [0] + [3] == [0, 3];
    assert (s.arena + [ParenthesisNode(None)])[0 := CallNode(f, [1, 3])]
      == [CallNode(f, [1, 3]), ParenthesisNode(Some(2)), ValueNode(a), ParenthesisNode(None)];
  }

  /** `f(a,b)`: each argument is a parenthesis of its own, the comma unwinds
      to the call, and the function receives the arguments' values in the
      order they were written. */
  lemma CallArguments(p: Parser.Parser, f: Function, a: Num, b: Num)
    requires p.functions == map["f" := f]
    ensures BuildOf(p, CallTokens(a, b)).Success?
    ensures TreeOf(BuildOf(p, CallTokens(a, b)).value) ==
      Some(Nodes.FunctionCall(f, [Nodes.Parenthesis(Some(Nodes.Value(a))), Nodes.Parenthesis(Some(Nodes.Value(b)))]))
  {
    SecondArgument(p, f, a, b);
    CallTree(f, a, b);
  }

  /** `f(a,b`: the second value fills the comma's parenthesis and is pushed. */
  lemma SecondValuePlaced(p: Parser.Parser, f: Function, a: Num, b: Num)
    requires p.functions == map["f" := f]
    ensures Built(p, CallTokens(a, b), 5) ==
      Success(State([CallNode(f, [1, 3]), ParenthesisNode(Some(2)), ValueNode(a), ParenthesisNode(Some(4)), ValueNode(b)], [0, 3, 4]))
  {
    var tokens := CallTokens(a, b);
    var s4 := [CallNode(f, [1, 3]), ParenthesisNode(Some(2)), ValueNode(a), ParenthesisNode(None)];
    FirstArgument(p, f, a, b);
    ValueStep(p, tokens, 4);
    assert (s4 + [ValueNode(b)])[3 := ParenthesisNode(Some(4))]
      == [CallNode(f, [1, 3]), ParenthesisNode(Some(2)), ValueNode(a), ParenthesisNode(Some(4)), ValueNode(b)];
    assert [0, 3] + [4] == [0, 3, 4];
  }

  /** The rest of `f(a,b)`: the second argument fills the comma's
      parenthesis, and the closing parenthesis leaves the call alone. */
  lemma SecondArgument(p: Parser.Parser, f: Function, a: Num, b: Num)
    requires p.functions == map["f" := f]
    ensures Built(p, CallTokens(a, b), 6) ==
      Success(State([CallNode(f, [1, 3]), ParenthesisNode(Some(2)), ValueNode(a), ParenthesisNode(Some(4)), ValueNode(b)], [0]))
  {
    SecondValuePlaced(p, f, a, b);
    ClosingStep(p, CallTokens(a, b), 5);
    ClosingUnwindsToCall(f, a, b);
  }

  /** The closing parenthesis of `f(a,b)` pops the second argument's value
      and its parenthesis, leaving the call alone on the stack. */
  lemma ClosingUnwindsToCall(f: Function, a: Num, b: Num)
    ensures var arena := [CallNode(f, [1, 3]), ParenthesisNode(Some(2)), ValueNode(a), ParenthesisNode(Some(4)), ValueNode(b)];
      Valid(State(arena, [0, 3, 4])) && OnClosing(State(arena, [0, 3, 4])) == State(arena, [0])
  {
    var arena := [CallNode(f, [1, 3]), ParenthesisNode(Some(2)), ValueNode(a), ParenthesisNode(Some(4)), ValueNode(b)];
    assert [0, 3, 4][..2] == [0, 3] && [0, 3][..1] == [0];
    assert Unwound(arena, [0, 3], true) == [0, 3];
    assert Unwound(arena, [0, 3, 4], true) == [0, 3];
  }

  /** The graph `f(a,b)` builds unfolds into the call over both arguments. */
  lemma CallTree(f: Function, a: Num, b: Num)
    ensures var arena := [CallNode(f, [1, 3]), ParenthesisNode(Some(2)), ValueNode(a), ParenthesisNode(Some(4)), ValueNode(b)];
      TreeOf(Graph(arena, 0)) ==
      Some(Nodes.FunctionCall(f, [Nodes.Parenthesis(Some(Nodes.Value(a))), Nodes.Parenthesis(Some(Nodes.Value(b)))]))
  {
    var arena := [CallNode(f, [1, 3]), ParenthesisNode(Some(2)), ValueNode(a), ParenthesisNode(Some(4)), ValueNode(b)];
    assert Unfold(arena, 4, 3) == Some(Nodes.Value(b));
    assert Unfold(arena, 2, 3) == Some(Nodes.Value(a));
    assert UnfoldLink(arena, Some(4), 3) == Some(Some(Nodes.Value(b)));
    assert UnfoldLink(arena, Some(2), 3) == Some(Some(Nodes.Value(a)));
    assert Unfold(arena, 3, 4) == Some(Nodes.Parenthesis(Some(Nodes.Value(b))));
    assert Unfold(arena, 1, 4) == Some(Nodes.Parenthesis(Some(Nodes.Value(a))));
    assert [1, 3][1..] == [3] && [3][1..] == [];
    assert UnfoldAll(arena, [], 4) == Some([]);
    var ta, tb := Nodes.Parenthesis(Some(Nodes.Value(a))), Nodes.Parenthesis(Some(Nodes.Value(b)));
    assert [tb] + [] == [tb] && [ta] + [tb] == [ta, tb];
    assert UnfoldAll(arena, [3], 4) == Some([Nodes.Parenthesis(Some(Nodes.Value(b)))]);
    assert UnfoldAll(arena, [1, 3], 4) ==
      Some([Nodes.Parenthesis(Some(Nodes.Value(a))), Nodes.Parenthesis(Some(Nodes.Value(b)))]);
  }

  /** Evaluating the tree of `f(a,b)` hands `f` the values `[a, b]`, in the
      order they were written. */
  lemma CallEvaluatesInOrder(p: Parser.Parser, f: Function, a: Num, b: Num)
    requires p.functions == map["f" := f]
    ensures BuildOf(p, CallTokens(a, b)).Success?
    ensures TreeOf(BuildOf(p, CallTokens(a, b)).value).Some?
    ensures Nodes.Evaluate(TreeOf(BuildOf(p, CallTokens(a, b)).value).value) == Nodes.Applied(f.mapping([a, b]))
  {
    CallArguments(p, f, a, b);
    var ta, tb := Nodes.Parenthesis(Some(Nodes.Value(a))), Nodes.Parenthesis(Some(Nodes.Value(b)));
    Nodes.ParenthesisIsTransparent(Nodes.Value(a));
    Nodes.ParenthesisIsTransparent(Nodes.Value(b));
    Nodes.CallReceivesArguments(f, [ta, tb], [a, b]);
  }
}
