/** `BuildSyntaxTree`: the parser's second pass, which turns a preprocessed
    token list into a syntax tree using a single stack of nodes, `views`.
    A node is an object shared between the stack and its parent, so a write
    made through the stack is seen from the root. Here the nodes live in an
    arena, a sequence in which every node is referred to by its index; the
    stack holds indices, and writing a node's field replaces the arena entry. */
module TreeBuilder {
  import opened Common
  import opened Tokens
  import opened Wrappers
  import Parser
  import Nodes

  /** A node under construction; its links are arena indices. A call's
      arguments are listed bottom of its argument stack first. */
  datatype Node =
    | ValueNode(value: Num)
    | OperationNode(op: Operator, left: Option<nat>, right: Option<nat>)
    | CallNode(fn: Function, arguments: seq<nat>)
    | ParenthesisNode(child: Option<nat>)

  /** The nodes created so far and the `views` stack, top last. */
  datatype State = State(arena: seq<Node>, views: seq<nat>)

  /** A finished build: every node created, and the index of the root. */
  datatype Graph = Graph(arena: seq<Node>, root: nat)

  function Last(s: seq<nat>): nat
    requires |s| > 0
  {
    s[|s| - 1]
  }

  /** Every link of `node` names one of the first `n` nodes. */
  predicate Linked(node: Node, n: nat) {
    match node
    case ValueNode(_) => true
    case OperationNode(_, left, right) => (left.Some? ==> left.value < n) && (right.Some? ==> right.value < n)
    case CallNode(_, arguments) => forall k | 0 <= k < |arguments| :: arguments[k] < n
    case ParenthesisNode(child) => child.Some? ==> child.value < n
  }

  /** Every index on the stack and in every link names a node of the arena. */
  predicate Valid(s: State) {
    (forall k | 0 <= k < |s.views| :: s.views[k] < |s.arena|)
    && forall k | 0 <= k < |s.arena| :: Linked(s.arena[k], |s.arena|)
  }

  // ---------------------------------------------------------------------------
  // Hanging a new node under the top of the stack

  /** The top node once the new node `n` is hung under it: as a parenthesis's
      child, as an operation's right operand or, when `calls` holds, pushed
      onto a function call's arguments. Anything else is an internal error. */
  function Nested(parent: Node, n: nat, calls: bool): (r: Result<Node>)
    ensures r.Success? <==> parent.ParenthesisNode? || parent.OperationNode? || (calls && parent.CallNode?)
    ensures r.Failure? ==> r.error == UnreachableCode
  {
    match parent
    case ParenthesisNode(_) => Success(ParenthesisNode(Some(n)))
    case OperationNode(op, left, _) => Success(OperationNode(op, left, Some(n)))
    case CallNode(fn, arguments) => if calls then Success(CallNode(fn, arguments + [n])) else Failure(UnreachableCode)
    case ValueNode(_) => Failure(UnreachableCode)
  }

  /** The node below a popped node once the new operation `n` takes the popped
      node's place in it: a call's last argument is replaced, a parenthesis's
      child is set and, when `operations` holds, an operation's right operand
      is set. Popping an empty argument stack fails. */
  function Replaced(parent: Node, n: nat, operations: bool): (r: Result<Node>)
    ensures r.Success? <==>
      parent.ParenthesisNode? || (operations && parent.OperationNode?) || (parent.CallNode? && |parent.arguments| > 0)
    ensures r.Failure? ==> r.error == (if parent.CallNode? then EmptyStack else UnreachableCode)
  {
    match parent
    case CallNode(fn, arguments) =>
      if |arguments| == 0 then Failure(EmptyStack) else Success(CallNode(fn, arguments[..|arguments| - 1] + [n]))
    case ParenthesisNode(_) => Success(ParenthesisNode(Some(n)))
    case OperationNode(op, left, _) =>
      if operations then Success(OperationNode(op, left, Some(n))) else Failure(UnreachableCode)
    case ValueNode(_) => Failure(UnreachableCode)
  }

  // ---------------------------------------------------------------------------
  // One token

  /** A value, a function call or a parenthesis: the new node is added to the
      arena, hung under the top of the stack if there is one, and pushed,
      except that a value that becomes an operation's right operand is not. */
  function Placed(s: State, node: Node, calls: bool): (r: Result<State>)
    requires Valid(s) && !node.OperationNode? && Linked(node, |s.arena|)
    ensures r.Success? ==> Valid(r.value)
  {
    var n := |s.arena|;
    var arena := s.arena + [node];
    if |s.views| == 0 then Success(State(arena, [n]))
    else
      var top := Last(s.views);
      var parent :- Nested(arena[top], n, calls);
      var pushed := !(node.ValueNode? && parent.OperationNode?);
      Success(State(arena[top := parent], if pushed then s.views + [n] else s.views))
  }

  /** After the node on top of the stack was popped and became the left
      operand of the new operation `n`, the operation takes its place in the
      node below, if any, and is pushed. */
  function Lowered(arena: seq<Node>, views: seq<nat>, n: nat, operations: bool): (r: Result<State>)
    requires Valid(State(arena, views)) && n < |arena|
    ensures r.Success? ==> Valid(r.value)
  {
    if |views| == 0 then Success(State(arena, [n]))
    else
      var top := Last(views);
      var parent :- Replaced(arena[top], n, operations);
      Success(State(arena[top := parent], views + [n]))
  }

  /** An operator: the operation is looked up by its symbol, then placed by
      the kind of node on top of the stack. Above an operation of lower
      precedence it takes that operation's right operand as its own left and
      becomes its right operand; otherwise the top is popped as its left
      operand. */
  function OnOperator(p: Parser.Parser, s: State, t: Token): (r: Result<State>)
    requires Valid(s) && t.OperatorSymbol?
    ensures r.Success? ==> Valid(r.value)
  {
    if t.symbol !in p.operators then Failure(SyntaxError(t.pos, t.Length()))
    else if |s.views| == 0 then Failure(EmptyStack)
    else
      var op := p.operators[t.symbol];
      var n := |s.arena|;
      var top := Last(s.views);
      var below := s.views[..|s.views| - 1];
      match s.arena[top]
      case OperationNode(parent, left, right) =>
        if op.precedence > parent.precedence then
          Success(State(s.arena[top := OperationNode(parent, left, Some(n))] + [OperationNode(op, right, None)], s.views + [n]))
        else Lowered(s.arena + [OperationNode(op, Some(top), None)], below, n, false)
      case ValueNode(_) => Lowered(s.arena + [OperationNode(op, Some(top), None)], below, n, false)
      case _ => Lowered(s.arena + [OperationNode(op, Some(top), None)], below, n, true)
  }

  /** The node stops the unwinding of the stack: a function call, or also a
      parenthesis when `parentheses` holds. */
  predicate Stops(node: Node, parentheses: bool) {
    node.CallNode? || (parentheses && node.ParenthesisNode?)
  }

  /** The stack once nodes that do not stop it are popped from its top. */
  function Unwound(arena: seq<Node>, views: seq<nat>, parentheses: bool): (r: seq<nat>)
    requires forall k | 0 <= k < |views| :: views[k] < |arena|
    ensures |r| <= |views| && r == views[..|r|]
    ensures |r| > 0 ==> Stops(arena[Last(r)], parentheses)
    ensures forall k | |r| <= k < |views| :: !Stops(arena[views[k]], parentheses)
    decreases |views|
  {
    if |views| == 0 || Stops(arena[Last(views)], parentheses) then views
    else Unwound(arena, views[..|views| - 1], parentheses)
  }

  /** A closing parenthesis: the stack is unwound to the innermost call or
      parenthesis, which is then popped too unless it is the last node left. */
  function OnClosing(s: State): (r: State)
    requires Valid(s)
    ensures Valid(r)
  {
    var views := Unwound(s.arena, s.views, true);
    State(s.arena, if |views| > 1 then views[..|views| - 1] else views)
  }

  /** A comma: the stack is unwound to the innermost call, which gets a new
      empty parenthesis as its next argument; the parenthesis is pushed.
      With no call on the stack, `Peek` fails on the emptied stack. */
  function OnComma(s: State): (r: Result<State>)
    requires Valid(s)
    ensures r.Success? ==> Valid(r.value)
  {
    var views := Unwound(s.arena, s.views, false);
    if |views| == 0 then Failure(EmptyStack)
    else
      var top := Last(views);
      var n := |s.arena|;
      var call := s.arena[top];
      Success(State((s.arena + [ParenthesisNode(None)])[top := CallNode(call.fn, call.arguments + [n])], views + [n]))
  }

  /** One iteration of the token loop. A constant's value is looked up first,
      as a plain dictionary access; a function or an operator that is not
      registered is reported at its token. A plain `Name` has no branch. */
  function Step(p: Parser.Parser, s: State, t: Token): (r: Result<State>)
    requires Valid(s)
    ensures r.Success? ==> Valid(r.value)
    ensures t.NumberName? && t.name !in p.constants ==> r == Failure(KeyNotFound)
    ensures t.NumberSymbol? && [t.symbol] !in p.constants ==> r == Failure(KeyNotFound)
    ensures t.FunctionName? && t.name !in p.functions ==> r == Failure(SyntaxError(t.pos, |t.name|))
    ensures t.OperatorSymbol? && t.symbol !in p.operators ==> r == Failure(SyntaxError(t.pos, 1))
    ensures t.Name? ==> r == Failure(UnreachableCode)
  {
    match t
    case Number(value, _, _) => Placed(s, ValueNode(value), true)
    case NumberName(name, _) =>
      if name !in p.constants then Failure(KeyNotFound) else Placed(s, ValueNode(p.constants[name].value), true)
    case NumberSymbol(symbol, _) =>
      if [symbol] !in p.constants then Failure(KeyNotFound) else Placed(s, ValueNode(p.constants[[symbol]].value), true)
    case FunctionName(name, _) =>
      if name !in p.functions then Failure(SyntaxError(t.pos, t.Length()))
      else Placed(s, CallNode(p.functions[name], []), false)
    case OperatorSymbol(_, _) => OnOperator(p, s, t)
    case OpeningParenthesis(_) => Placed(s, ParenthesisNode(None), true)
    case ClosingParenthesis(_) => Success(OnClosing(s))
    case Comma(_) => OnComma(s)
    case Name(_, _) => Failure(UnreachableCode)
  }

  /** The state after the tokens `tokens[..n]`. */
  function Built(p: Parser.Parser, tokens: seq<Token>, n: nat): (r: Result<State>)
    requires n <= |tokens|
    ensures r.Success? ==> Valid(r.value)
    decreases n, 1
  {
    if n == 0 then Success(State([], [])) else BuiltThrough(p, tokens, n)
  }

  /** The state once `tokens[n - 1]` is added as well. */
  function BuiltThrough(p: Parser.Parser, tokens: seq<Token>, n: nat): (r: Result<State>)
    requires 0 < n <= |tokens|
    ensures r.Success? ==> Valid(r.value)
    decreases n, 0
  {
    var s :- Built(p, tokens, n - 1);
    Step(p, s, tokens[n - 1])
  }

  /** One more token is one more step, once the tokens before it succeeded. */
  lemma BuiltStep(p: Parser.Parser, tokens: seq<Token>, i: nat)
    requires i < |tokens| && Built(p, tokens, i).Success?
    ensures Built(p, tokens, i + 1) == Step(p, Built(p, tokens, i).value, tokens[i])
  {
    assert Built(p, tokens, i + 1) == BuiltThrough(p, tokens, i + 1);
  }

  /** `BuildSyntaxTree(tokens)`: the node at the bottom of the stack, which
      `views.Last()` returns since a stack enumerates from its top. */
  function BuildOf(p: Parser.Parser, tokens: seq<Token>): (r: Result<Graph>)
    ensures r.Success? ==> r.value.root < |r.value.arena|
  {
    var s :- Built(p, tokens, |tokens|);
    if |s.views| == 0 then Failure(EmptyStack) else Success(Graph(s.arena, s.views[0]))
  }

  lemma {:induction false} BuiltFailureSticks(p: Parser.Parser, tokens: seq<Token>, i: nat, j: nat)
    requires i <= j <= |tokens| && Built(p, tokens, i).Failure?
    ensures Built(p, tokens, j) == Built(p, tokens, i)
    decreases j
  {
    if i < j {
      BuiltFailureSticks(p, tokens, i, j - 1);
      assert Built(p, tokens, j) == BuiltThrough(p, tokens, j);
    }
  }

  // ---------------------------------------------------------------------------
  // The builder as methods over the arena and stack values

  /** The value, function-name and opening-parenthesis branches: the new node
      is added to the arena and the entry of the top of the stack is replaced
      by the top with its link to the new node set. */
  method Place(arena: seq<Node>, views: seq<nat>, node: Node, calls: bool) returns (r: Result<State>)
    requires Valid(State(arena, views)) && !node.OperationNode? && Linked(node, |arena|)
    ensures r == Placed(State(arena, views), node, calls)
  {
    var n := |arena|;
    var nodes := arena + [node];
    if |views| == 0 {
      return Success(State(nodes, [n]));
    }
    var top := Last(views);
    match nodes[top] {
      case ParenthesisNode(_) =>
        nodes := nodes[top := ParenthesisNode(Some(n))];
        return Success(State(nodes, views + [n]));
      case OperationNode(op, left, _) =>
        nodes := nodes[top := OperationNode(op, left, Some(n))];
        if node.ValueNode? {
          return Success(State(nodes, views));
        }
        return Success(State(nodes, views + [n]));
      case CallNode(fn, arguments) =>
        if !calls {
          return Failure(UnreachableCode);
        }
        nodes := nodes[top := CallNode(fn, arguments + [n])];
        return Success(State(nodes, views + [n]));
      case ValueNode(_) =>
        return Failure(UnreachableCode);
    }
  }

  /** The operator branch. */
  method AddOperation(p: Parser.Parser, arena: seq<Node>, views: seq<nat>, token: Token) returns (r: Result<State>)
    requires Valid(State(arena, views)) && token.OperatorSymbol?
    ensures r == OnOperator(p, State(arena, views), token)
  {
    if token.symbol !in p.operators {
      return Failure(SyntaxError(token.pos, token.Length()));
    }
    if |views| == 0 {
      return Failure(EmptyStack);
    }
    var op := p.operators[token.symbol];
    var n := |arena|;
    var nodes := arena + [OperationNode(op, None, None)];
    var stack := views;
    var top := Last(stack);
    var operations: bool;
    match nodes[top] {
      case OperationNode(parent, left, right) =>
        if op.precedence > parent.precedence {
          nodes := nodes[n := OperationNode(op, right, None)];
          nodes := nodes[top := OperationNode(parent, left, Some(n))];
          assert nodes == arena[top := OperationNode(parent, left, Some(n))] + [OperationNode(op, right, None)];
          return Success(State(nodes, stack + [n]));
        }
        operations := false;
      case ValueNode(_) =>
        operations := false;
      case _ =>
        operations := true;
    }
    nodes := nodes[n := OperationNode(op, Some(top), None)];
    assert nodes == arena + [OperationNode(op, Some(top), None)];
    stack := stack[..|stack| - 1];
    if |stack| > 0 {
      var below := Last(stack);
      match nodes[below] {
        case CallNode(fn, arguments) =>
          if |arguments| == 0 {
            return Failure(EmptyStack);
          }
          nodes := nodes[below := CallNode(fn, arguments[..|arguments| - 1] + [n])];
        case ParenthesisNode(_) =>
          nodes := nodes[below := ParenthesisNode(Some(n))];
        case OperationNode(o, left, _) =>
          if !operations {
            return Failure(UnreachableCode);
          }
          nodes := nodes[below := OperationNode(o, left, Some(n))];
        case ValueNode(_) =>
          return Failure(UnreachableCode);
      }
    } else {
      assert stack + [n] == [n];
    }
    return Success(State(nodes, stack + [n]));
  }

  /** The closing-parenthesis branch. */
  method CloseParenthesis(arena: seq<Node>, views: seq<nat>) returns (r: seq<nat>)
    requires Valid(State(arena, views))
    ensures State(arena, r) == OnClosing(State(arena, views))
  {
    var stack := views;
    while |stack| > 0 && !arena[Last(stack)].CallNode? && !arena[Last(stack)].ParenthesisNode?
      invariant |stack| <= |views| && stack == views[..|stack|]
      invariant Unwound(arena, stack, true) == Unwound(arena, views, true)
      decreases |stack|
    {
      stack := stack[..|stack| - 1];
    }
    if |stack| > 1 {
      stack := stack[..|stack| - 1];
    }
    return stack;
  }

  /** The comma branch. */
  method AddArgument(arena: seq<Node>, views: seq<nat>) returns (r: Result<State>)
    requires Valid(State(arena, views))
    ensures r == OnComma(State(arena, views))
  {
    var stack := views;
    while |stack| > 0 && !arena[Last(stack)].CallNode?
      invariant |stack| <= |views| && stack == views[..|stack|]
      invariant Unwound(arena, stack, false) == Unwound(arena, views, false)
      decreases |stack|
    {
      stack := stack[..|stack| - 1];
    }
    if |stack| == 0 {
      return Failure(EmptyStack);
    }
    var top := Last(stack);
    var n := |arena|;
    var nodes := arena + [ParenthesisNode(None)];
    nodes := nodes[top := CallNode(arena[top].fn, arena[top].arguments + [n])];
    return Success(State(nodes, stack + [n]));
  }

  /** The body of the token loop: dispatches on the kind of token. */
  method AddToken(p: Parser.Parser, arena: seq<Node>, views: seq<nat>, token: Token) returns (step: Result<State>)
    requires Valid(State(arena, views))
    ensures step == Step(p, State(arena, views), token)
  {
    match token {
      case Number(value, _, _) =>
        step := Place(arena, views, ValueNode(value), true);
      case NumberName(name, _) =>
        if name !in p.constants {
          step := Failure(KeyNotFound);
        } else {
          step := Place(arena, views, ValueNode(p.constants[name].value), true);
        }
      case NumberSymbol(symbol, _) =>
        if [symbol] !in p.constants {
          step := Failure(KeyNotFound);
        } else {
          step := Place(arena, views, ValueNode(p.constants[[symbol]].value), true);
        }
      case FunctionName(name, pos) =>
        if name !in p.functions {
          step := Failure(SyntaxError(pos, token.Length()));
        } else {
          step := Place(arena, views, CallNode(p.functions[name], []), false);
        }
      case OperatorSymbol(_, _) =>
        step := AddOperation(p, arena, views, token);
      case OpeningParenthesis(_) =>
        step := Place(arena, views, ParenthesisNode(None), true);
      case ClosingParenthesis(_) =>
        var stack := CloseParenthesis(arena, views);
        step := Success(State(arena, stack));
      case Comma(_) =>
        step := AddArgument(arena, views);
      case Name(_, _) =>
        step := Failure(UnreachableCode);
    }
  }

  method BuildSyntaxTree(p: Parser.Parser, tokens: seq<Token>) returns (r: Result<Graph>)
    ensures r == BuildOf(p, tokens)
  {
    var arena: seq<Node> := [];
    var views: seq<nat> := [];
    for i := 0 to |tokens|
      invariant Built(p, tokens, i) == Success(State(arena, views))
    {
      var step := AddToken(p, arena, views, tokens[i]);
      BuiltStep(p, tokens, i);
      if step.Failure? {
        BuiltFailureSticks(p, tokens, i + 1, |tokens|);
        return Failure(step.error);
      }
      arena, views := step.value.arena, step.value.views;
    }
    if |views| == 0 {
      return Failure(EmptyStack);
    }
    return Success(Graph(arena, views[0]));
  }
}
