/** The syntax-tree nodes and their evaluation. A node's fields are written
    only while the parser builds the tree; evaluation reads them and changes
    nothing, so a node is modelled here as the value it holds once built. */
module Nodes {
  import opened Common
  import opened Wrappers

  /** `Value`, `Operation`, `FunctionCall` and `Parenthesis`. An operand or a
      child the builder never filled in is `None`. A call's arguments are
      listed in the order they were pushed, which is the order `Reverse()`
      hands them to the function. */
  datatype Tree =
    | Value(value: Num)
    | Operation(op: Operator, left: Option<Tree>, right: Option<Tree>)
    | FunctionCall(fn: Function, arguments: seq<Tree>)
    | Parenthesis(child: Option<Tree>)

  /** A caller mapping's outcome as the node reports it: its exception, if
      any, passes through unchanged. */
  function Applied(o: Outcome): (r: Result<Num>)
    ensures r.Success? <==> o.Returned?
    ensures r.Success? ==> r.value == o.value
    ensures r.Failure? ==> r.error == MappingFailed(o.reason)
  {
    match o
    case Returned(v) => Success(v)
    case Threw(reason) => Failure(MappingFailed(reason))
  }

  /** Every node in `t` has all of its parts: both operands, a child, at
      least one argument. */
  predicate Complete(t: Tree)
    decreases t
  {
    match t
    case Value(_) => true
    case Operation(_, left, right) =>
      left.Some? && right.Some? && Complete(left.value) && Complete(right.value)
    case FunctionCall(_, arguments) =>
      |arguments| > 0 && forall k | 0 <= k < |arguments| :: Complete(arguments[k])
    case Parenthesis(child) => child.Some? && Complete(child.value)
  }

  /** Every mapping in `t` returns whatever it is given. */
  ghost predicate Total(t: Tree)
    decreases t
  {
    match t
    case Value(_) => true
    case Operation(op, left, right) =>
      (forall a, b :: op.mapping(a, b).Returned?)
      && (left.Some? ==> Total(left.value)) && (right.Some? ==> Total(right.value))
    case FunctionCall(fn, arguments) =>
      (forall vs :: fn.mapping(vs).Returned?)
      && forall k | 0 <= k < |arguments| :: Total(arguments[k])
    case Parenthesis(child) => child.Some? ==> Total(child.value)
  }

  /** `Evaluate()`. A node missing a part fails its internal-consistency
      check before evaluating anything; operands are evaluated left first. */
  function Evaluate(t: Tree): (r: Result<Num>)
    ensures r.Success? ==> Complete(t)
    ensures r.Failure? ==> r.error == InconsistentNode || r.error.MappingFailed?
    decreases t
  {
    match t
    case Value(value) => Success(value)
    case Operation(op, left, right) =>
      if left.None? || right.None? then Failure(InconsistentNode)
      else
        var a :- Evaluate(left.value);
        var b :- Evaluate(right.value);
        Applied(op.mapping(a, b))
    case FunctionCall(fn, arguments) =>
      if |arguments| == 0 then Failure(InconsistentNode)
      else
        var values :- EvaluateAll(arguments);
        Applied(fn.mapping(values))
    case Parenthesis(child) =>
      if child.None? then Failure(InconsistentNode) else Evaluate(child.value)
  }

  /** `Select(e => e.Evaluate()).ToList()`: the trees' values in order, or the
      failure of the first tree that fails. */
  function EvaluateAll(ts: seq<Tree>): (r: Result<seq<Num>>)
    ensures r.Success? ==> |r.value| == |ts|
    ensures r.Success? ==> forall k | 0 <= k < |ts| :: Evaluate(ts[k]) == Success(r.value[k])
    ensures r.Failure? ==> exists k | 0 <= k < |ts| ::
      Evaluate(ts[k]) == Failure(r.error) && forall j | 0 <= j < k :: Evaluate(ts[j]).Success?
    decreases ts
  {
    if |ts| == 0 then Success([])
    else
      var first :- Evaluate(ts[0]);
      var rest :- EvaluateAll(ts[1..]);
      assert forall k | 1 <= k < |ts| :: ts[k] == ts[1..][k - 1];
      Success([first] + rest)
  }

  // ---------------------------------------------------------------------------
  // What evaluation promises

  /** A value node evaluates to exactly the number it was built with. */
  lemma ValueEvaluates(v: Num)
    ensures Evaluate(Value(v)) == Success(v)
  {
  }

  /** A node missing a part fails its internal-consistency check, whatever
      its other parts hold. */
  lemma MissingPartsInconsistent(op: Operator, fn: Function, t: Option<Tree>)
    ensures Evaluate(Operation(op, None, t)) == Failure(InconsistentNode)
    ensures Evaluate(Operation(op, t, None)) == Failure(InconsistentNode)
    ensures Evaluate(FunctionCall(fn, [])) == Failure(InconsistentNode)
    ensures Evaluate(Parenthesis(None)) == Failure(InconsistentNode)
  {
  }

  /** Wrapping a tree in parentheses changes neither its value nor its failure. */
  lemma ParenthesisIsTransparent(t: Tree)
    ensures Evaluate(Parenthesis(Some(t))) == Evaluate(t)
  {
  }

  /** An operation hands its operator the left operand's value first; a
      failure of the left operand wins over anything on the right. */
  lemma OperationOrder(op: Operator, left: Tree, right: Tree)
    ensures Evaluate(left).Failure? ==> Evaluate(Operation(op, Some(left), Some(right))) == Evaluate(left)
    ensures Evaluate(left).Success? && Evaluate(right).Failure? ==>
      Evaluate(Operation(op, Some(left), Some(right))) == Evaluate(right)
    ensures Evaluate(left).Success? && Evaluate(right).Success? ==>
      Evaluate(Operation(op, Some(left), Some(right))) == Applied(op.mapping(Evaluate(left).value, Evaluate(right).value))
  {
  }

  /** A function receives one value per argument, in the order the arguments
      were pushed, and does not check how many it gets. */
  lemma CallReceivesArguments(fn: Function, arguments: seq<Tree>, values: seq<Num>)
    requires |arguments| > 0 && |values| == |arguments|
    requires forall k | 0 <= k < |arguments| :: Evaluate(arguments[k]) == Success(values[k])
    ensures Evaluate(FunctionCall(fn, arguments)) == Applied(fn.mapping(values))
  {
    assert EvaluateAll(arguments).value == values;
  }

  /** In a complete tree the internal-consistency check never fires: the only
      possible failure is a mapping's own. */
  lemma {:induction false} CompleteIsConsistent(t: Tree)
    requires Complete(t)
    ensures Evaluate(t).Failure? ==> Evaluate(t).error.MappingFailed?
    decreases t
  {
    match t
    case Value(_) =>
    case Operation(_, left, right) =>
      CompleteIsConsistent(left.value);
      CompleteIsConsistent(right.value);
    case FunctionCall(_, arguments) =>
      var r := EvaluateAll(arguments);
      if r.Failure? {
        var k :| 0 <= k < |arguments| && Evaluate(arguments[k]) == Failure(r.error);
        CompleteIsConsistent(arguments[k]);
      }
    case Parenthesis(child) =>
      CompleteIsConsistent(child.value);
  }

  /** A complete tree whose mappings never throw always has a value, and a
      tree that has a value is complete. */
  lemma {:induction false} CompleteAndTotalEvaluates(t: Tree)
    requires Complete(t) && Total(t)
    ensures Evaluate(t).Success?
    decreases t
  {
    match t
    case Value(_) =>
    case Operation(_, left, right) =>
      CompleteAndTotalEvaluates(left.value);
      CompleteAndTotalEvaluates(right.value);
    case FunctionCall(_, arguments) =>
      var r := EvaluateAll(arguments);
      if r.Failure? {
        var k :| 0 <= k < |arguments| && Evaluate(arguments[k]) == Failure(r.error);
        CompleteAndTotalEvaluates(arguments[k]);
      }
    case Parenthesis(child) =>
      CompleteAndTotalEvaluates(child.value);
  }
}
