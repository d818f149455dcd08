/** The parser's registry: the functions, operators and constants it knows,
    each kept in a dictionary under its name or symbol. Building it rejects
    duplicate keys and constants that would be mistaken for a function or an
    operator. */
module Parser {
  import opened Common
  import opened Wrappers

  /** The three dictionaries a parser holds once constructed. */
  datatype Parser = Parser(
    functions: map<string, Function>,
    operators: map<char, Operator>,
    constants: map<string, NumberConstant>)

  // ---------------------------------------------------------------------------
  // ToDictionary

  /** `xs.ToDictionary(key)`: elements are keyed in order; the first key that
      fails, or the first key met twice, stops the whole construction. */
  function Keyed<T, K>(xs: seq<T>, key: T -> Result<K>): Result<map<K, T>>
    decreases |xs|
  {
    if |xs| == 0 then Success(map[])
    else
      var m :- Keyed(xs[..|xs| - 1], key);
      var k :- key(xs[|xs| - 1]);
      if k in m then Failure(DuplicateKey) else Success(m[k := xs[|xs| - 1]])
  }

  /** The elements of `xs` all have keys, and no two the same. */
  ghost predicate KeysDistinct<T, K>(xs: seq<T>, key: T -> Result<K>) {
    (forall i | 0 <= i < |xs| :: key(xs[i]).Success?)
    && forall i, j | 0 <= i < j < |xs| :: key(xs[i]).value != key(xs[j]).value
  }

  /** The dictionary holds exactly the elements of `xs`, each under its key. */
  ghost predicate Indexes<T, K>(m: map<K, T>, xs: seq<T>, key: T -> Result<K>)
    requires forall i | 0 <= i < |xs| :: key(xs[i]).Success?
  {
    (forall i | 0 <= i < |xs| :: key(xs[i]).value in m && m[key(xs[i]).value] == xs[i])
    && forall k | k in m :: exists i | 0 <= i < |xs| :: key(xs[i]).value == k
  }

  /** The error `Keyed` stops with, once `xs[..n]` is fine and `xs[n]` is not. */
  ghost predicate FailsFirstAt<T, K>(xs: seq<T>, key: T -> Result<K>, n: nat, e: Error)
    requires n < |xs|
  {
    KeysDistinct(xs[..n], key)
    && (if key(xs[n]).Failure? then e == key(xs[n]).error
        else e == DuplicateKey && exists i | 0 <= i < n :: key(xs[i]).value == key(xs[n]).value)
  }

  lemma {:induction false} KeyedMeaning<T, K>(xs: seq<T>, key: T -> Result<K>)
    ensures Keyed(xs, key).Success? <==> KeysDistinct(xs, key)
    ensures Keyed(xs, key).Success? ==> Indexes(Keyed(xs, key).value, xs, key)
    ensures Keyed(xs, key).Failure? ==> exists n | 0 <= n < |xs| :: FailsFirstAt(xs, key, n, Keyed(xs, key).error)
    decreases |xs|
  {
    if |xs| > 0 {
      var init := xs[..|xs| - 1];
      var last := xs[|xs| - 1];
      KeyedMeaning(init, key);
      assert xs == init + [last];
      KeyedLast(init, last, key);
    }
  }

  /** The step of `KeyedMeaning`: what holds of `init` holds of `init + [last]`. */
  lemma KeyedLast<T, K>(init: seq<T>, last: T, key: T -> Result<K>)
    requires Keyed(init, key).Success? <==> KeysDistinct(init, key)
    requires Keyed(init, key).Success? ==> Indexes(Keyed(init, key).value, init, key)
    requires Keyed(init, key).Failure? ==> exists n | 0 <= n < |init| :: FailsFirstAt(init, key, n, Keyed(init, key).error)
    ensures Keyed(init + [last], key).Success? <==> KeysDistinct(init + [last], key)
    ensures Keyed(init + [last], key).Success? ==> Indexes(Keyed(init + [last], key).value, init + [last], key)
    ensures Keyed(init + [last], key).Failure? ==>
      exists n | 0 <= n < |init + [last]| :: FailsFirstAt(init + [last], key, n, Keyed(init + [last], key).error)
  {
    var r := Keyed(init, key);
    if r.Failure? {
      var n :| 0 <= n < |init| && FailsFirstAt(init, key, n, r.error);
      KeyedEarlierFailure(init, last, key, n);
    } else if key(last).Failure? {
      KeyedKeyFails(init, last, key);
    } else if key(last).value in r.value {
      KeyedRepeats(init, last, key);
    } else {
      KeyedExtends(init, last, key);
    }
  }

  /** A failure among the earlier elements is kept when one more is added. */
  lemma KeyedEarlierFailure<T, K>(init: seq<T>, last: T, key: T -> Result<K>, n: nat)
    requires Keyed(init, key).Failure? && n < |init| && FailsFirstAt(init, key, n, Keyed(init, key).error)
    requires !KeysDistinct(init, key)
    ensures Keyed(init + [last], key) == Keyed(init, key)
    ensures FailsFirstAt(init + [last], key, n, Keyed(init, key).error)
    ensures !KeysDistinct(init + [last], key)
  {
    var xs := init + [last];
    assert xs[..|xs| - 1] == init;
    assert xs[..n] == init[..n];
    assert forall i | 0 <= i < |init| :: xs[i] == init[i];
  }

  /** An element without a key stops the construction with the key's error. */
  lemma KeyedKeyFails<T, K>(init: seq<T>, last: T, key: T -> Result<K>)
    requires Keyed(init, key).Success? && KeysDistinct(init, key) && key(last).Failure?
    ensures Keyed(init + [last], key) == Failure(key(last).error)
    ensures FailsFirstAt(init + [last], key, |init|, key(last).error)
    ensures !KeysDistinct(init + [last], key)
  {
    var xs := init + [last];
    assert xs[..|xs| - 1] == init;
    assert xs[|init|] == last;
  }

  /** An element whose key is already present stops the construction. */
  lemma KeyedRepeats<T, K>(init: seq<T>, last: T, key: T -> Result<K>)
    requires Keyed(init, key).Success? && KeysDistinct(init, key) && Indexes(Keyed(init, key).value, init, key)
    requires key(last).Success? && key(last).value in Keyed(init, key).value
    ensures Keyed(init + [last], key) == Failure(DuplicateKey)
    ensures FailsFirstAt(init + [last], key, |init|, DuplicateKey)
    ensures !KeysDistinct(init + [last], key)
  {
    var xs := init + [last];
    assert xs[..|xs| - 1] == init;
    var i :| 0 <= i < |init| && key(init[i]).value == key(last).value;
    assert xs[i] == init[i] && xs[|init|] == last;
  }

  /** A new key extends the dictionary of the earlier elements. */
  lemma KeyedExtends<T, K>(init: seq<T>, last: T, key: T -> Result<K>)
    requires Keyed(init, key).Success? && KeysDistinct(init, key) && Indexes(Keyed(init, key).value, init, key)
    requires key(last).Success? && key(last).value !in Keyed(init, key).value
    ensures Keyed(init + [last], key) == Success(Keyed(init, key).value[key(last).value := last])
    ensures KeysDistinct(init + [last], key) && Indexes(Keyed(init + [last], key).value, init + [last], key)
  {
    var xs := init + [last];
    var m0 := Keyed(init, key).value;
    var k0 := key(last).value;
    var m := m0[k0 := last];
    assert xs[..|xs| - 1] == init;
    assert Keyed(xs, key) == Success(m);
    forall i | 0 <= i < |xs|
      ensures key(xs[i]).Success? && key(xs[i]).value in m && m[key(xs[i]).value] == xs[i]
      ensures i < |init| ==> key(xs[i]).value in m0
    {
      if i < |init| {
        assert xs[i] == init[i];
        assert key(init[i]).value in m0;
      } else {
        assert xs[i] == last;
      }
    }
    forall i, j | 0 <= i < j < |xs|
      ensures key(xs[i]).value != key(xs[j]).value
    {
      if j < |init| {
        assert xs[i] == init[i] && xs[j] == init[j];
      }
    }
    forall k | k in m
      ensures exists i | 0 <= i < |xs| :: key(xs[i]).value == k
    {
      if k == k0 {
        assert key(xs[|init|]).value == k;
      } else {
        var i :| 0 <= i < |init| && key(init[i]).value == k;
        assert xs[i] == init[i];
      }
    }
  }

  /** Once a prefix fails, so does the whole sequence, with the same error. */
  lemma {:induction false} KeyedFailureSticks<T, K>(xs: seq<T>, key: T -> Result<K>, n: nat)
    requires n <= |xs| && Keyed(xs[..n], key).Failure?
    ensures Keyed(xs, key) == Keyed(xs[..n], key)
    decreases |xs|
  {
    if n < |xs| {
      assert xs[..|xs| - 1][..n] == xs[..n];
      KeyedFailureSticks(xs[..|xs| - 1], key, n);
    } else {
      assert xs[..n] == xs;
    }
  }

  /** `ToDictionary`, element by element. */
  method ToDictionary<T, K>(xs: seq<T>, key: T -> Result<K>) returns (r: Result<map<K, T>>)
    ensures r == Keyed(xs, key)
  {
    var dictionary: map<K, T> := map[];
    for i := 0 to |xs|
      invariant Keyed(xs[..i], key) == Success(dictionary)
    {
      assert xs[..i + 1][..i] == xs[..i];
      var k := key(xs[i]);
      if k.Failure? {
        KeyedFailureSticks(xs, key, i + 1);
        return Failure(k.error);
      }
      if k.value in dictionary {
        KeyedFailureSticks(xs, key, i + 1);
        return Failure(DuplicateKey);
      }
      dictionary := dictionary[k.value := xs[i]];
    }
    assert xs[..|xs|] == xs;
    return Success(dictionary);
  }

  // ---------------------------------------------------------------------------
  // The constructor

  function FunctionKey(f: Function): Result<string> { Success(f.name) }

  function OperatorKey(o: Operator): Result<char> { Success(o.symbol) }

  /** The key selector for constants: a constant whose identifier is not one
      character long may not be named like a function, and a one-character
      identifier may not be an operator's symbol. */
  function ConstantKey(functions: map<string, Function>, operators: map<char, Operator>, c: NumberConstant): Result<string> {
    if |c.identifier| != 1 then
      if c.identifier in functions then Failure(ConstantNamedLikeFunction(c.identifier)) else Success(c.identifier)
    else if c.identifier[0] in operators then Failure(ConstantNamedLikeOperator(c.identifier))
    else Success(c.identifier)
  }

  /** `new Parser(functions, operators, constants)`: functions are keyed
      first, then operators, then constants. */
  function ParserOf(functions: seq<Function>, operators: seq<Operator>, constants: seq<NumberConstant>): Result<Parser> {
    var fs :- Keyed(functions, FunctionKey);
    var os :- Keyed(operators, OperatorKey);
    var cs :- Keyed(constants, c => ConstantKey(fs, os, c));
    Success(Parser(fs, os, cs))
  }

  method NewParser(functions: seq<Function>, operators: seq<Operator>, constants: seq<NumberConstant>)
    returns (r: Result<Parser>)
    ensures r == ParserOf(functions, operators, constants)
  {
    var fs := ToDictionary(functions, FunctionKey);
    if fs.Failure? {
      return Failure(fs.error);
    }
    var os := ToDictionary(operators, OperatorKey);
    if os.Failure? {
      return Failure(os.error);
    }
    var functionTable, operatorTable := fs.value, os.value;
    var cs := ToDictionary(constants, c => ConstantKey(functionTable, operatorTable, c));
    if cs.Failure? {
      return Failure(cs.error);
    }
    return Success(Parser(functionTable, operatorTable, cs.value));
  }

  // ---------------------------------------------------------------------------
  // What construction promises

  /** The constant would be taken for a function or an operator. */
  ghost predicate Collides(functions: seq<Function>, operators: seq<Operator>, c: NumberConstant) {
    if |c.identifier| != 1 then exists i | 0 <= i < |functions| :: functions[i].name == c.identifier
    else exists i | 0 <= i < |operators| :: operators[i].symbol == c.identifier[0]
  }

  /** With the function and operator tables built, a constant gets its key
      exactly when it does not collide, and its key is its identifier. */
  lemma ConstantKeyMeaning(functions: seq<Function>, operators: seq<Operator>, c: NumberConstant)
    requires Keyed(functions, FunctionKey).Success? && Keyed(operators, OperatorKey).Success?
    ensures var r := ConstantKey(Keyed(functions, FunctionKey).value, Keyed(operators, OperatorKey).value, c);
      (r.Success? <==> !Collides(functions, operators, c)) && (r.Success? ==> r.value == c.identifier)
  {
    KeyedMeaning(functions, FunctionKey);
    KeyedMeaning(operators, OperatorKey);
    var fs := Keyed(functions, FunctionKey).value;
    var os := Keyed(operators, OperatorKey).value;
    if |c.identifier| != 1 && c.identifier in fs {
      var i :| 0 <= i < |functions| && FunctionKey(functions[i]).value == c.identifier;
    }
    if |c.identifier| == 1 && c.identifier[0] in os {
      var i :| 0 <= i < |operators| && OperatorKey(operators[i]).value == c.identifier[0];
    }
  }

  /** Construction succeeds exactly when no two functions share a name, no
      two operators share a symbol, no constant collides, and no two
      constants share an identifier. */
  lemma ParserSucceeds(functions: seq<Function>, operators: seq<Operator>, constants: seq<NumberConstant>)
    ensures ParserOf(functions, operators, constants).Success? <==>
      (forall i, j | 0 <= i < j < |functions| :: functions[i].name != functions[j].name)
      && (forall i, j | 0 <= i < j < |operators| :: operators[i].symbol != operators[j].symbol)
      && (forall i | 0 <= i < |constants| :: !Collides(functions, operators, constants[i]))
      && (forall i, j | 0 <= i < j < |constants| :: constants[i].identifier != constants[j].identifier)
  {
    KeyedMeaning(functions, FunctionKey);
    KeyedMeaning(operators, OperatorKey);
    var fs := Keyed(functions, FunctionKey);
    var os := Keyed(operators, OperatorKey);
    if fs.Success? && os.Success? {
      var key := c => ConstantKey(fs.value, os.value, c);
      KeyedMeaning(constants, key);
      forall i | 0 <= i < |constants|
        ensures (key(constants[i]).Success? <==> !Collides(functions, operators, constants[i]))
        ensures key(constants[i]).Success? ==> key(constants[i]).value == constants[i].identifier
      {
        ConstantKeyMeaning(functions, operators, constants[i]);
      }
    }
  }

  /** A constructed parser finds every function, operator and constant under
      its name, symbol or identifier, and holds nothing else. */
  lemma ParserIndexes(functions: seq<Function>, operators: seq<Operator>, constants: seq<NumberConstant>)
    requires ParserOf(functions, operators, constants).Success?
    ensures var p := ParserOf(functions, operators, constants).value;
      (forall i | 0 <= i < |functions| :: functions[i].name in p.functions && p.functions[functions[i].name] == functions[i])
      && (forall k | k in p.functions :: exists i | 0 <= i < |functions| :: functions[i].name == k)
    ensures var p := ParserOf(functions, operators, constants).value;
      (forall i | 0 <= i < |operators| :: operators[i].symbol in p.operators && p.operators[operators[i].symbol] == operators[i])
      && (forall k | k in p.operators :: exists i | 0 <= i < |operators| :: operators[i].symbol == k)
    ensures var p := ParserOf(functions, operators, constants).value;
      (forall i | 0 <= i < |constants| :: constants[i].identifier in p.constants && p.constants[constants[i].identifier] == constants[i])
      && (forall k | k in p.constants :: exists i | 0 <= i < |constants| :: constants[i].identifier == k)
  {
    KeyedMeaning(functions, FunctionKey);
    KeyedMeaning(operators, OperatorKey);
    var key := c => ConstantKey(Keyed(functions, FunctionKey).value, Keyed(operators, OperatorKey).value, c);
    KeyedMeaning(constants, key);
    forall i | 0 <= i < |constants|
      ensures key(constants[i]).Success? ==> key(constants[i]).value == constants[i].identifier
    {
      ConstantKeyMeaning(functions, operators, constants[i]);
    }
  }

  /** The tables are built in order: a repeated function name is reported
      before any operator or constant is looked at. Among the constants, the
      first one that collides or repeats an earlier identifier decides the
      error, and a collision is reported before a repetition. */
  lemma ConstantErrors(functions: seq<Function>, operators: seq<Operator>, constants: seq<NumberConstant>)
    requires Keyed(functions, FunctionKey).Success? && Keyed(operators, OperatorKey).Success?
    requires ParserOf(functions, operators, constants).Failure?
    ensures exists n | 0 <= n < |constants| ::
      (forall i | 0 <= i < n :: !Collides(functions, operators, constants[i]))
      && (forall i, j | 0 <= i < j < n :: constants[i].identifier != constants[j].identifier)
      && var e := ParserOf(functions, operators, constants).error;
         if Collides(functions, operators, constants[n]) then
           e == (if |constants[n].identifier| != 1 then ConstantNamedLikeFunction(constants[n].identifier)
                 else ConstantNamedLikeOperator(constants[n].identifier))
         else e == DuplicateKey && exists i | 0 <= i < n :: constants[i].identifier == constants[n].identifier
  {
    var fs := Keyed(functions, FunctionKey).value;
    var os := Keyed(operators, OperatorKey).value;
    var key := c => ConstantKey(fs, os, c);
    KeyedMeaning(constants, key);
    var n :| 0 <= n < |constants| && FailsFirstAt(constants, key, n, ParserOf(functions, operators, constants).error);
    ConstantFailsAt(functions, operators, constants, n, ParserOf(functions, operators, constants).error);
  }

  /** The error of the constant table, read at the constant that fails first. */
  lemma ConstantFailsAt(functions: seq<Function>, operators: seq<Operator>, constants: seq<NumberConstant>, n: nat, e: Error)
    requires Keyed(functions, FunctionKey).Success? && Keyed(operators, OperatorKey).Success?
    requires n < |constants|
    requires FailsFirstAt(constants, c => ConstantKey(Keyed(functions, FunctionKey).value, Keyed(operators, OperatorKey).value, c), n, e)
    ensures forall i | 0 <= i < n :: !Collides(functions, operators, constants[i])
    ensures forall i, j | 0 <= i < j < n :: constants[i].identifier != constants[j].identifier
    ensures if Collides(functions, operators, constants[n]) then
        e == (if |constants[n].identifier| != 1 then ConstantNamedLikeFunction(constants[n].identifier)
              else ConstantNamedLikeOperator(constants[n].identifier))
      else e == DuplicateKey && exists i | 0 <= i < n :: constants[i].identifier == constants[n].identifier
  {
    var key := c => ConstantKey(Keyed(functions, FunctionKey).value, Keyed(operators, OperatorKey).value, c);
    forall i | 0 <= i <= n
      ensures (key(constants[i]).Success? <==> !Collides(functions, operators, constants[i]))
      ensures key(constants[i]).Success? ==> key(constants[i]).value == constants[i].identifier
    {
      ConstantKeyMeaning(functions, operators, constants[i]);
    }
    assert forall i | 0 <= i < n :: constants[..n][i] == constants[i];
  }

  /** Repeated function names are reported first, whatever else is wrong. */
  lemma FunctionsCheckedFirst(functions: seq<Function>, operators: seq<Operator>, constants: seq<NumberConstant>, i: nat, j: nat)
    requires i < j < |functions| && functions[i].name == functions[j].name
    ensures ParserOf(functions, operators, constants) == Failure(DuplicateKey)
  {
    KeyedMeaning(functions, FunctionKey);
    var n :| 0 <= n < |functions| && FailsFirstAt(functions, FunctionKey, n, Keyed(functions, FunctionKey).error);
  }

  /** A one-character constant is only compared with operator symbols, so it
      may share its name with a one-letter function. */
  lemma OneLetterConstantBesideFunction(f: Function, v: Num)
    requires f.name == "e"
    ensures ParserOf([f], [], [NumberConstant("e", v)]).Success?
  {
    ParserSucceeds([f], [], [NumberConstant("e", v)]);
  }
}
