/** What the preprocessor promises: the shape of its output, the order of its
    checks, and the meaning of its three stacks. */
module PreprocessorProperties {
  import opened Common
  import opened Tokens
  import opened Preprocessor

  // ---------------------------------------------------------------------------
  // Output shape and the order of the positional checks

  lemma {:induction false} ScanShape(tokens: seq<Token>, i: nat)
    requires i < |tokens| && ScanState(tokens, i).Success?
    ensures |ScanState(tokens, i).value.result| == i
    ensures forall k | 0 <= k < i ::
      !Forbidden(tokens[k], tokens[k + 1]) && ScanState(tokens, i).value.result[k] == Converted(tokens[k], tokens[k + 1])
    decreases i
  {
    if i > 0 {
      ScanShape(tokens, i - 1);
    }
  }

  /** On success the output has one token per input token, in order: every
      token but the last is kept, except that a name becomes a function name
      before an opening parenthesis and a constant name otherwise; the last
      token is kept as it is, even a name. No forbidden pair was present, the
      first token can start an expression and the last can end one. */
  lemma PreprocessShape(tokens: seq<Token>)
    requires PreprocessOf(tokens).Success?
    ensures var out := PreprocessOf(tokens).value;
      |out| == |tokens|
      && (forall k | 0 <= k < |tokens| - 1 :: out[k] == Converted(tokens[k], tokens[k + 1]))
      && out[|tokens| - 1] == tokens[|tokens| - 1]
    ensures forall k | 0 <= k < |tokens| - 1 :: !Forbidden(tokens[k], tokens[k + 1])
    ensures StartsOperand(tokens[0])
    ensures |tokens| > 1 ==> EndsOperand(tokens[|tokens| - 1])
  {
    if |tokens| > 1 {
      ScanShape(tokens, |tokens| - 1);
    }
  }

  /** A single token that may start an expression comes back unchanged, a
      lone name included. */
  lemma SingleToken(t: Token)
    requires StartsOperand(t)
    ensures PreprocessOf([t]) == Success([t])
  {
  }

  /** The boundary checks: an empty list fails at `tokens[0]`, a bad first
      token is reported first, and a bad last token is reported once the pair
      scan is through. */
  lemma Boundaries(tokens: seq<Token>)
    ensures tokens == [] ==> PreprocessOf(tokens) == Failure(IndexOutOfRange)
    ensures tokens != [] && !StartsOperand(tokens[0]) ==>
      PreprocessOf(tokens) == Failure(SyntaxError(tokens[0].pos, tokens[0].Length()))
    ensures (1 < |tokens| && StartsOperand(tokens[0]) && ScanState(tokens, |tokens| - 1).Success?
             && !EndsOperand(tokens[|tokens| - 1])) ==>
      PreprocessOf(tokens) == Failure(SyntaxError(tokens[|tokens| - 1].pos, tokens[|tokens| - 1].Length()))
  {
  }

  /** Pairs are checked in order: the first forbidden pair the scan meets is
      reported at its second token. */
  lemma ForbiddenPairReported(tokens: seq<Token>, k: nat)
    requires k + 1 < |tokens| && StartsOperand(tokens[0])
    requires ScanState(tokens, k).Success? && Forbidden(tokens[k], tokens[k + 1])
    ensures PreprocessOf(tokens) == Failure(SyntaxError(tokens[k + 1].pos, tokens[k + 1].Length()))
  {
    ScanOutcome(tokens, k + 1);
    ScanFailureReported(tokens, k + 1);
  }

  // ---------------------------------------------------------------------------
  // Parentheses, stated without the stacks
  //
  // Each recursive function below is split in two, `F` and `FThrough`, so
  // that a mention of `F` unfolds only one step; its defining equations are
  // the step lemmas that follow it.

  /** The opening parentheses among `tokens[..n]` that nothing in `tokens[..n]`
      closes, by index, innermost last. */
  function Unmatched(tokens: seq<Token>, n: nat): (r: seq<nat>)
    requires n <= |tokens|
    ensures |r| <= n
    decreases n, 1
  {
    if n == 0 then [] else UnmatchedThrough(tokens, n)
  }

  /** How `tokens[n - 1]` changes the unmatched parentheses before it. */
  function UnmatchedThrough(tokens: seq<Token>, n: nat): (r: seq<nat>)
    requires 0 < n <= |tokens|
    ensures |r| <= n
    decreases n, 0
  {
    var u := Unmatched(tokens, n - 1);
    if tokens[n - 1].OpeningParenthesis? then u + [n - 1]
    else if tokens[n - 1].ClosingParenthesis? && |u| > 0 then u[..|u| - 1]
    else u
  }

  /** An opening parenthesis is unmatched right after it is read. */
  lemma OpeningIsUnmatched(tokens: seq<Token>, n: nat)
    requires n < |tokens| && tokens[n].OpeningParenthesis?
    ensures Unmatched(tokens, n + 1) == Unmatched(tokens, n) + [n]
  {
    assert Unmatched(tokens, n + 1) == UnmatchedThrough(tokens, n + 1);
  }

  /** A closing parenthesis matches the innermost unmatched one, if any. */
  lemma ClosingMatches(tokens: seq<Token>, n: nat)
    requires n < |tokens| && tokens[n].ClosingParenthesis?
    ensures var u := Unmatched(tokens, n);
      Unmatched(tokens, n + 1) == if |u| > 0 then u[..|u| - 1] else u
  {
    assert Unmatched(tokens, n + 1) == UnmatchedThrough(tokens, n + 1);
  }

  /** Any other token leaves the unmatched parentheses as they are. */
  lemma OtherKeepsUnmatched(tokens: seq<Token>, n: nat)
    requires n < |tokens| && !tokens[n].OpeningParenthesis? && !tokens[n].ClosingParenthesis?
    ensures Unmatched(tokens, n + 1) == Unmatched(tokens, n)
  {
    assert Unmatched(tokens, n + 1) == UnmatchedThrough(tokens, n + 1);
  }

  /** The closing parentheses among `tokens[..n]` that have nothing to close. */
  function Stray(tokens: seq<Token>, n: nat): (r: seq<nat>)
    requires n <= |tokens|
    ensures |r| <= n
    decreases n, 1
  {
    if n == 0 then [] else StrayThrough(tokens, n)
  }

  /** Whether `tokens[n - 1]` is one more stray closing parenthesis. */
  function StrayThrough(tokens: seq<Token>, n: nat): (r: seq<nat>)
    requires 0 < n <= |tokens|
    ensures |r| <= n
    decreases n, 0
  {
    var s := Stray(tokens, n - 1);
    if tokens[n - 1].ClosingParenthesis? && |Unmatched(tokens, n - 1)| == 0 then s + [n - 1] else s
  }

  /** A closing parenthesis is stray exactly when no opening one is left to match. */
  lemma StrayStep(tokens: seq<Token>, n: nat)
    requires n < |tokens|
    ensures Stray(tokens, n + 1) ==
      if tokens[n].ClosingParenthesis? && |Unmatched(tokens, n)| == 0 then Stray(tokens, n) + [n] else Stray(tokens, n)
  {
    assert Stray(tokens, n + 1) == StrayThrough(tokens, n + 1);
  }

  /** Unmatched opening parentheses are listed in the order they were opened. */
  lemma {:induction false} UnmatchedShape(tokens: seq<Token>, n: nat)
    requires n <= |tokens|
    ensures forall k | 0 <= k < |Unmatched(tokens, n)| ::
      Unmatched(tokens, n)[k] < n && tokens[Unmatched(tokens, n)[k]].OpeningParenthesis?
    ensures forall j, k | 0 <= j < k < |Unmatched(tokens, n)| :: Unmatched(tokens, n)[j] < Unmatched(tokens, n)[k]
    decreases n
  {
    if n > 0 {
      UnmatchedShape(tokens, n - 1);
      if tokens[n - 1].OpeningParenthesis? {
        OpeningIsUnmatched(tokens, n - 1);
      } else if tokens[n - 1].ClosingParenthesis? {
        ClosingMatches(tokens, n - 1);
      } else {
        OtherKeepsUnmatched(tokens, n - 1);
      }
    }
  }

  /** Stray closing parentheses are listed in the order they were met. */
  lemma {:induction false} StrayShape(tokens: seq<Token>, n: nat)
    requires n <= |tokens|
    ensures forall k | 0 <= k < |Stray(tokens, n)| ::
      Stray(tokens, n)[k] < n && tokens[Stray(tokens, n)[k]].ClosingParenthesis?
    ensures forall j, k | 0 <= j < k < |Stray(tokens, n)| :: Stray(tokens, n)[j] < Stray(tokens, n)[k]
    decreases n
  {
    if n > 0 {
      StrayShape(tokens, n - 1);
      StrayStep(tokens, n - 1);
    }
  }

  /** `tokens[k]` is the opening parenthesis of a function call: a name comes just before it. */
  predicate OpensCall(tokens: seq<Token>, k: nat) {
    0 < k < |tokens| && tokens[k - 1].Name? && tokens[k].OpeningParenthesis?
  }

  /** The members of `u` that open a function call, in order. */
  function CallsAmong(tokens: seq<Token>, u: seq<nat>): (r: seq<nat>)
    ensures |r| <= |u|
    decreases |u|, 1
  {
    if |u| == 0 then [] else CallsAmongThrough(tokens, u)
  }

  /** Whether the last member of `u` is one more call. */
  function CallsAmongThrough(tokens: seq<Token>, u: seq<nat>): (r: seq<nat>)
    requires |u| > 0
    ensures |r| <= |u|
    decreases |u|, 0
  {
    var c := CallsAmong(tokens, u[..|u| - 1]);
    if OpensCall(tokens, u[|u| - 1]) then c + [u[|u| - 1]] else c
  }

  /** The last member of `u` is among the calls exactly when it opens one. */
  lemma CallsAmongLast(tokens: seq<Token>, u: seq<nat>)
    requires |u| > 0
    ensures CallsAmong(tokens, u) ==
      if OpensCall(tokens, u[|u| - 1]) then CallsAmong(tokens, u[..|u| - 1]) + [u[|u| - 1]]
      else CallsAmong(tokens, u[..|u| - 1])
  {
    assert CallsAmong(tokens, u) == CallsAmongThrough(tokens, u);
  }

  lemma CallsAmongPush(tokens: seq<Token>, u: seq<nat>, x: nat)
    ensures CallsAmong(tokens, u + [x]) == if OpensCall(tokens, x) then CallsAmong(tokens, u) + [x] else CallsAmong(tokens, u)
  {
    CallsAmongLast(tokens, u + [x]);
    assert (u + [x])[..|u|] == u;
  }

  /** Every call found opens one, and is taken from `u`. */
  lemma {:induction false} CallsShape(tokens: seq<Token>, u: seq<nat>, bound: nat)
    requires forall k | 0 <= k < |u| :: u[k] < bound
    ensures forall k | 0 <= k < |CallsAmong(tokens, u)| ::
      CallsAmong(tokens, u)[k] < bound && OpensCall(tokens, CallsAmong(tokens, u)[k])
    decreases |u|
  {
    if |u| > 0 {
      CallsShape(tokens, u[..|u| - 1], bound);
      CallsAmongLast(tokens, u);
    }
  }

  /** The position of the token at index `k`. */
  function PositionOf(tokens: seq<Token>, k: nat): int {
    if k < |tokens| then tokens[k].pos else -1
  }

  /** The positions of the tokens at indices `ks`. */
  function Positions(tokens: seq<Token>, ks: seq<nat>): (r: seq<int>)
    ensures |r| == |ks|
    decreases |ks|, 1
  {
    if |ks| == 0 then [] else PositionsThrough(tokens, ks)
  }

  /** The positions of all but the last index, then the last one's. */
  function PositionsThrough(tokens: seq<Token>, ks: seq<nat>): (r: seq<int>)
    requires |ks| > 0
    ensures |r| == |ks|
    decreases |ks|, 0
  {
    Positions(tokens, ks[..|ks| - 1]) + [PositionOf(tokens, ks[|ks| - 1])]
  }

  lemma PositionsPop(tokens: seq<Token>, ks: seq<nat>)
    requires |ks| > 0
    ensures Pop(Positions(tokens, ks)) == Positions(tokens, ks[..|ks| - 1])
    ensures Top(Positions(tokens, ks)) == PositionOf(tokens, ks[|ks| - 1])
  {
    assert Positions(tokens, ks) == PositionsThrough(tokens, ks);
  }

  lemma PositionsPush(tokens: seq<Token>, ks: seq<nat>, x: nat)
    ensures Positions(tokens, ks + [x]) == Positions(tokens, ks) + [PositionOf(tokens, x)]
  {
    assert (ks + [x])[..|ks|] == ks;
    assert Positions(tokens, ks + [x]) == PositionsThrough(tokens, ks + [x]);
  }

  /** Token positions strictly increase, as they do in the lexer's output. */
  ghost predicate Increasing(tokens: seq<Token>) {
    forall j, k | 0 <= j < k < |tokens| :: tokens[j].pos < tokens[k].pos
  }

  /** The unmatched opening parentheses of `tokens[..i + 1]`, except an
      opening parenthesis at `i` itself. */
  ghost function Pending(tokens: seq<Token>, i: nat): seq<nat>
    requires i < |tokens|
  {
    if tokens[i].OpeningParenthesis? then Unmatched(tokens, i) else Unmatched(tokens, i + 1)
  }

  /** After `i` pairs, the opening stack holds the positions of the unmatched
      opening parentheses of `tokens[..i + 1]`; an opening parenthesis at `i`
      is pushed only when it is the first of the next pair. */
  ghost function OpeningAfter(tokens: seq<Token>, i: nat): seq<int>
    requires i < |tokens|
  {
    Positions(tokens, Pending(tokens, i))
  }

  /** After `i` pairs, the closing stack holds the positions of the stray
      closing parentheses of `tokens[..i + 1]`. */
  ghost function StrayAfter(tokens: seq<Token>, i: nat): seq<int>
    requires i < |tokens|
  {
    Positions(tokens, Stray(tokens, i + 1))
  }

  /** After `i` pairs, the call stack holds the positions of those unmatched
      opening parentheses of `tokens[..i + 1]` that open a function call. */
  ghost function CallsAfter(tokens: seq<Token>, i: nat): seq<int>
    requires i < |tokens|
  {
    Positions(tokens, CallsAmong(tokens, Unmatched(tokens, i + 1)))
  }

  /** Before any pair is scanned all three stacks are empty, as the three
      descriptions say when the list does not start with a closing parenthesis. */
  lemma ScanStart(tokens: seq<Token>)
    requires 0 < |tokens| && !tokens[0].ClosingParenthesis?
    ensures OpeningAfter(tokens, 0) == [] && StrayAfter(tokens, 0) == [] && CallsAfter(tokens, 0) == []
  {
    StrayStep(tokens, 0);
    if tokens[0].OpeningParenthesis? {
      OpeningIsUnmatched(tokens, 0);
      CallsAmongPush(tokens, [], 0);
    } else {
      OtherKeepsUnmatched(tokens, 0);
    }
  }

  // How `Push` changes each stack, one kind of second token at a time

  lemma PushParentheses(first: Token, second: Token, st: Stacks, opening: seq<int>)
    requires opening == if first.OpeningParenthesis? then st.opening + [first.pos] else st.opening
    ensures Push(first, second, st).opening ==
      if second.ClosingParenthesis? && |opening| > 0 then Pop(opening) else opening
    ensures Push(first, second, st).closing ==
      if second.ClosingParenthesis? && |opening| == 0 then st.closing + [second.pos] else st.closing
  {
  }

  lemma PushOnOpening(first: Token, second: Token, st: Stacks)
    requires second.OpeningParenthesis?
    ensures Push(first, second, st).calls == if first.Name? then st.calls + [second.pos] else st.calls
  {
  }

  lemma PushOnClosing(first: Token, second: Token, st: Stacks, opening: seq<int>)
    requires second.ClosingParenthesis?
    requires opening == if first.OpeningParenthesis? then st.opening + [first.pos] else st.opening
    ensures Push(first, second, st).calls ==
      if |opening| > 0 && |st.calls| > 0 && Top(st.calls) == Top(opening) then Pop(st.calls) else st.calls
  {
  }

  lemma PushOnOther(first: Token, second: Token, st: Stacks)
    requires !second.OpeningParenthesis? && !second.ClosingParenthesis?
    ensures Push(first, second, st).calls == st.calls
  {
  }

  /** Before the pair at `i` is scanned, its opening stack, with a pending
      opening parenthesis at `i` pushed, holds all of `Unmatched(tokens, i + 1)`. */
  lemma OpeningBeforePair(tokens: seq<Token>, i: nat, st: Stacks)
    requires i < |tokens| && st.opening == OpeningAfter(tokens, i)
    ensures (if tokens[i].OpeningParenthesis? then st.opening + [tokens[i].pos] else st.opening)
      == Positions(tokens, Unmatched(tokens, i + 1))
  {
    if tokens[i].OpeningParenthesis? {
      OpeningIsUnmatched(tokens, i);
      PositionsPush(tokens, Unmatched(tokens, i), i);
    }
  }

  /** The opening and closing stacks after one more pair, read off the
      unmatched parentheses alone. */
  lemma ParenthesesPair(tokens: seq<Token>, i: nat, closing: seq<int>, opening: seq<int>)
    requires i + 1 < |tokens| && opening == Positions(tokens, Unmatched(tokens, i + 1))
    requires closing == StrayAfter(tokens, i)
    ensures (if tokens[i + 1].ClosingParenthesis? && |opening| > 0 then Pop(opening) else opening)
      == OpeningAfter(tokens, i + 1)
    ensures (if tokens[i + 1].ClosingParenthesis? && |opening| == 0 then closing + [tokens[i + 1].pos] else closing)
      == StrayAfter(tokens, i + 1)
  {
    var u := Unmatched(tokens, i + 1);
    StrayStep(tokens, i + 1);
    if tokens[i + 1].ClosingParenthesis? {
      ClosingMatches(tokens, i + 1);
      if |u| > 0 {
        PositionsPop(tokens, u);
      } else {
        PositionsPush(tokens, Stray(tokens, i + 1), i + 1);
      }
    } else if !tokens[i + 1].OpeningParenthesis? {
      OtherKeepsUnmatched(tokens, i + 1);
    }
  }

  lemma ParenthesesStep(tokens: seq<Token>, i: nat, st: Stacks)
    requires i + 1 < |tokens| && st.opening == OpeningAfter(tokens, i) && st.closing == StrayAfter(tokens, i)
    ensures Push(tokens[i], tokens[i + 1], st).opening == OpeningAfter(tokens, i + 1)
    ensures Push(tokens[i], tokens[i + 1], st).closing == StrayAfter(tokens, i + 1)
  {
    OpeningBeforePair(tokens, i, st);
    var opening := if tokens[i].OpeningParenthesis? then st.opening + [tokens[i].pos] else st.opening;
    PushParentheses(tokens[i], tokens[i + 1], st, opening);
    ParenthesesPair(tokens, i, st.closing, opening);
  }

  lemma ParenthesesAdvance(tokens: seq<Token>, i: nat)
    requires 0 < i < |tokens| && ScanState(tokens, i).Success? && ScanState(tokens, i - 1).Success?
    requires ScanState(tokens, i - 1).value.stacks.opening == OpeningAfter(tokens, i - 1)
    requires ScanState(tokens, i - 1).value.stacks.closing == StrayAfter(tokens, i - 1)
    ensures ScanState(tokens, i).value.stacks.opening == OpeningAfter(tokens, i)
    ensures ScanState(tokens, i).value.stacks.closing == StrayAfter(tokens, i)
  {
    ScanAdvance(tokens, i);
    ParenthesesStep(tokens, i - 1, ScanState(tokens, i - 1).value.stacks);
  }

  lemma {:induction false} ScanParentheses(tokens: seq<Token>, i: nat)
    requires i < |tokens| && !tokens[0].ClosingParenthesis? && ScanState(tokens, i).Success?
    ensures ScanState(tokens, i).value.stacks.opening == OpeningAfter(tokens, i)
    ensures ScanState(tokens, i).value.stacks.closing == StrayAfter(tokens, i)
    decreases i
  {
    if i == 0 {
      ScanStart(tokens);
    } else {
      ScanParentheses(tokens, i - 1);
      ParenthesesAdvance(tokens, i);
    }
  }

  /** Positions identify tokens when they increase: the innermost call is the
      innermost unmatched parenthesis exactly when that parenthesis opens a call. */
  lemma TopOfPositions(tokens: seq<Token>, u: seq<nat>)
    requires Increasing(tokens) && |u| > 0
    requires forall k | 0 <= k < |u| :: u[k] < |tokens|
    requires forall j, k | 0 <= j < k < |u| :: u[j] < u[k]
    ensures var c := CallsAmong(tokens, u);
      (|c| > 0 && Top(Positions(tokens, c)) == Top(Positions(tokens, u))) <==> OpensCall(tokens, u[|u| - 1])
  {
    var c := CallsAmong(tokens, u);
    var last := u[|u| - 1];
    PositionsPop(tokens, u);
    CallsAmongLast(tokens, u);
    if |c| > 0 {
      PositionsPop(tokens, c);
    }
    if !OpensCall(tokens, last) && |c| > 0 {
      CallsShape(tokens, u[..|u| - 1], last);
      assert tokens[c[|c| - 1]].pos < tokens[last].pos;
    }
  }

  /** Closing the innermost unmatched parenthesis drops it from the calls
      exactly when it opened one. */
  lemma ClosingPopsCall(tokens: seq<Token>, u: seq<nat>)
    requires |u| > 0
    ensures OpensCall(tokens, u[|u| - 1]) ==> |CallsAmong(tokens, u)| > 0
    ensures var c := CallsAmong(tokens, u);
      Positions(tokens, CallsAmong(tokens, u[..|u| - 1]))
        == if OpensCall(tokens, u[|u| - 1]) then Pop(Positions(tokens, c)) else Positions(tokens, c)
  {
    CallsAmongLast(tokens, u);
    if OpensCall(tokens, u[|u| - 1]) {
      PositionsPush(tokens, CallsAmong(tokens, u[..|u| - 1]), u[|u| - 1]);
    }
  }

  /** The call stack's update on a closing parenthesis, read off the stacks:
      the innermost call is popped exactly when the parenthesis closes it. */
  lemma ClosingCalls(tokens: seq<Token>, n: nat, calls: seq<int>, opening: seq<int>)
    requires n <= |tokens| && Increasing(tokens) && |Unmatched(tokens, n)| > 0
    requires opening == Positions(tokens, Unmatched(tokens, n))
    requires calls == Positions(tokens, CallsAmong(tokens, Unmatched(tokens, n)))
    ensures var u := Unmatched(tokens, n);
      (if |opening| > 0 && |calls| > 0 && Top(calls) == Top(opening) then Pop(calls) else calls)
        == Positions(tokens, CallsAmong(tokens, u[..|u| - 1]))
  {
    var u := Unmatched(tokens, n);
    UnmatchedShape(tokens, n);
    TopOfPositions(tokens, u);
    ClosingPopsCall(tokens, u);
  }

  lemma CallsOnOpening(tokens: seq<Token>, i: nat, st: Stacks)
    requires i + 1 < |tokens| && tokens[i + 1].OpeningParenthesis? && st.calls == CallsAfter(tokens, i)
    ensures Push(tokens[i], tokens[i + 1], st).calls == CallsAfter(tokens, i + 1)
  {
    PushOnOpening(tokens[i], tokens[i + 1], st);
    var u := Unmatched(tokens, i + 1);
    OpeningIsUnmatched(tokens, i + 1);
    CallsAmongPush(tokens, u, i + 1);
    if tokens[i].Name? {
      PositionsPush(tokens, CallsAmong(tokens, u), i + 1);
    }
  }

  /** The calls after a closing parenthesis, read off the unmatched parentheses alone. */
  lemma CallsOnClosing(tokens: seq<Token>, i: nat, calls: seq<int>, opening: seq<int>)
    requires i + 1 < |tokens| && tokens[i + 1].ClosingParenthesis? && Increasing(tokens)
    requires calls == CallsAfter(tokens, i)
    requires opening == Positions(tokens, Unmatched(tokens, i + 1))
    ensures (if |opening| > 0 && |calls| > 0 && Top(calls) == Top(opening) then Pop(calls) else calls)
      == CallsAfter(tokens, i + 1)
  {
    ClosingMatches(tokens, i + 1);
    if |Unmatched(tokens, i + 1)| > 0 {
      ClosingCalls(tokens, i + 1, calls, opening);
    }
  }

  lemma CallsStep(tokens: seq<Token>, i: nat, st: Stacks)
    requires i + 1 < |tokens| && Increasing(tokens)
    requires st.opening == OpeningAfter(tokens, i) && st.calls == CallsAfter(tokens, i)
    ensures Push(tokens[i], tokens[i + 1], st).calls == CallsAfter(tokens, i + 1)
  {
    var next := tokens[i + 1];
    if next.OpeningParenthesis? {
      CallsOnOpening(tokens, i, st);
    } else if next.ClosingParenthesis? {
      OpeningBeforePair(tokens, i, st);
      var opening := if tokens[i].OpeningParenthesis? then st.opening + [tokens[i].pos] else st.opening;
      PushOnClosing(tokens[i], next, st, opening);
      CallsOnClosing(tokens, i, st.calls, opening);
    } else {
      OtherKeepsUnmatched(tokens, i + 1);
      PushOnOther(tokens[i], next, st);
    }
  }

  lemma CallsAdvance(tokens: seq<Token>, i: nat)
    requires 0 < i < |tokens| && !tokens[0].ClosingParenthesis? && Increasing(tokens)
    requires ScanState(tokens, i).Success? && ScanState(tokens, i - 1).Success?
    requires ScanState(tokens, i - 1).value.stacks.calls == CallsAfter(tokens, i - 1)
    ensures ScanState(tokens, i).value.stacks.calls == CallsAfter(tokens, i)
  {
    ScanAdvance(tokens, i);
    ScanParentheses(tokens, i - 1);
    CallsStep(tokens, i - 1, ScanState(tokens, i - 1).value.stacks);
  }

  lemma {:induction false} ScanCalls(tokens: seq<Token>, i: nat)
    requires i < |tokens| && !tokens[0].ClosingParenthesis? && Increasing(tokens) && ScanState(tokens, i).Success?
    ensures ScanState(tokens, i).value.stacks.calls == CallsAfter(tokens, i)
    decreases i
  {
    if i == 0 {
      ScanStart(tokens);
    } else {
      ScanCalls(tokens, i - 1);
      CallsAdvance(tokens, i);
    }
  }

  /** The comma check, read off the stacks: an empty opening stack is never
      peeked at when the call stack is no longer than it. */
  lemma CommaStep(comma: Token, second: Token, st: Stacks)
    requires comma.Comma? && !Forbidden(comma, second)
    requires |st.calls| > 0 ==> |st.opening| > 0
    ensures PairStep(comma, second, st).Success? <==> |st.calls| > 0 && Top(st.calls) == Top(st.opening)
    ensures PairStep(comma, second, st).Failure? ==>
      PairStep(comma, second, st).error == SyntaxError(comma.pos, comma.Length())
  {
  }

  /** Read off the stacks, the comma check asks whether the innermost
      unmatched opening parenthesis opened a call. */
  lemma CommaCondition(tokens: seq<Token>, n: nat, st: Stacks)
    requires n <= |tokens| && Increasing(tokens)
    requires st.opening == Positions(tokens, Unmatched(tokens, n))
    requires st.calls == Positions(tokens, CallsAmong(tokens, Unmatched(tokens, n)))
    ensures |st.calls| > 0 ==> |st.opening| > 0
    ensures var u := Unmatched(tokens, n);
      (|st.calls| > 0 && Top(st.calls) == Top(st.opening)) <==> |u| > 0 && OpensCall(tokens, u[|u| - 1])
  {
    var u := Unmatched(tokens, n);
    if |u| > 0 {
      UnmatchedShape(tokens, n);
      TopOfPositions(tokens, u);
    }
  }

  /** A comma is accepted exactly when the innermost opening parenthesis still
      unmatched before it opened a function call; otherwise it is reported at
      the comma. Peeking at an empty opening stack never happens. */
  lemma CommaRule(tokens: seq<Token>, i: nat)
    requires i + 1 < |tokens| && !tokens[0].ClosingParenthesis? && Increasing(tokens)
    requires ScanState(tokens, i).Success? && tokens[i].Comma? && !Forbidden(tokens[i], tokens[i + 1])
    ensures var u := Unmatched(tokens, i);
      ScanState(tokens, i + 1).Success? <==> |u| > 0 && OpensCall(tokens, u[|u| - 1])
    ensures ScanState(tokens, i + 1).Failure? ==>
      ScanState(tokens, i + 1) == Failure(SyntaxError(tokens[i].pos, tokens[i].Length()))
  {
    ScanParentheses(tokens, i);
    ScanCalls(tokens, i);
    var st := ScanState(tokens, i).value.stacks;
    OtherKeepsUnmatched(tokens, i);
    CommaCondition(tokens, i, st);
    CommaStep(tokens[i], tokens[i + 1], st);
    ScanOutcome(tokens, i + 1);
  }

  /** A misplaced comma is what the whole preprocessor reports. */
  lemma CommaReported(tokens: seq<Token>, i: nat)
    requires i + 1 < |tokens| && StartsOperand(tokens[0]) && Increasing(tokens)
    requires ScanState(tokens, i).Success? && tokens[i].Comma? && !Forbidden(tokens[i], tokens[i + 1])
    requires var u := Unmatched(tokens, i); !(|u| > 0 && OpensCall(tokens, u[|u| - 1]))
    ensures PreprocessOf(tokens) == Failure(SyntaxError(tokens[i].pos, tokens[i].Length()))
  {
    CommaRule(tokens, i);
    ScanFailureReported(tokens, i + 1);
  }

  /** Once every positional check has passed, the preprocessor fails exactly
      when some opening parenthesis is left unmatched or some closing
      parenthesis had nothing to match, and then with `UnmatchingParenthesis`. */
  lemma UnbalancedReportedLast(tokens: seq<Token>)
    requires 1 < |tokens| && StartsOperand(tokens[0])
    requires ScanState(tokens, |tokens| - 1).Success? && EndsOperand(tokens[|tokens| - 1])
    ensures PreprocessOf(tokens).Failure? <==>
      |Unmatched(tokens, |tokens|)| > 0 || |Stray(tokens, |tokens|)| > 0
    ensures PreprocessOf(tokens).Failure? ==> PreprocessOf(tokens).error == UnmatchingParenthesis
  {
    ScanParentheses(tokens, |tokens| - 1);
  }
}
