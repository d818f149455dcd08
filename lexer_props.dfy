/** What the lexer promises: where it stops, which errors it raises, and that
    the tokens it returns, in order, cover the expression with nothing but
    spaces between them. */
module LexerProperties {
  import opened Common
  import opened Tokens
  import opened Lexer

  // ---------------------------------------------------------------------------
  // Spaces

  /** Every character of `s[from..until]` is a space. */
  predicate AllSpaces(s: seq<char>, from: int, until: int)
    requires 0 <= from <= until <= |s|
  {
    forall p | from <= p < until :: IsSpace(s[p])
  }

  /** The recursive space test says what `Contains(" ")` says. */
  lemma {:induction false} SpaceWithinMeans(s: seq<char>, n: nat)
    requires n <= |s|
    ensures SpaceWithin(s, n) <==> exists p | 0 <= p < n :: IsSpace(s[p])
  {
    if n > 0 {
      SpaceWithinMeans(s, n - 1);
    }
  }

  /** A run of spaces is all spaces; the other shapes hold no space at all. */
  lemma {:induction false} ReadingSpaces(s: seq<char>, from: nat, until: nat)
    requires from <= until <= |s|
    ensures ReadRange(s, from, until) == Blank ==> AllSpaces(s, from, until)
    ensures ReadRange(s, from, until) != Blank && ReadRange(s, from, until) != Other ==>
              forall p | from <= p < until :: !IsSpace(s[p])
    decreases until
  {
    if from < until {
      ReadingSpaces(s, from, until - 1);
    }
  }

  /** A lexeme holds a space exactly when it is a run of spaces; otherwise it
      is a one-character token, a name or a number. */
  lemma LexemeSpaces(s: seq<char>)
    requires Lexeme(s) && 0 < |s|
    ensures ContainsSpace(s) ==> AllSpaces(s, 0, |s|)
    ensures !ContainsSpace(s) ==>
              (|s| == 1 && IsSingleCharacterToken(s[0])) || Shaped(NameRegex, s) || Shaped(NumberRegex, s)
  {
    SpaceWithinMeans(s, |s|);
    ReadingSpaces(s, 0, |s|);
    if ContainsSpace(s) && |s| == 1 && IsSingleCharacterToken(s[0]) {
      assert IsSpace(s[0]);
    }
  }

  // ---------------------------------------------------------------------------
  // Where the scan stops

  /** The scan passes every index of `[i, j)` by growing its candidate. */
  lemma {:induction false} ScanGrows(input: string, from: nat, i: nat, j: nat)
    requires from <= i <= j <= |input|
    requires forall p | i <= p < j :: IsLegalCharacter(input[p]) && Judge(input, from, p + 1, p == |input| - 1) == Grow
    ensures ScanFrom(input, from, i) == ScanFrom(input, from, j)
    decreases j - i
  {
    if i < j {
      GrowStep(input, from, i);
      ScanGrows(input, from, i + 1, j);
    }
  }

  /** A legal character whose candidate keeps growing is passed over. */
  lemma GrowStep(input: string, from: nat, i: nat)
    requires from <= i < |input| && IsLegalCharacter(input[i])
    requires Judge(input, from, i + 1, i == |input| - 1) == Grow
    ensures ScanFrom(input, from, i) == ScanFrom(input, from, i + 1)
  {
    assert ScanFrom(input, from, i) == Resolve(input, from, i);
  }

  /** A legal character whose candidate is cut stops the scan with the cut sequence. */
  lemma EmitStep(input: string, from: nat, i: nat, length: nat)
    requires from <= i < |input| && IsLegalCharacter(input[i])
    requires Judge(input, from, i + 1, i == |input| - 1) == Emit(length) && from + length <= |input|
    ensures ScanFrom(input, from, i) == Success(input[from..from + length])
  {
    assert ScanFrom(input, from, i) == Resolve(input, from, i);
  }

  /** A legal character whose candidate has no possible shape stops the scan
      with an error over the whole candidate. */
  lemma IllegalSequenceStep(input: string, from: nat, i: nat)
    requires from <= i < |input| && IsLegalCharacter(input[i])
    requires Judge(input, from, i + 1, i == |input| - 1) == IllegalSequence
    ensures ScanFrom(input, from, i) == Failure(LexicalError(from, i + 1 - from))
  {
    assert ScanFrom(input, from, i) == Resolve(input, from, i);
  }

  /** A character outside the legal set that begins a sequence is reported at
      its own offset with length 1. */
  lemma IllegalCharacterAtStart(input: string, from: nat)
    requires from < |input| && !IsLegalCharacter(input[from])
    ensures NextSequence(input, from) == Failure(LexicalError(from, 1))
  {
  }

  /** A parenthesis, a comma, an operator symbol or a number symbol is always
      a sequence of its own, whatever follows it. */
  lemma SingleCharacterSequence(input: string, from: nat)
    requires from < |input| && IsSingleCharacterToken(input[from])
    ensures NextSequence(input, from) == Success(input[from..from + 1])
  {
    assert Judge(input, from, from + 1, from == |input| - 1) == Emit(1);
    EmitStep(input, from, from, 1);
  }

  /** The token of a one-character sequence has the kind of its character. */
  lemma SingleCharacterToken(c: char, position: int, parse: string -> Num)
    requires IsSingleCharacterToken(c)
    ensures ToToken([c], position, parse).Success?
    ensures var t := ToToken([c], position, parse).value;
            t.pos == position && t.Length() == 1
            && (t.OpeningParenthesis? <==> c == '(')
            && (t.ClosingParenthesis? <==> c == ')')
            && (t.Comma? <==> IsComma(c))
            && (t.NumberSymbol? <==> IsNumberSymbol(c))
            && (t.OperatorSymbol? <==> IsOperatorSymbol(c))
            && (t.NumberSymbol? || t.OperatorSymbol? ==> t.symbol == c)
  {
  }

  /** Reading a name start followed by name characters stays an identifier. */
  lemma {:induction false} ReadIdentifier(input: string, from: nat, k: nat)
    requires from < k <= |input| && IsNameStart(input[from])
    requires forall p | from < p < k :: IsNameCharacter(input[p])
    ensures ReadRange(input, from, k) == Identifier
    decreases k
  {
    if k > from + 1 {
      ReadIdentifier(input, from, k - 1);
    }
  }

  /** Reading digits only stays an integer. */
  lemma {:induction false} ReadInteger(input: string, from: nat, k: nat)
    requires from < k <= |input|
    requires forall p | from <= p < k :: IsDigit(input[p])
    ensures ReadRange(input, from, k) == Integer
    decreases k
  {
    if k > from + 1 {
      ReadInteger(input, from, k - 1);
    }
  }

  /** The scan passes over a name start followed by name characters. */
  lemma ScanPastName(input: string, from: nat, j: nat)
    requires from < j <= |input| && IsNameStart(input[from])
    requires forall p | from < p < j :: IsNameCharacter(input[p])
    ensures ScanFrom(input, from, from) == ScanFrom(input, from, j) && ReadRange(input, from, j) == Identifier
  {
    forall p | from <= p < j
      ensures IsLegalCharacter(input[p]) && Judge(input, from, p + 1, p == |input| - 1) == Grow
    {
      ReadIdentifier(input, from, p + 1);
    }
    ScanGrows(input, from, from, j);
    ReadIdentifier(input, from, j);
  }

  /** The scan passes over a run of digits. */
  lemma ScanPastDigits(input: string, from: nat, j: nat)
    requires from < j <= |input|
    requires forall p | from <= p < j :: IsDigit(input[p])
    ensures ScanFrom(input, from, from) == ScanFrom(input, from, j) && ReadRange(input, from, j) == Integer
  {
    forall p | from <= p < j
      ensures IsLegalCharacter(input[p]) && Judge(input, from, p + 1, p == |input| - 1) == Grow
    {
      ReadInteger(input, from, p + 1);
    }
    ScanGrows(input, from, from, j);
    ReadInteger(input, from, j);
  }

  /** A complete name, number or run of spaces that a legal character cannot
      extend is cut off before that character. */
  lemma CutBefore(input: string, from: nat, j: nat)
    requires from < j < |input| && IsLegalCharacter(input[j])
    requires var r := ReadRange(input, from, j); r == Identifier || r == Integer || r == Fraction || r == Blank
    requires ReadRange(input, from, j + 1) == Other
    ensures ScanFrom(input, from, j) == Success(input[from..j])
  {
    assert Judge(input, from, j + 1, j == |input| - 1) == Emit(j - from);
    EmitStep(input, from, j, j - from);
  }

  /** The end of the input or an illegal character ends a scan that got this far. */
  lemma ScanEnds(input: string, from: nat, j: nat)
    requires from < j <= |input|
    ensures j == |input| ==> ScanFrom(input, from, j) == Success(input[from..j])
    ensures j < |input| && !IsLegalCharacter(input[j]) ==> ScanFrom(input, from, j) == Failure(LexicalError(j, 1))
  {
    if j == |input| {
      assert input[from..] == input[from..j];
    }
  }

  /** A name absorbs every following letter, digit and underscore. It ends at
      the first other legal character or at the end of the input; an illegal
      character there is reported at its own offset. */
  lemma NameIsMaximal(input: string, from: nat, j: nat)
    requires from < j <= |input| && IsNameStart(input[from])
    requires forall p | from < p < j :: IsNameCharacter(input[p])
    requires j < |input| ==> !IsNameCharacter(input[j])
    ensures j == |input| || IsLegalCharacter(input[j]) ==> NextSequence(input, from) == Success(input[from..j])
    ensures j < |input| && !IsLegalCharacter(input[j]) ==> NextSequence(input, from) == Failure(LexicalError(j, 1))
  {
    ScanPastName(input, from, j);
    ScanEnds(input, from, j);
    if j < |input| && IsLegalCharacter(input[j]) {
      assert ReadRange(input, from, j + 1) == Advance(Identifier, input[j]) == Other;
      CutBefore(input, from, j);
    }
  }

  /** A run of digits ends at the first legal character that is neither a
      digit nor a decimal point, such as the letter or underscore that starts
      a name; an illegal character there is reported at its own offset. */
  lemma IntegerIsMaximal(input: string, from: nat, j: nat)
    requires from < j <= |input|
    requires forall p | from <= p < j :: IsDigit(input[p])
    requires j < |input| ==> !IsDigit(input[j]) && !IsDecimalPoint(input[j])
    ensures j == |input| || IsLegalCharacter(input[j]) ==> NextSequence(input, from) == Success(input[from..j])
    ensures j < |input| && !IsLegalCharacter(input[j]) ==> NextSequence(input, from) == Failure(LexicalError(j, 1))
  {
    ScanPastDigits(input, from, j);
    ScanEnds(input, from, j);
    if j < |input| && IsLegalCharacter(input[j]) {
      assert ReadRange(input, from, j + 1) == Advance(Integer, input[j]) == Other;
      CutBefore(input, from, j);
    }
  }

  /** Digits and a decimal point followed by a legal character that is not a
      digit: the whole candidate, that character included, is reported. */
  lemma PointWithoutFraction(input: string, from: nat, j: nat)
    requires from < j && j + 1 < |input|
    requires forall p | from <= p < j :: IsDigit(input[p])
    requires IsDecimalPoint(input[j]) && IsLegalCharacter(input[j + 1]) && !IsDigit(input[j + 1])
    ensures NextSequence(input, from) == Failure(LexicalError(from, j + 2 - from))
  {
    ScanPastDigits(input, from, j);
    assert ReadRange(input, from, j + 1) == Advance(Integer, input[j]) == Point;
    assert Judge(input, from, j + 1, false) == Grow;
    GrowStep(input, from, j);
    assert ReadRange(input, from, j + 2) == Advance(Point, input[j + 1]) == Other;
    assert Judge(input, from, j + 2, j + 1 == |input| - 1) == IllegalSequence;
    IllegalSequenceStep(input, from, j + 1);
  }

  /** A decimal point that begins a sequence is reported alone. */
  lemma LonePoint(input: string, from: nat)
    requires from < |input| && IsDecimalPoint(input[from])
    ensures NextSequence(input, from) == Failure(LexicalError(from, 1))
  {
    assert ReadRange(input, from, from + 1) == Advance(Empty, input[from]) == Other;
    assert Judge(input, from, from + 1, from == |input| - 1) == IllegalSequence;
    IllegalSequenceStep(input, from, from);
  }

  /** Digits and a decimal point at the very end of the input: the digits are
      cut off alone, so the point is then reported alone at its own offset. */
  lemma TrailingPoint(input: string, from: nat)
    requires from + 1 < |input| && IsDecimalPoint(input[|input| - 1])
    requires forall p | from <= p < |input| - 1 :: IsDigit(input[p])
    ensures NextSequence(input, from) == Success(input[from..|input| - 1])
    ensures NextSequence(input, |input| - 1) == Failure(LexicalError(|input| - 1, 1))
  {
    var j := |input| - 1;
    ScanPastDigits(input, from, j);
    assert ReadRange(input, from, j + 1) == Advance(Integer, input[j]) == Point;
    assert Judge(input, from, j + 1, true) == Emit(j - from);
    EmitStep(input, from, j, j - from);
    LonePoint(input, j);
  }

  // ---------------------------------------------------------------------------
  // Every non-space sequence becomes a token

  /** ToToken never reaches its unreachable case on a sequence the scan cut
      out: a sequence without a space is a one-character token, a name or a
      number. */
  lemma SequenceAlwaysTokenizes(input: string, cursor: nat, parse: string -> Num)
    requires cursor < |input| && NextSequence(input, cursor).Success?
    requires !ContainsSpace(NextSequence(input, cursor).value)
    ensures ToToken(NextSequence(input, cursor).value, cursor, parse).Success?
  {
    var s := NextSequence(input, cursor).value;
    NextSequenceFits(input, cursor);
    NextSequenceIsLexeme(input, cursor);
    LexemeSpaces(s);
    ToTokenMeaning(s, cursor, parse);
  }

  /** A failed tokenization fails with a lexical error inside the input. */
  lemma {:induction false} TokensFromFailure(input: string, parse: string -> Num, cursor: nat, tokens: seq<Token>)
    requires cursor <= |input| && TokensFrom(input, parse, cursor, tokens).Failure?
    ensures var e := TokensFrom(input, parse, cursor, tokens).error;
            e.LexicalError? && cursor <= e.position && 0 < e.length && e.position + e.length <= |input|
    decreases |input| - cursor
  {
    NextSequenceFits(input, cursor);
    if NextSequence(input, cursor).Success? {
      var s := NextSequence(input, cursor).value;
      TokensFromStep(input, parse, cursor, tokens, s);
      if ContainsSpace(s) {
        TokensFromFailure(input, parse, cursor + |s|, tokens);
      } else {
        SequenceAlwaysTokenizes(input, cursor, parse);
        TokensFromFailure(input, parse, cursor + |s|, tokens + [ToToken(s, cursor, parse).value]);
      }
    }
  }

  /** The only error Tokenize raises is a lexical error inside the expression. */
  lemma TokenizeFailsLexically(input: string, parse: string -> Num)
    requires TokensOf(input, parse).Failure?
    ensures var e := TokensOf(input, parse).error;
            e.LexicalError? && 0 <= e.position && 0 < e.length && e.position + e.length <= |input|
  {
    TokensFromFailure(input, parse, 0, []);
  }

  // ---------------------------------------------------------------------------
  // The tokens cover the expression

  /** The offset just past a token. */
  function End(t: Token): int { t.pos + t.Length() }

  /** Where the `k`-th stretch between tokens begins: at `cursor` before the
      first token, otherwise just past token `k - 1`. */
  function GapStart(tokens: seq<Token>, k: nat, cursor: int): int
    requires k <= |tokens|
  {
    if k == 0 then cursor else End(tokens[k - 1])
  }

  /** Where the `k`-th stretch between tokens ends: at token `k`, or at the
      end of the input after the last token. */
  function GapEnd(input: string, tokens: seq<Token>, k: nat): int
    requires k <= |tokens|
  {
    if k == |tokens| then |input| else tokens[k].pos
  }

  /** Token `t` is what ToToken makes of the text it spans, and that text holds no space. */
  predicate Spells(input: string, parse: string -> Num, t: Token)
    requires 0 <= t.pos <= End(t) <= |input|
  {
    var text := input[t.pos..End(t)];
    !ContainsSpace(text) && ToToken(text, t.pos, parse) == Success(t)
  }

  /** `tokens`, in order, spell `input[cursor..]`, with nothing but spaces
      before, between and after them. */
  predicate Tiles(input: string, parse: string -> Num, cursor: nat, tokens: seq<Token>)
    requires cursor <= |input|
  {
    (forall k | 0 <= k < |tokens| :: 0 <= tokens[k].pos < End(tokens[k]) <= |input| && Spells(input, parse, tokens[k]))
    && (forall k | 0 <= k <= |tokens| ::
          cursor <= GapStart(tokens, k, cursor) <= GapEnd(input, tokens, k) <= |input|
          && AllSpaces(input, GapStart(tokens, k, cursor), GapEnd(input, tokens, k)))
  }

  /** A tokenization result with `prefix` put in front of its tokens. */
  function Prefixed(prefix: seq<Token>, r: Result<seq<Token>>): Result<seq<Token>> {
    if r.Success? then Success(prefix + r.value) else r
  }

  /** The tokens gathered so far only stand in front of the rest. */
  lemma {:induction false} TokensFromShift(input: string, parse: string -> Num, cursor: nat, tokens: seq<Token>)
    requires cursor <= |input|
    ensures TokensFrom(input, parse, cursor, tokens) == Prefixed(tokens, TokensFrom(input, parse, cursor, []))
    decreases |input| - cursor, 1
  {
    if cursor == |input| {
      assert tokens + [] == tokens;
    } else {
      NextSequenceFits(input, cursor);
      if NextSequence(input, cursor).Success? {
        var s := NextSequence(input, cursor).value;
        if ContainsSpace(s) {
          TokensFromStep(input, parse, cursor, tokens, s);
          TokensFromStep(input, parse, cursor, [], s);
          TokensFromShift(input, parse, cursor + |s|, tokens);
        } else if ToToken(s, cursor, parse).Success? {
          ShiftAfterToken(input, parse, cursor, tokens, s, ToToken(s, cursor, parse).value);
        } else {
          TokensFromStep(input, parse, cursor, tokens, s);
          TokensFromStep(input, parse, cursor, [], s);
        }
      }
    }
  }

  /** The shift of the gathered tokens, past a sequence that made token `t`. */
  lemma {:induction false} ShiftAfterToken(input: string, parse: string -> Num, cursor: nat, tokens: seq<Token>,
                                           s: string, t: Token)
    requires cursor < |input| && NextSequence(input, cursor) == Success(s) && cursor + |s| <= |input|
    requires !ContainsSpace(s) && ToToken(s, cursor, parse) == Success(t)
    ensures TokensFrom(input, parse, cursor, tokens) == Prefixed(tokens, TokensFrom(input, parse, cursor, []))
    decreases |input| - cursor, 0
  {
    NextSequenceFits(input, cursor);
    var next := cursor + |s|;
    TokensFromStep(input, parse, cursor, tokens, s);
    TokensFromStep(input, parse, cursor, [], s);
    assert [] + [t] == [t];
    TokensFromShift(input, parse, next, tokens + [t]);
    TokensFromShift(input, parse, next, [t]);
    var rest := TokensFrom(input, parse, next, []);
    if rest.Success? {
      assert tokens + [t] + rest.value == tokens + ([t] + rest.value);
    }
  }

  /** Stretching the first gap back over a run of spaces keeps the tiling. */
  lemma TilesAfterSpaces(input: string, parse: string -> Num, cursor: nat, next: nat, tokens: seq<Token>)
    requires cursor <= next <= |input| && AllSpaces(input, cursor, next)
    requires Tiles(input, parse, next, tokens)
    ensures Tiles(input, parse, cursor, tokens)
  {
    forall k | 0 <= k <= |tokens|
      ensures cursor <= GapStart(tokens, k, cursor) <= GapEnd(input, tokens, k) <= |input|
              && AllSpaces(input, GapStart(tokens, k, cursor), GapEnd(input, tokens, k))
    {
      assert next <= GapStart(tokens, k, next) <= GapEnd(input, tokens, k) <= |input|
             && AllSpaces(input, GapStart(tokens, k, next), GapEnd(input, tokens, k));
    }
  }

  /** Putting in front the token that spells `input[cursor..next]` keeps the tiling. */
  lemma TilesAfterToken(input: string, parse: string -> Num, cursor: nat, next: nat, t: Token, tokens: seq<Token>)
    requires cursor < next <= |input| && t.pos == cursor && End(t) == next && Spells(input, parse, t)
    requires Tiles(input, parse, next, tokens)
    ensures Tiles(input, parse, cursor, [t] + tokens)
  {
    SpelledAfterToken(input, parse, t, tokens);
    GapsAfterToken(input, parse, cursor, next, t, tokens);
  }

  /** Every token of `[t] + tokens` spells its own text. */
  lemma SpelledAfterToken(input: string, parse: string -> Num, t: Token, tokens: seq<Token>)
    requires 0 <= t.pos < End(t) <= |input| && Spells(input, parse, t)
    requires forall k | 0 <= k < |tokens| :: 0 <= tokens[k].pos < End(tokens[k]) <= |input| && Spells(input, parse, tokens[k])
    ensures var all := [t] + tokens;
      forall k | 0 <= k < |all| :: 0 <= all[k].pos < End(all[k]) <= |input| && Spells(input, parse, all[k])
  {
    var all := [t] + tokens;
    forall k | 0 <= k < |all|
      ensures 0 <= all[k].pos < End(all[k]) <= |input| && Spells(input, parse, all[k])
    {
      if k > 0 {
        assert all[k] == tokens[k - 1];
      }
    }
  }

  /** The stretches between the tokens of `[t] + tokens` are the ones of
      `tokens`, with an empty one in front. */
  lemma GapsAfterToken(input: string, parse: string -> Num, cursor: nat, next: nat, t: Token, tokens: seq<Token>)
    requires cursor < next <= |input| && t.pos == cursor && End(t) == next
    requires forall k | 0 <= k <= |tokens| ::
      next <= GapStart(tokens, k, next) <= GapEnd(input, tokens, k) <= |input|
      && AllSpaces(input, GapStart(tokens, k, next), GapEnd(input, tokens, k))
    ensures var all := [t] + tokens;
      forall k | 0 <= k <= |all| ::
        cursor <= GapStart(all, k, cursor) <= GapEnd(input, all, k) <= |input|
        && AllSpaces(input, GapStart(all, k, cursor), GapEnd(input, all, k))
  {
    var all := [t] + tokens;
    forall k | 0 <= k <= |all|
      ensures cursor <= GapStart(all, k, cursor) <= GapEnd(input, all, k) <= |input|
              && AllSpaces(input, GapStart(all, k, cursor), GapEnd(input, all, k))
    {
      if k > 0 {
        assert GapStart(all, k, cursor) == GapStart(tokens, k - 1, next);
        assert GapEnd(input, all, k) == GapEnd(input, tokens, k - 1);
      }
    }
  }

  /** The tokens of `input[cursor..]` tile it. */
  lemma {:induction false} TokensFromTile(input: string, parse: string -> Num, cursor: nat)
    requires cursor <= |input| && TokensFrom(input, parse, cursor, []).Success?
    ensures Tiles(input, parse, cursor, TokensFrom(input, parse, cursor, []).value)
    decreases |input| - cursor
  {
    if cursor < |input| {
      NextSequenceFits(input, cursor);
      var s := NextSequence(input, cursor).value;
      var next := cursor + |s|;
      NextSequenceIsLexeme(input, cursor);
      LexemeSpaces(s);
      TokensFromStep(input, parse, cursor, [], s);
      if ContainsSpace(s) {
        TokensFromTile(input, parse, next);
        assert AllSpaces(input, cursor, next) by {
          forall p | cursor <= p < next ensures IsSpace(input[p]) {
            assert input[p] == s[p - cursor];
          }
        }
        TilesAfterSpaces(input, parse, cursor, next, TokensFrom(input, parse, next, []).value);
      } else {
        var t := ToToken(s, cursor, parse).value;
        ToTokenMeaning(s, cursor, parse);
        assert [] + [t] == [t];
        TokensFromShift(input, parse, next, [t]);
        assert TokensFrom(input, parse, cursor, []) == Prefixed([t], TokensFrom(input, parse, next, []));
        TokensFromTile(input, parse, next);
        assert input[t.pos..End(t)] == s;
        TilesAfterToken(input, parse, cursor, next, t, TokensFrom(input, parse, next, []).value);
      }
    }
  }

  /** The tokens Tokenize returns spell the expression in order, each at the
      offset where its text begins, with nothing but spaces left over. */
  lemma TokenizeTiles(input: string, parse: string -> Num)
    requires TokensOf(input, parse).Success?
    ensures Tiles(input, parse, 0, TokensOf(input, parse).value)
  {
    TokensFromTile(input, parse, 0);
  }

  /** Each token is non-empty and ends before the next one starts. */
  ghost predicate Consecutive(tokens: seq<Token>) {
    forall j, k | 0 <= j < k < |tokens| && k == j + 1 :: tokens[j].pos < End(tokens[j]) <= tokens[k].pos
  }

  /** Tiling tokens follow one another. */
  lemma TilesConsecutive(input: string, parse: string -> Num, cursor: nat, tokens: seq<Token>)
    requires cursor <= |input| && Tiles(input, parse, cursor, tokens)
    ensures Consecutive(tokens)
  {
    forall j, k | 0 <= j < k < |tokens| && k == j + 1 ensures tokens[j].pos < End(tokens[j]) <= tokens[k].pos {
      assert GapStart(tokens, k, cursor) <= GapEnd(input, tokens, k);
    }
  }

  /** Positions of consecutive tokens strictly increase, and no two tokens overlap. */
  lemma {:induction false} TokensInOrder(tokens: seq<Token>, j: nat, k: nat)
    requires Consecutive(tokens) && j < k < |tokens|
    ensures End(tokens[j]) <= tokens[k].pos && tokens[j].pos < tokens[k].pos
    decreases k - j
  {
    if j + 1 < k {
      TokensInOrder(tokens, j + 1, k);
    }
  }

  /** Tokenize returns its tokens in strictly increasing order of position. */
  lemma TokenizeInOrder(input: string, parse: string -> Num)
    requires TokensOf(input, parse).Success?
    ensures Consecutive(TokensOf(input, parse).value)
    ensures forall j, k | 0 <= j < k < |TokensOf(input, parse).value| ::
              TokensOf(input, parse).value[j].pos < TokensOf(input, parse).value[k].pos
  {
    var tokens := TokensOf(input, parse).value;
    TokenizeTiles(input, parse);
    TilesConsecutive(input, parse, 0, tokens);
    forall j, k | 0 <= j < k < |tokens| ensures tokens[j].pos < tokens[k].pos {
      TokensInOrder(tokens, j, k);
    }
  }

  // ---------------------------------------------------------------------------
  // Whole expressions

  /** A one-character token at the cursor is emitted on its own and the scan
      goes on right after it. */
  lemma SingleCharacterStep(input: string, parse: string -> Num, cursor: nat, tokens: seq<Token>)
    requires cursor < |input| && IsSingleCharacterToken(input[cursor])
    ensures ToToken([input[cursor]], cursor, parse).Success?
    ensures TokensFrom(input, parse, cursor, tokens)
            == TokensFrom(input, parse, cursor + 1, tokens + [ToToken([input[cursor]], cursor, parse).value])
  {
    SingleCharacterSequence(input, cursor);
    assert input[cursor..cursor + 1] == [input[cursor]];
    SingleCharacterToken(input[cursor], cursor, parse);
    SpaceWithinMeans([input[cursor]], 1);
    TokensFromStep(input, parse, cursor, tokens, [input[cursor]]);
  }

  /** Parentheses, a number symbol and a comma each form their own token. */
  lemma SymbolsExample(input: string, parse: string -> Num)
    requires input == "(π,)"
    ensures TokensOf(input, parse)
            == Success([OpeningParenthesis(0), NumberSymbol('π', 1), Comma(2), ClosingParenthesis(3)])
  {
    var t0, t1, t2, t3 := OpeningParenthesis(0), NumberSymbol('π', 1), Comma(2), ClosingParenthesis(3);
    assert |input| == 4 && input[0] == '(' && input[1] == 'π' && input[2] == ',' && input[3] == ')';
    SingleCharacterToken('(', 0, parse);
    SingleCharacterToken('π', 1, parse);
    SingleCharacterToken(',', 2, parse);
    SingleCharacterToken(')', 3, parse);
    SingleCharacterStep(input, parse, 0, []);
    assert [] + [t0] == [t0];
    SingleCharacterStep(input, parse, 1, [t0]);
    assert [t0] + [t1] == [t0, t1];
    SingleCharacterStep(input, parse, 2, [t0, t1]);
    assert [t0, t1] + [t2] == [t0, t1, t2];
    SingleCharacterStep(input, parse, 3, [t0, t1, t2]);
    assert [t0, t1, t2] + [t3] == [t0, t1, t2, t3];
    assert TokensFrom(input, parse, 4, [t0, t1, t2, t3]) == Success([t0, t1, t2, t3]);
  }

  /** A run of digits followed by an underscore splits into a number and a name. */
  lemma NumberThenNameExample(input: string, parse: string -> Num)
    requires input == "123_xxx"
    ensures TokensOf(input, parse) == Success([Number(parse("123"), 0, 3), Name("_xxx", 3)])
  {
    IntegerIsMaximal(input, 0, 3);
    assert input[0..3] == "123";
    SpaceWithinMeans("123", 3);
    assert ToToken("123", 0, parse) == Success(Number(parse("123"), 0, 3));
    TokensFromStep(input, parse, 0, [], "123");
    assert [] + [Number(parse("123"), 0, 3)] == [Number(parse("123"), 0, 3)];
    NameIsMaximal(input, 3, 7);
    assert input[3..7] == "_xxx";
    SpaceWithinMeans("_xxx", 4);
    assert ToToken("_xxx", 3, parse) == Success(Name("_xxx", 3));
    TokensFromStep(input, parse, 3, [Number(parse("123"), 0, 3)], "_xxx");
    assert [Number(parse("123"), 0, 3)] + [Name("_xxx", 3)] == [Number(parse("123"), 0, 3), Name("_xxx", 3)];
  }

  /** Digits and a decimal point at the end of the input: the digits become a
      number and the point is then reported at offset 1 with length 1. */
  lemma TrailingPointExample(input: string, parse: string -> Num)
    requires input == "1."
    ensures TokensOf(input, parse) == Failure(LexicalError(1, 1))
  {
    TrailingPoint(input, 0);
    assert input[0..1] == "1";
    TokensFromStep(input, parse, 0, [], "1");
  }
}
