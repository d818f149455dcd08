/** The lexer: character classes, the four token shapes the lexer tests with
    regular expressions, and the scan that cuts an expression into tokens by
    growing a candidate sequence one character at a time. */
module Lexer {
  import opened Common
  import opened Tokens

  // ---------------------------------------------------------------------------
  // Character classes

  predicate IsDigit(c: char) { '0' <= c <= '9' }

  predicate IsSpace(c: char) { c == ' ' }

  predicate IsAlphabet(c: char) { 'a' <= c <= 'z' || 'A' <= c <= 'Z' }

  predicate IsComma(c: char) { c == ',' }

  predicate IsSymbol(c: char) { IsOperatorSymbol(c) || IsNumberSymbol(c) }

  /** The Greek letters that stand for a registered constant on their own:
      the 24 lower-case letters from alpha to omega, final sigma excluded. */
  predicate IsNumberSymbol(c: char) { 'α' <= c <= 'ω' && c != 'ς' }

  /** The characters that stand for binary operators. */
  predicate IsOperatorSymbol(c: char) {
    c == '+' || c == '-' || c == '*' || c == '/' || c == '^' || c == '%'
    || c == ':' || c == '&' || c == '#' || c == '@' || c == '>' || c == '<'
  }

  predicate IsDecimalPoint(c: char) { c == '.' }

  predicate IsUnderscore(c: char) { c == '_' }

  predicate IsParenthesis(c: char) { c == '(' || c == ')' }

  predicate IsLegalCharacter(c: char) {
    IsParenthesis(c) || IsDecimalPoint(c) || IsUnderscore(c) || IsAlphabet(c)
    || IsSymbol(c) || IsComma(c) || IsDigit(c) || IsSpace(c)
  }

  /** A character that always forms a token of its own. */
  predicate IsSingleCharacterToken(c: char) { IsComma(c) || IsSymbol(c) || IsParenthesis(c) }

  predicate IsNameStart(c: char) { IsAlphabet(c) || IsUnderscore(c) }

  predicate IsNameCharacter(c: char) { IsNameStart(c) || IsDigit(c) }

  // ---------------------------------------------------------------------------
  // The four regular expressions. Their shapes `[0-9]+|[0-9]+\.[0-9]*`,
  // `[0-9]+|[0-9]+\.[0-9]+`, `[a-zA-Z_][a-zA-Z0-9_]*` and `[ ]+` are read by
  // one deterministic automaton, character by character.

  /** Where the automaton stands after reading a text. */
  datatype Reading =
    | Empty        // nothing read yet
    | Integer      // `[0-9]+`
    | Point        // `[0-9]+\.`
    | Fraction     // `[0-9]+\.[0-9]+`
    | Identifier   // `[a-zA-Z_][a-zA-Z0-9_]*`
    | Blank        // `[ ]+`
    | Other        // none of the shapes, and no extension is one either

  function Advance(r: Reading, c: char): Reading {
    match r
    case Empty =>
      if IsDigit(c) then Integer else if IsNameStart(c) then Identifier else if IsSpace(c) then Blank else Other
    case Integer => if IsDigit(c) then Integer else if IsDecimalPoint(c) then Point else Other
    case Point => if IsDigit(c) then Fraction else Other
    case Fraction => if IsDigit(c) then Fraction else Other
    case Identifier => if IsNameCharacter(c) then Identifier else Other
    case Blank => if IsSpace(c) then Blank else Other
    case Other => Other
  }

  /** The state reached after reading `s[from..until]`. */
  function ReadRange(s: seq<char>, from: nat, until: nat): Reading
    requires from <= until <= |s|
    decreases until
  {
    if until == from then Empty else Advance(ReadRange(s, from, until - 1), s[until - 1])
  }

  /** The state reached after reading all of `s`. */
  function Read(s: seq<char>): Reading { ReadRange(s, 0, |s|) }

  /** The lexer's four regular expressions: `_startsNumber`, `_number`, `_name`, `_whiteSpaces`. */
  datatype Regex = StartsNumberRegex | NumberRegex | NameRegex | SpacesRegex

  /** The shape of `re`, without its anchors, holds of a text the automaton read into `r`. */
  predicate Accepts(re: Regex, r: Reading) {
    match re
    case StartsNumberRegex => r == Integer || r == Point || r == Fraction
    case NumberRegex => r == Integer || r == Fraction
    case NameRegex => r == Identifier
    case SpacesRegex => r == Blank
  }

  /** `s` has the shape of `re`. */
  predicate Shaped(re: Regex, s: seq<char>) { Accepts(re, Read(s)) }

  /** `re`, anchored as `^shape$`, matches `s[from..until]` as .NET matches it:
      `$` also matches just before a final line feed. */
  predicate MatchesRange(re: Regex, s: seq<char>, from: nat, until: nat)
    requires from <= until <= |s|
  {
    Accepts(re, ReadRange(s, from, until))
    || (from < until && s[until - 1] == '\n' && Accepts(re, ReadRange(s, from, until - 1)))
  }

  /** `re.IsMatch(s)`. */
  predicate IsMatch(re: Regex, s: seq<char>) { MatchesRange(re, s, 0, |s|) }

  /** Reading a slice is reading the same range of the whole text. */
  lemma {:induction false} ReadRangeOfSlice(s: seq<char>, from: nat, until: nat)
    requires from <= until <= |s|
    ensures Read(s[from..until]) == ReadRange(s, from, until)
  {
    ReadShifted(s, from, until, until - from);
  }

  lemma {:induction false} ReadShifted(s: seq<char>, from: nat, until: nat, k: nat)
    requires from <= until <= |s| && k <= until - from
    ensures ReadRange(s[from..until], 0, k) == ReadRange(s, from, from + k)
    decreases k
  {
    if k > 0 {
      ReadShifted(s, from, until, k - 1);
      assert s[from..until][k - 1] == s[from + k - 1];
    }
  }

  /** On legal text, which never holds a line feed, each regular expression
      matches exactly the texts of its shape. */
  lemma MatchesLegalText(re: Regex, s: seq<char>)
    requires AllLegal(s)
    ensures IsMatch(re, s) == Shaped(re, s)
  {
    if |s| > 0 {
      assert IsLegalCharacter(s[|s| - 1]);
    }
  }

  predicate AllLegal(s: seq<char>) { forall k | 0 <= k < |s| :: IsLegalCharacter(s[k]) }

  /** `s[from..until]` is something the lexer may cut out: a one-character token,
      an identifier, a run of spaces or a complete number. */
  predicate LexemeRange(s: seq<char>, from: nat, until: nat)
    requires from <= until <= |s|
  {
    (until == from + 1 && IsSingleCharacterToken(s[from]))
    || (var r := ReadRange(s, from, until); Accepts(NameRegex, r) || Accepts(SpacesRegex, r) || Accepts(NumberRegex, r))
  }

  /** The text of something the lexer may cut out. */
  predicate Lexeme(s: seq<char>) { LexemeRange(s, 0, |s|) }

  lemma LexemeOfSlice(s: seq<char>, from: nat, until: nat)
    requires from <= until <= |s|
    ensures Lexeme(s[from..until]) == LexemeRange(s, from, until)
  {
    ReadRangeOfSlice(s, from, until);
  }

  // ---------------------------------------------------------------------------
  // Turning a sequence into a token

  /** The token a scanned sequence stands for, starting at `position`; `parse`
      is the number parser the lexer relies on for numeric text. */
  function ToToken(sequence: string, position: int, parse: string -> Num): Result<Token> {
    if |sequence| == 1 && sequence[0] == '(' then Success(OpeningParenthesis(position))
    else if |sequence| == 1 && sequence[0] == ')' then Success(ClosingParenthesis(position))
    else if |sequence| == 1 && IsNumberSymbol(sequence[0]) then Success(NumberSymbol(sequence[0], position))
    else if |sequence| == 1 && IsOperatorSymbol(sequence[0]) then Success(OperatorSymbol(sequence[0], position))
    else if |sequence| == 1 && IsComma(sequence[0]) then Success(Comma(position))
    else if IsMatch(NameRegex, sequence) then Success(Name(sequence, position))
    else if IsMatch(NumberRegex, sequence) then Success(Number(parse(sequence), position, |sequence|))
    else Failure(UnreachableCode)
  }

  /** A token is produced exactly for a single-character token, a name or a
      number; it sits at `position`, spans the whole sequence, and a number
      carries the parsed value of the sequence. */
  lemma ToTokenMeaning(sequence: string, position: int, parse: string -> Num)
    ensures ToToken(sequence, position, parse).Success? ==>
              ToToken(sequence, position, parse).value.pos == position
              && ToToken(sequence, position, parse).value.Length() == |sequence|
    ensures ToToken(sequence, position, parse).Success? <==>
              (|sequence| == 1 && IsSingleCharacterToken(sequence[0]))
              || IsMatch(NameRegex, sequence) || IsMatch(NumberRegex, sequence)
    ensures ToToken(sequence, position, parse).Success? && ToToken(sequence, position, parse).value.Number? ==>
              ToToken(sequence, position, parse).value.value == parse(sequence)
  {
  }

  // ---------------------------------------------------------------------------
  // Cutting out the next sequence

  /** What GetNextSequence does with one candidate sequence of legal characters. */
  datatype Verdict =
    | Emit(length: nat)      // stop: the next sequence is the candidate's first `length` characters
    | Grow                   // keep growing the candidate
    | IllegalSequence        // stop with an error over the whole candidate

  /** The decision taken on the candidate `input[from..until]`; `last` tells
      whether `until` is the end of the input. */
  function Judge(input: string, from: nat, until: nat, last: bool): Verdict
    requires from < until <= |input|
  {
    if until == from + 1 && IsSingleCharacterToken(input[from]) then Emit(1)
    else if MatchesRange(NameRegex, input, from, until) || MatchesRange(SpacesRegex, input, from, until) then Grow
    else if MatchesRange(StartsNumberRegex, input, from, until) then
      if last && !MatchesRange(NumberRegex, input, from, until) then Emit(until - from - 1) else Grow
    else if MatchesRange(NumberRegex, input, from, until - 1) || MatchesRange(NameRegex, input, from, until - 1)
            || MatchesRange(SpacesRegex, input, from, until - 1) then
      Emit(until - from - 1)
    else IllegalSequence
  }

  /** The candidate `input[from..i]` has been grown past: it still has a shape
      worth growing, and if it reaches the end of the input it is complete. */
  predicate Grown(input: string, from: nat, i: nat)
    requires from <= i <= |input|
  {
    from < i ==>
      IsLegalCharacter(input[i - 1])
      && (var r := ReadRange(input, from, i);
          (Accepts(NameRegex, r) || Accepts(SpacesRegex, r) || Accepts(StartsNumberRegex, r))
          && (i == |input| ==> Accepts(NameRegex, r) || Accepts(SpacesRegex, r) || Accepts(NumberRegex, r)))
  }

  /** A range that does not end in a line feed is matched exactly when it has the shape. */
  lemma MatchesLegalRange(s: seq<char>, from: nat, until: nat)
    requires from <= until <= |s| && (from < until ==> IsLegalCharacter(s[until - 1]))
    ensures forall re: Regex :: MatchesRange(re, s, from, until) == Accepts(re, ReadRange(s, from, until))
  {
  }

  /** The verdicts on a legal candidate whose shorter candidate was grown past. */
  lemma JudgeOnGrownCandidate(input: string, from: nat, until: nat, last: bool)
    requires from < until <= |input| && IsLegalCharacter(input[until - 1]) && Grown(input, from, until - 1)
    requires last <==> until == |input|
    ensures Judge(input, from, until, last).Grow? ==> Grown(input, from, until)
    ensures Judge(input, from, until, last).Emit? ==>
              0 < Judge(input, from, until, last).length <= until - from
              && LexemeRange(input, from, from + Judge(input, from, until, last).length)
  {
    var before := ReadRange(input, from, until - 1);
    assert ReadRange(input, from, until) == Advance(before, input[until - 1]);
    MatchesLegalRange(input, from, until);
    MatchesLegalRange(input, from, until - 1);
  }

  /** The scan of GetNextSequence from index `i` on: the candidate grows to
      `input[from..i+1]`, or the scan stops at the end of the input or at an
      illegal character. */
  function ScanFrom(input: string, from: nat, i: nat): Result<string>
    requires from <= i <= |input|
    decreases |input| - i, 1
  {
    if i == |input| then Success(input[from..])
    else if !IsLegalCharacter(input[i]) then Failure(LexicalError(i, 1))
    else Resolve(input, from, i)
  }

  /** The scan once the candidate `input[from..i+1]` is known to be legal. */
  function Resolve(input: string, from: nat, i: nat): Result<string>
    requires from <= i < |input|
    decreases |input| - i, 0
  {
    match Judge(input, from, i + 1, i == |input| - 1)
    case Emit(length) => Success(input[from..from + length])
    case Grow => ScanFrom(input, from, i + 1)
    case IllegalSequence => Failure(LexicalError(from, i + 1 - from))
  }

  /** What a scan that started at `from` may return. */
  predicate ScanOutcome(input: string, from: nat, r: Result<string>)
    requires from < |input|
  {
    match r
    case Success(s) => 0 < |s| && from + |s| <= |input| && s == input[from..from + |s|] && LexemeRange(input, from, from + |s|)
    case Failure(e) => e.LexicalError? && from <= e.position && 0 < e.length && e.position + e.length <= |input|
  }

  lemma {:induction false} ScanFromOutcome(input: string, from: nat, i: nat)
    requires from <= i <= |input| && from < |input|
    requires Grown(input, from, i)
    ensures ScanOutcome(input, from, ScanFrom(input, from, i))
    decreases |input| - i, 1
  {
    if i == |input| {
      assert input[from..] == input[from..from + (i - from)];
    } else if IsLegalCharacter(input[i]) {
      ResolveOutcome(input, from, i);
    }
  }

  /** One step of the scan: it stops with a possible outcome, or grows the
      candidate by one character. */
  lemma ResolveStep(input: string, from: nat, i: nat)
    requires from <= i < |input| && IsLegalCharacter(input[i])
    requires Grown(input, from, i)
    ensures ScanOutcome(input, from, Resolve(input, from, i))
            || (Resolve(input, from, i) == ScanFrom(input, from, i + 1) && Grown(input, from, i + 1))
  {
    JudgeOnGrownCandidate(input, from, i + 1, i == |input| - 1);
    match Judge(input, from, i + 1, i == |input| - 1)
    case Emit(length) =>
      assert Resolve(input, from, i) == Success(input[from..from + length]);
    case Grow =>
    case IllegalSequence =>
  }

  lemma {:induction false} ResolveOutcome(input: string, from: nat, i: nat)
    requires from <= i < |input| && IsLegalCharacter(input[i])
    requires Grown(input, from, i)
    ensures ScanOutcome(input, from, Resolve(input, from, i))
    decreases |input| - i, 0
  {
    ResolveStep(input, from, i);
    if !ScanOutcome(input, from, Resolve(input, from, i)) {
      ScanFromOutcome(input, from, i + 1);
    }
  }

  /** The sequence GetNextSequence cuts out of `input` at `from`. */
  function NextSequence(input: string, from: nat): Result<string>
    requires from < |input|
  {
    ScanFrom(input, from, from)
  }

  /** The next sequence is a non-empty piece of the input at `from`; a failure
      is a lexical error inside the rest of the input. */
  lemma NextSequenceFits(input: string, from: nat)
    requires from < |input|
    ensures var r := NextSequence(input, from);
            r.Success? ==> 0 < |r.value| && from + |r.value| <= |input| && r.value == input[from..from + |r.value|]
    ensures var r := NextSequence(input, from);
            r.Failure? ==> r.error.LexicalError? && from <= r.error.position
                           && 0 < r.error.length && r.error.position + r.error.length <= |input|
  {
    ScanFromOutcome(input, from, from);
  }

  /** The next sequence is a lexeme: a single-character token, a name, a run
      of spaces or a number. */
  lemma NextSequenceIsLexeme(input: string, from: nat)
    requires from < |input| && NextSequence(input, from).Success?
    ensures Lexeme(NextSequence(input, from).value)
  {
    ScanFromOutcome(input, from, from);
    LexemeOfSlice(input, from, from + |NextSequence(input, from).value|);
  }

  method GetNextSequence(input: string, from: nat) returns (r: Result<string>)
    requires from < |input|
    ensures r == NextSequence(input, from)
  {
    var i := from;
    while i < |input|
      invariant from <= i <= |input|
      invariant ScanFrom(input, from, i) == NextSequence(input, from)
    {
      if !IsLegalCharacter(input[i]) {
        return Failure(LexicalError(i, 1));
      }
      match Judge(input, from, i + 1, i == |input| - 1)
      case Emit(length) =>
        return Success(input[from..from + length]);
      case Grow =>
        i := i + 1;
      case IllegalSequence =>
        return Failure(LexicalError(from, i + 1 - from));
    }
    assert input[from..] == input[from..|input|];
    return Success(input[from..|input|]);
  }

  // ---------------------------------------------------------------------------
  // Tokenizing a whole expression

  /** `s.Contains(" ")`: some character of `s[..n]` is a space. */
  predicate SpaceWithin(s: seq<char>, n: nat)
    requires n <= |s|
  {
    n > 0 && (IsSpace(s[n - 1]) || SpaceWithin(s, n - 1))
  }

  predicate ContainsSpace(s: seq<char>) { SpaceWithin(s, |s|) }

  /** `tokens` followed by the tokens of `input[cursor..]`: the list Tokenize
      holds once its cursor reached `cursor`, grown to the end of the input.
      Runs of spaces are consumed but not emitted. */
  function TokensFrom(input: string, parse: string -> Num, cursor: nat, tokens: seq<Token>): Result<seq<Token>>
    requires cursor <= |input|
    decreases |input| - cursor, 1
  {
    if cursor == |input| then Success(tokens) else TokensAt(input, parse, cursor, tokens)
  }

  /** TokensFrom once the cursor is known to be inside the input: the next
      sequence becomes a token unless it holds a space. */
  function TokensAt(input: string, parse: string -> Num, cursor: nat, tokens: seq<Token>): Result<seq<Token>>
    requires cursor < |input|
    decreases |input| - cursor, 0
  {
    NextSequenceFits(input, cursor);
    match NextSequence(input, cursor)
    case Failure(e) => Failure(e)
    case Success(sequence) =>
      if ContainsSpace(sequence) then TokensFrom(input, parse, cursor + |sequence|, tokens)
      else
        match ToToken(sequence, cursor, parse)
        case Failure(e) => Failure(e)
        case Success(token) => TokensFrom(input, parse, cursor + |sequence|, tokens + [token])
  }

  /** The tokens of a whole expression. */
  function TokensOf(input: string, parse: string -> Num): Result<seq<Token>> {
    TokensFrom(input, parse, 0, [])
  }

  /** One step of TokensFrom, once the next sequence is known. */
  lemma TokensFromStep(input: string, parse: string -> Num, cursor: nat, tokens: seq<Token>, sequence: string)
    requires cursor < |input| && NextSequence(input, cursor) == Success(sequence)
    requires cursor + |sequence| <= |input|
    ensures ContainsSpace(sequence) ==>
              TokensFrom(input, parse, cursor, tokens) == TokensFrom(input, parse, cursor + |sequence|, tokens)
    ensures !ContainsSpace(sequence) && ToToken(sequence, cursor, parse).Failure? ==>
              TokensFrom(input, parse, cursor, tokens) == Failure(ToToken(sequence, cursor, parse).error)
    ensures !ContainsSpace(sequence) && ToToken(sequence, cursor, parse).Success? ==>
              TokensFrom(input, parse, cursor, tokens)
              == TokensFrom(input, parse, cursor + |sequence|, tokens + [ToToken(sequence, cursor, parse).value])
  {
    assert TokensFrom(input, parse, cursor, tokens) == TokensAt(input, parse, cursor, tokens);
  }

  method Tokenize(input: string, parse: string -> Num) returns (r: Result<seq<Token>>)
    ensures r == TokensOf(input, parse)
  {
    var tokens: seq<Token> := [];
    var cursor := 0;
    while cursor < |input|
      invariant cursor <= |input|
      invariant TokensOf(input, parse) == TokensFrom(input, parse, cursor, tokens)
      decreases |input| - cursor
    {
      var sequence := GetNextSequence(input, cursor);
      if sequence.Failure? {
        return Failure(sequence.error);
      }
      NextSequenceFits(input, cursor);
      var next := cursor + |sequence.value|;
      TokensFromStep(input, parse, cursor, tokens, sequence.value);
      if !ContainsSpace(sequence.value) {
        var token := ToToken(sequence.value, cursor, parse);
        if token.Failure? {
          return Failure(token.error);
        }
        tokens := tokens + [token.value];
      }
      cursor := next;
    }
    return Success(tokens);
  }
}
