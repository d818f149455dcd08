# Calculator: a Dafny model of the lexer, the parser and the syntax tree

The Calculator library evaluates arithmetic expressions such as `2*π+1/2` or
`f(1, g(2))`. A caller registers operators, functions and constants. An
expression then passes through three stages:

1. The **lexer** cuts the text into tokens. It grows a candidate sequence one
   character at a time and tests it against four regular expressions: a number
   prefix, a whole number, an identifier and a run of spaces.
2. The **parser** does two things:
   - a preprocessing pass checks every pair of neighbouring tokens, turns names
     into function or constant names, checks commas and matches parentheses;
   - the tree builder turns the tokens into a syntax tree, using one stack of
     nodes and writing into the fields of the nodes on that stack.
3. The **syntax-tree nodes** (`Value`, `Operation`, `FunctionCall`,
   `Parenthesis`) evaluate recursively.

The registry entries (`Operator`, `Function`, and two versions of
`NumberConstant`) are validating constructors.

The project is organised as follows.

- `common.dfy`: `Num`, the abstract number type; `Option`, `Result` and the
  errors the library raises; `Outcome`, what a caller's mapping returns.
- `tokens.dfy`: the token kinds, with their position and length.
- `lexer.dfy`, `lexer_props.dfy`: the character classes and the four regular
  expressions, read by one automaton. Also `ToToken`, and `GetNextSequence` and
  `Tokenize` as loops proved against their specification functions. Then what
  the scan promises: maximal munch, error positions, and tokens that tile the
  input in order.
- `wrappers.dfy`, `dependency_wrappers.dfy`: the registry entries and both
  versions of the constant constructors.
- `parser.dfy`: the registry, built by `ToDictionary`, and when its
  construction fails.
- `preprocessor.dfy`, `preprocessor_props.dfy`: `Preprocess` as a loop over
  token pairs with three position stacks. The stacks are then related to the
  parentheses a token list leaves unmatched.
- `nodes.dfy`: the tree and its evaluation.
- `tree_builder.dfy`, `tree_builder_props.dfy`: `BuildSyntaxTree`. The shared,
  mutable node objects are modelled as an arena: a sequence of nodes linked
  by index. The node stack is a sequence of indices. A write into a node
  replaces that arena entry, so it is seen from every node that links to it.
  `Unfold` reads a built arena back as a tree.

## Model

| member | source | states |
|---|---|---|
| Lexer.MatchesLegalText | Src/Components/Lexer.cs:13-19 | On text of legal characters, each anchored regular expression matches exactly the texts of its shape. |
| Lexer.ToTokenMeaning | Src/Components/Lexer.cs:84-115 | A token is made exactly for a one-character token, a name or a number. It sits at the given position and spans the whole sequence. A number carries the parsed value of its text. |
| Lexer.NextSequenceFits | Src/Components/Lexer.cs:117-159 | The next sequence is a non-empty piece of the input starting at the cursor. A failure is a lexical error lying inside the rest of the input. |
| Lexer.NextSequenceIsLexeme | Src/Components/Lexer.cs:117-159 | The next sequence is a one-character token, a name, a run of spaces or a complete number. |
| Lexer.GetNextSequence | Src/Components/Lexer.cs:117-159 | The growing loop returns the sequence the scan specification cuts out, or its error. |
| Lexer.TokensFromStep | Src/Components/Lexer.cs:167-176 | One cursor step: a sequence holding a space is skipped, a failing token stops the loop with its error, and any other token is appended. |
| Lexer.Tokenize | Src/Components/Lexer.cs:161-179 | The cursor loop returns the tokens of the whole expression as the specification defines them. |
| LexerProperties.SpaceWithinMeans | Src/Components/Lexer.cs:171 | The recursive space test holds exactly when some character is a space, as `Contains(" ")` does. |
| LexerProperties.LexemeSpaces | Src/Components/Lexer.cs:171-173 | A lexeme holds a space exactly when it is all spaces. Otherwise it is a one-character token, a name or a number. |
| LexerProperties.IllegalCharacterAtStart | Src/Components/Lexer.cs:119-123 | An illegal character that begins a sequence is reported at its own offset with length 1. |
| LexerProperties.ScanEnds | Src/Components/Lexer.cs:119-123 | A scan that reaches the end of the input returns the rest of it. An illegal character it meets is reported at its own offset with length 1. |
| LexerProperties.SingleCharacterSequence | Src/Components/Lexer.cs:127-130 | A parenthesis, comma, operator symbol or number symbol is always a sequence of its own, whatever follows it. |
| LexerProperties.SingleCharacterToken | Src/Components/Lexer.cs:86-104 | Such a character becomes a token of length 1 of the matching kind, and of that kind only, carrying the character. |
| LexerProperties.NameIsMaximal | Src/Components/Lexer.cs:132-150 | A name absorbs every following letter, digit and underscore. It is cut at the first other legal character; an illegal character there is reported at its offset. |
| LexerProperties.IntegerIsMaximal | Src/Components/Lexer.cs:132-150 | A run of digits is cut at the first legal character that is neither a digit nor a point, such as a name start. |
| LexerProperties.PointWithoutFraction | Src/Components/Lexer.cs:145-153 | Digits and a point followed by a legal non-digit fail at the run's start. The error length counts that character too. |
| LexerProperties.LonePoint | Src/Components/Lexer.cs:145-153 | A point that begins a sequence fails at its offset with length 1. |
| LexerProperties.TrailingPoint | Src/Components/Lexer.cs:136-140 | Digits and a point at the end of the input are cut to the digits. The point is then reported alone at its own offset. |
| LexerProperties.SequenceAlwaysTokenizes | Src/Components/Lexer.cs:171-172 | `ToToken` never reaches its unreachable case on a space-free sequence the scan returned. |
| LexerProperties.TokenizeFailsLexically | Src/Components/Lexer.cs:161-179 | A failed tokenization fails with a lexical error whose span lies inside the input. |
| LexerProperties.TokensFromShift | Src/Components/Lexer.cs:163-178 | The tokens gathered so far only stand in front of the tokens of the rest of the input. |
| LexerProperties.TokenizeTiles | Src/Components/Lexer.cs:161-179 | Each token spells its own text, at the offset where that text begins. Only spaces lie before, between and after the tokens. |
| LexerProperties.TokenizeInOrder | Src/Components/Lexer.cs:171-175 | Tokens follow one another without overlap, so their positions strictly increase. |
| LexerProperties.SingleCharacterStep | Src/Components/Lexer.cs:127-130 | A one-character token at the cursor is emitted alone, and tokenizing goes on right after it. |
| LexerProperties.SymbolsExample | Src/Components/Lexer.cs:161-179 | `(π,)` gives an opening parenthesis, a number symbol, a comma and a closing parenthesis, at offsets 0 to 3. |
| LexerProperties.NumberThenNameExample | Src/Components/Lexer.cs:132-150 | `123_xxx` splits into the number `123` (length 3) and the name `_xxx` at offset 3. |
| LexerProperties.TrailingPointExample | Src/Components/Lexer.cs:136-140 | `1.` fails at offset 1 with length 1. |
| Wrappers.OperatorSymbolsListed | Src/Components/Lexer.cs:7 | The operator-symbol predicate holds for exactly the twelve listed characters. |
| Wrappers.NumberSymbolsListed | Src/Components/Lexer.cs:9 | The number-symbol predicate holds for exactly the twenty-four listed Greek letters. |
| Wrappers.NameMatch | Src/Components/Lexer.cs:19 | The anchored identifier pattern matches an identifier, or an identifier followed by one line feed. |
| Wrappers.NameNeverStartsWithDigit | Src/Components/Lexer.cs:19 | No text that is empty or starts with a digit matches the identifier pattern. |
| Wrappers.NewOperator | Src/Definitions/Wrappers/Operator.cs:11-20 | Accepted exactly when the symbol is one of the twelve operator characters. It then stores symbol, mapping and any precedence unchanged; otherwise the definition is invalid. |
| Wrappers.NewFunction | Src/Definitions/Wrappers/Function.cs:9-17 | Accepted exactly when the name matches the identifier pattern. It then stores name and mapping unchanged. |
| Wrappers.NewSymbolConstant | Src/Definitions/Wrappers/NumberConstant.cs:9-17 | Accepted exactly for one of the 24 number symbols. The identifier is then that one-character string, and the value is stored unchanged. |
| Wrappers.NewNamedConstant | Src/Definitions/Wrappers/NumberConstant.cs:19-27 | Accepted exactly when the name matches the identifier pattern. Name and value are stored unchanged. |
| Wrappers.AcceptanceIgnoresPayload | Src/Definitions/Wrappers/Operator.cs:13-15 | Acceptance of every constructor depends on its symbol or name only, never on the mapping, precedence or value. |
| Wrappers.DigitNamesRejected | Src/Definitions/Wrappers/Function.cs:11-13 | Empty names and names starting with a digit are rejected, both for functions and for named constants. |
| Wrappers.SymbolAndNamedConstantsDiffer | Src/Definitions/Wrappers/NumberConstant.cs:9-27 | A symbol the one-character constructor accepts is rejected as a name by the named constructor. |
| DependencyWrappers.SymbolConstant | Src/Definitions/DependencyWrappers/NumberConstant.cs:9-19 | The one-character constructor accepts exactly a letter or an underscore, and stores the one-character identifier and the value. |
| DependencyWrappers.NamedConstant | Src/Definitions/DependencyWrappers/NumberConstant.cs:21-29 | An empty name fails when its first character is indexed. Otherwise the name is accepted exactly when its first character is a number symbol, and stored unchanged with the value. |
| DependencyWrappers.NumberSymbolsRejected | Src/Definitions/DependencyWrappers/NumberConstant.cs:11-15 | Every Greek number symbol, `π` included, is rejected by this variant and accepted by the other. |
| DependencyWrappers.NamedConstantChecksFirstCharacterOnly | Src/Definitions/DependencyWrappers/NumberConstant.cs:23-28 | A name beginning with a number symbol is accepted whatever follows. The other variant rejects every such name. |
| Parser.KeyedMeaning | Src/Components/Parser.cs:16-17 | `ToDictionary` succeeds exactly when every element has a key and no two keys are equal. The dictionary then maps each key to its element and holds nothing else. On failure, the error is that of the first element whose key fails or repeats an earlier key. |
| Parser.KeyedFailureSticks | Src/Components/Parser.cs:16-17 | Once a prefix fails, the whole construction fails with the same error. |
| Parser.ToDictionary | Src/Components/Parser.cs:16-17 | The insertion loop builds the dictionary `Keyed` specifies, or stops with its error. |
| Parser.NewParser | Src/Components/Parser.cs:11-39 | The constructor builds the function table, then the operator table, then the constant table, stopping at the first failure. |
| Parser.ConstantKeyMeaning | Src/Components/Parser.cs:19-38 | A constant gets its key exactly when it does not collide, and that key is its identifier. A collision is with a function if the identifier's length is not 1, and with an operator if it is. |
| Parser.ParserSucceeds | Src/Components/Parser.cs:11-39 | Construction succeeds exactly when there are no duplicate function names, no duplicate operator symbols, no colliding constant and no duplicate constant identifier. |
| Parser.ParserIndexes | Src/Components/Parser.cs:11-39 | A constructed parser finds every entry under its name, symbol or identifier, and holds nothing else. |
| Parser.ConstantErrors | Src/Components/Parser.cs:19-38 | Among the constants, the first one that collides or repeats an identifier decides the error. A collision is named as one with a function or one with an operator, and is reported before a repetition. |
| Parser.FunctionsCheckedFirst | Src/Components/Parser.cs:16 | Two functions of the same name make construction fail with a duplicate key, whatever the operators and constants are. |
| Parser.OneLetterConstantBesideFunction | Src/Components/Parser.cs:21-35 | A one-letter constant may share its name with a function, since it is only compared with operator symbols. |
| Nodes.Applied | Src/Definitions/Node/Operation.cs:19 | A mapping's value is the node's value, and a mapping's failure passes through unchanged. |
| Nodes.Evaluate | Src/Definitions/Node/Operation.cs:13-20 | A tree that has a value is complete. The only failures are an internal-consistency failure or a mapping's own. |
| Nodes.EvaluateAll | Src/Definitions/Node/FunctionCall.cs:18 | The arguments' values come one per argument, in order. Otherwise the error is that of the first failing argument, all earlier ones having values. |
| Nodes.ValueEvaluates | Src/Definitions/Node/Value.cs:7-12 | A value node evaluates to exactly the number it was built with, and never fails. |
| Nodes.MissingPartsInconsistent | Src/Definitions/Node/Operation.cs:15-17 | Each of these is an internal-consistency failure: an operation missing either operand, a call without arguments, an empty parenthesis. |
| Nodes.ParenthesisIsTransparent | Src/Definitions/Node/Parenthesis.cs:7-14 | A parenthesis has exactly its child's value, or its child's failure. |
| Nodes.OperationOrder | Src/Definitions/Node/Operation.cs:13-20 | The left operand is evaluated first, and its failure wins. Otherwise the right operand's failure is the result. Otherwise the mapping receives the left value first. |
| Nodes.CallReceivesArguments | Src/Definitions/Node/FunctionCall.cs:12-19 | A call with arguments hands the mapping one value per argument, in insertion order, with no arity check. The mapping's outcome is the call's. |
| Nodes.CompleteIsConsistent | Src/Definitions/Node/Operation.cs:15-17 | In a tree with every part present, the only possible failure is a mapping's own. |
| Nodes.CompleteAndTotalEvaluates | Src/Definitions/Node/Operation.cs:13-20 | A complete tree whose mappings never fail always has a value. |
| Preprocessor.Converted | Src/Components/Parser.cs:85-109 | A name becomes a function name before an opening parenthesis and a constant name otherwise, keeping its text and position. Every other token is kept. |
| Preprocessor.ScanOutcome | Src/Components/Parser.cs:70-132 | One more pair succeeds exactly when its own checks pass, and otherwise fails with their error. |
| Preprocessor.ScanAdvance | Src/Components/Parser.cs:111-130 | One more pair updates the three stacks as the pair's pushes and pops say. |
| Preprocessor.ScanFailureSticks | Src/Components/Parser.cs:70-132 | A failure at some pair is kept through every later pair. |
| Preprocessor.ScanFailureReported | Src/Components/Parser.cs:70-83 | The first failing pair decides the outcome of the whole preprocessing. |
| Preprocessor.ScanPair | Src/Components/Parser.cs:72-130 | The loop body returns the pair's output token and new stacks, or its error, as the pair step specifies. |
| Preprocessor.Preprocess | Src/Components/Parser.cs:41-148 | The method returns what the preprocessing specification defines, including the boundary checks and the final parenthesis check. |
| PreprocessorProperties.ScanShape | Src/Components/Parser.cs:70-109 | After `i` pairs, the output has `i` tokens. No pair so far was forbidden, and each output token is its input token converted by its successor. |
| PreprocessorProperties.PreprocessShape | Src/Components/Parser.cs:41-148 | On success the output has one token per input token, in order. Each converted token is a name before its successor; the last is kept unconverted. The first token can start an expression and the last can end one. |
| PreprocessorProperties.SingleToken | Src/Components/Parser.cs:52-63 | A single token that can start an expression comes back unchanged, a lone name included. |
| PreprocessorProperties.Boundaries | Src/Components/Parser.cs:45-139 | An empty list fails at `tokens[0]`. A bad first token is reported at its position and length. Once the pairs pass, a bad last token is reported likewise. |
| PreprocessorProperties.ForbiddenPairReported | Src/Components/Parser.cs:75-83 | The first forbidden pair met is reported at its second token's position and length. |
| PreprocessorProperties.ScanParentheses | Src/Components/Parser.cs:111-130 | After each pair, the opening stack holds the positions of the parentheses still unmatched. The closing stack holds those of the closing parentheses that had nothing to match. |
| PreprocessorProperties.ScanCalls | Src/Components/Parser.cs:85-130 | After each pair, the call stack holds the positions of exactly those unmatched parentheses that open a function call. |
| PreprocessorProperties.CommaCondition | Src/Components/Parser.cs:98-102 | Read off the stacks, the comma test asks whether the innermost unmatched parenthesis opened a call. Peeking at an empty opening stack cannot happen. |
| PreprocessorProperties.CommaRule | Src/Components/Parser.cs:98-102 | A comma passes exactly when the innermost parenthesis still open before it opened a function call. Otherwise it is reported at the comma. |
| PreprocessorProperties.CommaReported | Src/Components/Parser.cs:98-102 | A misplaced comma is what the whole preprocessing reports. |
| PreprocessorProperties.UnbalancedReportedLast | Src/Components/Parser.cs:143-145 | Once all positional checks pass, preprocessing fails exactly when a parenthesis is left unmatched or a closing one had nothing to match. The error is then `UnmatchingParenthesis`. |
| TreeBuilder.Nested | Src/Components/Parser.cs:178-198 | Hanging a new node under the top succeeds exactly when the top is a parenthesis or an operation, or a call where calls are accepted. Any other top is an internal error. Where the node is linked is stated by `PlacedMeaning`. |
| TreeBuilder.Replaced | Src/Components/Parser.cs:245-260 | Putting a new operation in the place of a popped node succeeds exactly for a parenthesis, a call with at least one argument, or an operation where the code allows one. A call without arguments fails on `Pop`; any other node is an internal error. Where the operation is linked is stated by `PoppedInto`. |
| TreeBuilder.Placed | Src/Components/Parser.cs:178-198 | Placing a value, call or parenthesis keeps every link and stack entry inside the arena. Its placement rule is the lemma `PlacedMeaning`. |
| TreeBuilder.Lowered | Src/Components/Parser.cs:271-292 | Re-linking an operation below the stack keeps every link and stack entry inside the arena. What it links is stated by `PoppedInto`, through the three pop lemmas. |
| TreeBuilder.OnOperator | Src/Components/Parser.cs:231-328 | Every operator step keeps every link and stack entry inside the arena. Its rule, case by case, is in `HigherPrecedenceRotates`, `LowerPrecedencePops`, `ValueOnTopPops`, `GroupOnTopPops` and `OperatorOnEmptyStack`. |
| TreeBuilder.Unwound | Src/Components/Parser.cs:359-361 | The unwound stack is a prefix of the old one. Its top is a stopping node, and none of the popped nodes is one. |
| TreeBuilder.OnClosing | Src/Components/Parser.cs:357-367 | A closing parenthesis keeps every link and stack entry inside the arena. |
| TreeBuilder.OnComma | Src/Components/Parser.cs:369-379 | A comma keeps every link and stack entry inside the arena. Its rule is the lemma `CommaAppendsArgument`. |
| TreeBuilder.Step | Src/Components/Parser.cs:156-383 | An unknown function is reported at its position and name length, and an unknown operator at its position with length 1. An unknown constant is a missing dictionary key; a bare name is an internal error. Every successful step keeps the arena consistent. |
| TreeBuilder.Built | Src/Components/Parser.cs:154-385 | The state after the first `n` tokens keeps the arena consistent. |
| TreeBuilder.BuiltStep | Src/Components/Parser.cs:154-156 | The state after one more token is that token's step applied to the state before it. |
| TreeBuilder.BuildOf | Src/Components/Parser.cs:387 | A built tree's root is a node of the arena. |
| TreeBuilder.BuiltFailureSticks | Src/Components/Parser.cs:154-385 | A failure at some token is kept through every later token. |
| TreeBuilder.Place | Src/Components/Parser.cs:178-198 | The placement branch returns the state `Placed` defines, so the rule of `PlacedMeaning` holds of it. |
| TreeBuilder.AddOperation | Src/Components/Parser.cs:231-328 | The operator branch does what the operator specification says. |
| TreeBuilder.CloseParenthesis | Src/Components/Parser.cs:357-367 | The popping loop leaves the stack the closing specification defines. |
| TreeBuilder.AddArgument | Src/Components/Parser.cs:369-379 | The popping loop and the new argument give the state the comma specification defines. |
| TreeBuilder.AddToken | Src/Components/Parser.cs:156-383 | One loop iteration does what the step specification says. |
| TreeBuilder.BuildSyntaxTree | Src/Components/Parser.cs:150-388 | The builder returns the graph the build specification defines, or the error of the first failing token. |
| TreeBuilderProperties.StepFailureReported | Src/Components/Parser.cs:154-385 | The first token whose step fails decides the outcome of the whole build. |
| TreeBuilderProperties.UnknownNamesReported | Src/Components/Parser.cs:166-237 | An unknown function or operator is reported at its token. An unknown constant fails as a plain dictionary lookup. |
| TreeBuilderProperties.BuiltPrefix | Src/Components/Parser.cs:154-156 | The state after `n` tokens depends on those tokens alone. |
| TreeBuilderProperties.NoTokens | Src/Components/Parser.cs:387 | An empty token list fails at `Last()` on the empty stack. |
| TreeBuilderProperties.PlacedMeaning | Src/Components/Parser.cs:178-198 | On an empty stack a value, call or parenthesis becomes the only node on the stack. Otherwise placing it succeeds exactly under a parenthesis, an operation, or a call where calls are accepted, and fails with an internal error elsewhere. The new node becomes the parenthesis's child, the operation's right operand or the call's last argument. It is pushed unless it is a value under an operation, and no other node changes. |
| TreeBuilderProperties.CommaAppendsArgument | Src/Components/Parser.cs:369-379 | A comma fails on `Peek` with an empty stack exactly when no call is on the stack. Otherwise the stack is unwound to the innermost call, and a new empty parenthesis becomes its last argument and is pushed. No other node changes. |
| TreeBuilderProperties.HigherPrecedenceRotates | Src/Components/Parser.cs:264-270 | A tighter operator takes the top operation's right operand as its left, becomes that right operand and is pushed. No other node changes. |
| TreeBuilderProperties.LowerPrecedencePops | Src/Components/Parser.cs:271-292 | An equal or looser operator succeeds exactly when the node below the top operation is absent, a parenthesis, or a call with an argument. An operation or value below is an internal error, and a call without arguments fails on `Pop`. On success the operation takes the top as its left operand and replaces it on the stack. It also takes the popped node's place below: the call's last argument or the parenthesis's child. No other node changes. |
| TreeBuilderProperties.ValueOnTopPops | Src/Components/Parser.cs:241-262 | An operator after a value succeeds exactly when the node below is absent, a parenthesis, or a call with an argument. An operation or value below is an internal error, and a call without arguments fails on `Pop`. On success the value is the operation's left operand, and the operation takes its place in the node below and on the stack. No other node changes. |
| TreeBuilderProperties.GroupOnTopPops | Src/Components/Parser.cs:296-321 | An operator after a call or a parenthesis succeeds exactly when the node below is absent, an operation, a parenthesis, or a call with an argument. A value below is an internal error, and a call without arguments fails on `Pop`. On success the group is the operation's left operand, and the operation takes its place below, as an operation's right operand included, and on the stack. No other node changes. |
| TreeBuilderProperties.OperatorOnEmptyStack | Src/Components/Parser.cs:241 | An operator with nothing before it fails on `Peek` with the empty stack. |
| TreeBuilderProperties.FirstOperation | Src/Components/Parser.cs:241-262 | `a op b` builds the operation over both values, alone on the stack. |
| TreeBuilderProperties.DifferencePopped | Src/Components/Parser.cs:271-292 | After `a-b+` with equal precedences, `+` holds the difference as its left operand and is alone on the stack. |
| TreeBuilderProperties.EqualPrecedenceAssociatesLeft | Src/Components/Parser.cs:271-292 | `a-b+c` with equal precedences builds `(a-b)+c`. |
| TreeBuilderProperties.ProductRotatesIn | Src/Components/Parser.cs:264-270 | After `a+b*`, the product holds `b` as its left operand, is the sum's right operand, and is pushed above the sum. |
| TreeBuilderProperties.ProductUnderSum | Src/Components/Parser.cs:264-270 | After `a+b*c` the product is the sum's right operand, and both operations stay on the stack. |
| TreeBuilderProperties.HigherPrecedenceNestsRight | Src/Components/Parser.cs:264-270 | `a+b*c` with `*` binding tighter builds `a+(b*c)`. |
| TreeBuilderProperties.MixedPrecedenceUnreachable | Src/Components/Parser.cs:271-288 | `a+b*c-d`, with `*` binding tighter than `+` and `-`, fails with an internal error: `-` pops the product and finds the sum below it. |
| TreeBuilderProperties.BothParenthesesOpened | Src/Components/Parser.cs:330-355 | After `((`, the inner parenthesis is the outer one's child, and both are on the stack. |
| TreeBuilderProperties.InnerParenthesisFilled | Src/Components/Parser.cs:178-185 | After `((a`, the value is the inner parenthesis's child and is pushed. |
| TreeBuilderProperties.InnerClosingUnwinds | Src/Components/Parser.cs:357-367 | The closing parenthesis of `((a)` pops the value and the inner parenthesis, and leaves the outer one on the stack. |
| TreeBuilderProperties.InnerParenthesisClosed | Src/Components/Parser.cs:357-367 | After `((a)`, only the outer parenthesis is on the stack. |
| TreeBuilderProperties.PlusPopsOuterParenthesis | Src/Components/Parser.cs:296-327 | A `+` with only the outer parenthesis on the stack pops it as its left operand and is then alone on the stack. |
| TreeBuilderProperties.PlusTakesOuterParenthesis | Src/Components/Parser.cs:296-327 | After `((a)+`, the operation holds the outer parenthesis and is the only node on the stack. |
| TreeBuilderProperties.PlusTakesRightOperand | Src/Components/Parser.cs:187-189 | After `((a)+b`, `b` is the operation's right operand and is not pushed. |
| TreeBuilderProperties.NestedParenthesesLoseRoot | Src/Components/Parser.cs:357-387 | `((a)+b)` has no tree: the last closing parenthesis pops the operation, the only node left, and `Last()` fails on the empty stack. |
| TreeBuilderProperties.SymbolConstantEvaluates | Src/Components/Parser.cs:170-180 | A lone number symbol builds one value holding the constant's value, which is what it evaluates to. |
| TreeBuilderProperties.ValueClosingUnwinds | Src/Components/Parser.cs:357-367 | The closing parenthesis of `(a)` pops the value and keeps the parenthesis, the last node, on the stack. |
| TreeBuilderProperties.ParenthesisedValue | Src/Components/Parser.cs:330-367 | `(a)` builds a parenthesis around the value. The closing parenthesis leaves the outermost node on the stack. |
| TreeBuilderProperties.FirstArgument | Src/Components/Parser.cs:202-229 | Up to the comma of `f(a,b)`, the call starts with no arguments and gains the parenthesis holding `a`. The comma's new empty parenthesis sits on top of the call. |
| TreeBuilderProperties.CommaUnwindsToCall | Src/Components/Parser.cs:369-379 | The comma pops down to the call and appends a new empty parenthesis as its next argument. |
| TreeBuilderProperties.SecondArgument | Src/Components/Parser.cs:357-367 | The second argument fills the comma's parenthesis. The closing parenthesis leaves the call alone on the stack. |
| TreeBuilderProperties.ClosingUnwindsToCall | Src/Components/Parser.cs:357-367 | The closing parenthesis pops the value and stops at the parenthesis, and the extra pop leaves the call. |
| TreeBuilderProperties.CallArguments | Src/Components/Parser.cs:330-379 | `f(a,b)` builds a call whose arguments are the two parenthesised values, in the order written. |
| TreeBuilderProperties.CallOpened | Src/Components/Parser.cs:202-229 | After `f(`, the call's only argument is the new parenthesis, and both are on the stack. |
| TreeBuilderProperties.SecondValuePlaced | Src/Components/Parser.cs:178-185 | After `f(a,b`, `b` is the child of the comma's parenthesis and is pushed. |
| TreeBuilderProperties.CallEvaluatesInOrder | Src/Definitions/Node/FunctionCall.cs:18 | Evaluating the tree of `f(a,b)` hands `f` the values `[a, b]`, in that order. |

## Left out

- `Src/Calculator.cs`, the facade that chains the three stages and rejects the empty string, is not part of this model.
- Floating-point arithmetic is not modelled. Numbers are the abstract type `Num`. `Double.Parse` is a parameter `parse` of the lexer.
- Caller mappings are not modelled. They are function values returning an `Outcome`, whose failure stands for the mapping's own exception.
- The .NET regular-expression engine is replaced by a hand-written automaton for the four patterns. That automaton includes the engine's `$`, which also matches before a final line feed. This matters only to the constructors: the lexer never sees a line feed, since it is not a legal character.
- Exception classes and message texts are not modelled: each error is a variant of one `Error` datatype, carrying position and length where the source reports them. `InvalidOperationException` from `Peek`, `Pop` or `Last` on an empty stack becomes `EmptyStack`. An out-of-range index becomes `IndexOutOfRange`, and a missing dictionary key `KeyNotFound`.
- The nodes' in-place fields are modelled as an index-linked arena, not as heap objects. A write into a node is visible from every node that links to it. The model does not show that no node is reached twice.
- TreeBuilderProperties.TreeOf: the arena is read back as a tree by `Unfold`, with fuel equal to the arena's size. That links never form a cycle is not proved, so an arena with a cycle reads back as `None`.
- TreeBuilder.Step, TreeBuilder.OnOperator, TreeBuilder.Placed and the builder methods require `Valid`, meaning every link and stack entry is inside the arena. This is a property of the arena representation. Every built state has it.
- PreprocessorProperties.CommaRule and PreprocessorProperties.ScanCalls require token positions to strictly increase, which the lexer guarantees (`LexerProperties.TokenizeInOrder`). The source compares stack entries by position, so the characterisation by unmatched parentheses is stated only for such lists.
- TreeBuilderProperties.CallArguments, TreeBuilderProperties.EqualPrecedenceAssociatesLeft, TreeBuilderProperties.HigherPrecedenceNestsRight, TreeBuilderProperties.MixedPrecedenceUnreachable, TreeBuilderProperties.NestedParenthesesLoseRoot and TreeBuilderProperties.ParenthesisedValue fix concrete token lists. Only the single-step lemmas beside them are stated for every state.
- Where the code and the tests disagree, the code is followed:
  - for `1.` at the end of the input, the scan cuts the text to `1`, so the error lands at offset 1 with length 1, while `Tests/Lexer.Test.cs` expects offset 0 and length 2;
  - the variant in `DependencyWrappers` rejects `π` as a constant symbol, while `Tests/Calculator.Test.cs` builds one;
  - `a+b*c-d` is an internal error in the tree builder;
  - `((a)+b)` fails on `Last()` with an empty stack, because `+` pops the outer parenthesis, while `Tests/Calculator.Test.cs` states that parentheses around an expression must not change its value;
  - a lone name is returned unchanged by the preprocessing, and a trailing name is not converted.
