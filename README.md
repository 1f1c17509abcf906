# jamconverter core in Dafny

jamconverter translates Jam build scripts into C#. This project models four of its parts and proves properties of them:

- **The scanner** (`Scanner.cs`) cuts a Jam text into tokens. It tracks four pieces of state from token to token:
  - whether it is inside a quote;
  - whether a variable-expansion modifier span is open;
  - the nesting depth of `$(` and `@(`;
  - its cursor.
- **The recursive-descent parser** (`Parser.cs`) builds the syntax tree of statements and expressions from scanned tokens.
- **The emitter** (`JamToCSharpConverter.cs`) walks the nodes of an older parser and writes the lines of a C# program.
- **The run-time store of global variables** (`runtimelib/GlobalVariables.cs`) hands out the list bound to a name, creating an empty list the first time the name is read.

Each part is modelled twice:

- **A functional specification.** Every operation of the source is a function from its inputs and the object's state to its result and the new state, or to the exception it raises. The modules are `ScannerSpec`, `ParserSpec` and `ConverterSpec`.
- **An imperative model with the source's own shape.** The modules are `JamScanner`, `JamParser`, `JamConverter` and `RuntimeGlobals`. A class holds the fields the source mutates. The methods have the source's loops and branches, and each is proved to produce exactly what the specification says: the same value and the same new state, or the same exception. On an exception a method promises only the exception; the state it leaves behind is not specified.

The properties the source promises are proved about the specification functions. They live in `ScannerProperties`, `ParserProperties` and `ConverterProperties`, and `RuntimeGlobals` holds its own.

Exceptions are values of `Result`:

- The scanner's two reads past the end of its input are `ScanError`.
- The parser's `ParsingException`s and invalid casts are `ParseError`.
- The emitter's invalid casts and null dereferences are `ConversionError`.

A loop of the source that repeats the same iteration forever with the cursor unchanged (only the list it collects grows) is the error `Diverges`.

Files:

| file | module | contents |
|---|---|---|
| `wrappers.dfy` | `Wrappers` | `Option`, `Result` |
| `chars.dfy` | `Chars` | character classes, `Trim` |
| `scanner_spec.dfy` | `ScannerSpec` | tokens, scanner state, one scanning step, the token stream |
| `scanner.dfy` | `JamScanner` | class `Scanner` |
| `scanner_properties.dfy` | `ScannerProperties` | lemmas about the scanner |
| `parse_tokens.dfy` | `ParserTokens` | the parser's tokens, `ScanToken.Is`, class `ScanResult` |
| `ast.dfy` | `JamAst` | the syntax tree the parser builds |
| `parser_spec.dfy` | `ParserSpec` | the parser as functions of tokens and cursor |
| `parser.dfy` | `JamParser` | class `Parser` |
| `parser_properties.dfy` | `ParserProperties` | lemmas about the parser |
| `converter_spec.dfy` | `ConverterSpec` | the emitter as functions |
| `converter.dfy` | `JamConverter` | classes `JamToCSharpConverter`, `StringBuilder`, `StringList` |
| `converter_properties.dfy` | `ConverterProperties` | lemmas about the emitter |
| `global_variables.dfy` | `RuntimeGlobals` | class `GlobalVariables` and its lemmas |
| `scanner_examples.dfy` | `ScannerExamples` | a token stream of the scanner's tests, worked out |

`Parser.cs`, `Scanner.cs` and `JamToCSharpConverter.cs` come from different generations of the program. Where they disagree, the model follows each file as written:

- **The parser's token kinds.** `Parser.cs` uses the token kinds `VariableDereferencer` and `ParenthesisOpen`. The `TokenType` enumeration of `Scanner.cs` has neither: it has `VariableDereferencerOpen` and `LiteralExpansionOpen`. The two files belong to different generations of the scanner, so the parser gets a token datatype of its own (`ParserTokens.Kind`), and the two are not connected.
- **The emitter's input.** `JamToCSharpConverter.cs` reads nodes from `parser.Parse()` and uses node classes that `Parser.cs` does not produce: `EmptyExpression`, `ExpressionListExpression` and `AssignmentExpression`. The parser builds an `AssignmentStatement` (Parser.cs:160) and returns an expression list as a `NodeList<Expression>` (Parser.cs:18-29). Two node shapes differ as well:
  - the emitter casts an `if`'s `Condition` to `VariableDereferenceExpression` (JamToCSharpConverter.cs:50), where the parser builds a `Condition` (Parser.cs:457-480);
  - the emitter reads `Arguments[0] as ExpressionListExpression` (JamToCSharpConverter.cs:71), where the parser makes the arguments a list of expression lists (Parser.cs:437-455).

  An `if`'s `Body.Statements` (JamToCSharpConverter.cs:55) is what the parser builds (Parser.cs:273 and :284). The emitter is modelled over its own node datatype (`ConverterSpec.Node`), and the nodes arrive as a sequence.

## Model

| member | source | states |
|---|---|---|
| Chars.IsNewLine | Scanner.cs:338-343 | every newline character of the scanner's table is also white space |
| Chars.Trim | Parser.cs:235 | the trimmed line is the line with its leading white space and then its trailing white space removed, and only white space: it starts and ends with a character that is not white space, and is empty exactly when the line is all white space |
| ScannerSpec.TokenTypeFor | Scanner.cs:132-215 | the classification of a literal never yields EOF, white space, `$(`, `@(`, `)` or a modifier: those come only from the scanner's own branches |
| ScannerSpec.ActionAt | Scanner.cs:226-262 | the literal loop takes a backslash as an escape only when another character follows it |
| ScannerSpec.ReadLiteralFrom | Scanner.cs:223-263 | the literal loop never moves back and never passes the end of the input |
| ScannerSpec.ReadLiteral | Scanner.cs:219-278 | reading a literal always consumes at least one character, also when the loop stops at once |
| ScannerSpec.WhiteSpaceRunEnd | Scanner.cs:298-316 | the white-space loop ends between its start and the end of the input |
| ScannerSpec.CommentEnd | Scanner.cs:318-336 | skipping a comment from a character that is not a newline always advances |
| ScannerSpec.BranchAt | Scanner.cs:48-108 | the end of the input is detected exactly at the end, and `$(` or `@(` only with two characters left |
| ScannerSpec.SkipComments | Scanner.cs:104-108 | skipping comments changes only the cursor, moves it forward, and stops at a character that does not start a comment |
| ScannerSpec.NextToken | Scanner.cs:48-130 | every token but EOF consumes input; EOF has an empty literal and is produced exactly at the end of the input |
| ScannerSpec.StepAt | Scanner.cs:50-103 | the same progress guarantee for a cursor that is not at a comment |
| ScannerSpec.LiteralStep | Scanner.cs:112-129 | a literal token consumes input and is never EOF |
| ScannerSpec.PrependStep | Scanner.cs:29-39 | the stream from a state that yields a non-EOF token is that token followed by the stream from the next state |
| ScannerSpec.IsLiteralChar | Scanner.cs:280-296 | no contract of its own; `LiteralCharIsNotDelimiter` states which characters continue an unquoted literal |
| ScannerSpec.ScanFrom | Scanner.cs:29-39 | no contract of its own; its properties are `StreamEndsWithOneEof`, `FinalDepth` and `PrependStep`, and `ScanAllTokens` is proved to return it |
| ScannerSpec.Scan | Scanner.cs:24-27 | no contract of its own; `ScanEndsWithOneEof` states its properties |
| JamScanner.Scanner.constructor | Scanner.cs:11-22 | a new scanner starts at position 0, outside quotes and spans, at depth 0 |
| JamScanner.Scanner.ScanAllTokens | Scanner.cs:29-39 | the tokens up to and including EOF, and the final state, are the specification's stream; a failing step is that step's exception |
| JamScanner.Scanner.ScanToken | Scanner.cs:41-46 | the token and the new state are those of `NextToken` |
| JamScanner.Scanner.ScanTokenImpl | Scanner.cs:48-130 | every branch, the modifier span included, yields the token, state and exception of `NextToken` |
| JamScanner.Scanner.ScanPlainToken | Scanner.cs:79-108 | white space, `$(`, `@(`, `)` and comments follow `NextToken`; a comment moves on to the next line and scans again |
| JamScanner.Scanner.ScanLiteralToken | Scanner.cs:112-129 | the literal, its kind, the span flag and the error on a trailing `:` are those of `LiteralStep` |
| JamScanner.Scanner.ReadLiteral | Scanner.cs:219-278 | the loop over the string builder yields the specification's literal, cursor and quote flag, and leaves the builder empty |
| JamScanner.Scanner.ReadWhiteSpace | Scanner.cs:298-316 | the run ends where the specification's run ends, and the text is the input between |
| JamScanner.Scanner.ReadUntilEndOfLine | Scanner.cs:318-336 | the cursor lands where `CommentEnd` says |
| ScannerProperties.StreamEndsWithOneEof | Scanner.cs:29-39 | a successful scan ends with exactly one token `EOF ""`, no earlier token is EOF, and the cursor ends at the end of the input |
| ScannerProperties.ScanEndsWithOneEof | Scanner.cs:24-39 | the stream of a whole text is the stream from the start state: it ends with exactly one `EOF ""`, the scanner stands at the end of the text, and its depth is the balance of opening and closing tokens |
| ScannerProperties.StepDepth | Scanner.cs:82-102 | `$(` and `@(` raise the depth by one, `)` lowers it by one, unconditionally, and nothing else changes it |
| ScannerProperties.FinalDepth | Scanner.cs:29-39 | the final depth is the start depth plus the opening tokens minus the closing tokens of the stream |
| ScannerProperties.WhiteSpaceRunIsUniform | Scanner.cs:298-316 | the run holds only white space of one newline class, and the character after it is not of that class |
| ScannerProperties.WhiteSpaceTokenIsUniformRun | Scanner.cs:79-80 | a white-space token is the non-empty maximal uniform run just before the new cursor |
| ScannerProperties.WhiteSpaceStep | Scanner.cs:79-80 | a white-space step yields exactly the uniform run at the cursor |
| ScannerProperties.CommentEndIsFirstLineStart | Scanner.cs:318-336 | skipping a comment stops at the first line start after it, or at the end of the input |
| ScannerProperties.CommentProducesNoToken | Scanner.cs:104-108 | a `#` yields no token: the step from it is the step from the first character of the next line |
| ScannerProperties.CommentStep | Scanner.cs:104-108 | the step from a `#` is the step from where the comment ends |
| ScannerProperties.DecodeShortens | Scanner.cs:116 | removing escapes and quotes never lengthens a text and always shortens one that holds a quote |
| ScannerProperties.ReadLiteralFromDecodes | Scanner.cs:223-263 | the literal loop appends exactly the consumed text with escaping backslashes and quotes removed |
| ScannerProperties.ReadLiteralStopsAtOnce | Scanner.cs:267-271 | a read that stops at once stops neither at a backslash nor at a quote |
| ScannerProperties.ReadLiteralDecodes | Scanner.cs:219-278 | `ReadLiteral` yields the consumed text with escapes and quotes removed |
| ScannerProperties.LiteralStepDecodes | Scanner.cs:112-129 | a literal token's text is the consumed text with escapes and quotes removed |
| ScannerProperties.TokenTextIsDecoded | Scanner.cs:48-130 | apart from comments and the four-backslash modifier, every token's literal is the consumed text with escapes and quotes removed |
| ScannerProperties.WhiteSpaceTokenIsDecoded | Scanner.cs:79-80 | a white-space token is its consumed text verbatim |
| ScannerProperties.ShortenedTokenIsLiteral | Scanner.cs:116-127 | a token whose literal differs in length from what it consumed is always a plain `Literal` |
| ScannerProperties.QuotedTextIsVerbatim | Scanner.cs:244-250 | inside quotes, text without quotes, backslashes, `$(`, `@(` or a closing `)` is copied verbatim, white space included |
| ScannerProperties.CloseParenEndsRead | Scanner.cs:239-243 | inside an expansion a `)` ends the literal unless a backslash comes before it |
| ScannerProperties.ColonEndsRead | Scanner.cs:280-296 | when colons are not absorbed, an unquoted `:` ends the literal |
| ScannerProperties.LiteralStopsInsideExpansion | Scanner.cs:114 | at positive depth a literal never extends over a `)` or an unquoted `:` |
| ScannerProperties.TokenTypeForDelimited | Scanner.cs:136-192 | `;`, `{`, `}`, `<` and `>` are special exactly for that one character with white space around |
| ScannerProperties.TokenTypeForColonAndAssignment | Scanner.cs:144-159 | `Colon` exactly for `:` inside an expansion or with white space around; `Assignment` exactly for `=` in a modifier span or with white space around |
| ScannerProperties.LiteralStepKind | Scanner.cs:116-127 | a literal token's kind is `TokenTypeFor` of its text when it is unquoted, and `Literal` otherwise |
| ScannerProperties.DelimitedSpecials | Scanner.cs:120-127 | in a scanned text, `;`, `{`, `}`, `<` and `>` get their kinds exactly when the one character stands between white space or the input's boundaries |
| ScannerProperties.LiteralDelimitedSpecial | Scanner.cs:120-127 | the same, for the literal branch |
| ScannerProperties.ColonNeedsContext | Scanner.cs:144-147 | a `Colon` token is exactly a one-character `:` at positive depth or between white space |
| ScannerProperties.AssignmentNeedsContext | Scanner.cs:156-159 | an `Assignment` token is exactly a one-character `=` in a modifier span or between white space |
| ScannerProperties.LiteralColonAndAssignment | Scanner.cs:116-127 | both characterisations, for the literal branch |
| ScannerProperties.FailsExactly | Scanner.cs:48-130 | a step fails exactly on a backslash in a modifier span with fewer than four characters left, or on a lone `:` that is the last character |
| ScannerProperties.SpanOpensAfterColon | Scanner.cs:116-118 | the modifier span opens only on a one-character `:` token directly followed by a character that is not white space |
| ScannerProperties.LiteralSpanOpensAfterColon | Scanner.cs:116-118 | the same, for the literal branch |
| ScannerProperties.ColonOpensSpan | Scanner.cs:116-118 | an unquoted `:` followed by a character that is not white space opens the span, and is a `Colon` only at positive depth |
| ScannerProperties.SpanClosesOnAssignmentOrParen | Scanner.cs:55-77 | the span closes only with the `=` token or the `)` token |
| ScannerProperties.SpanLetterIsModifier | Scanner.cs:64-69 | inside the span a letter is a one-character modifier token, and the span stays open |
| ScannerProperties.SpanAssignmentClosesSpan | Scanner.cs:57-63 | inside the span `=` is an assignment token, and the span closes |
| ScannerProperties.SpanBackslashesAreModifier | Scanner.cs:70-74 | inside the span four backslashes are one modifier token, and the span stays open |
| ScannerProperties.CloseParenClosesSpanAndDepth | Scanner.cs:75-76 | `)` is a parenthesis token that closes the span and lowers the depth by one, whatever the depth |
| ScannerProperties.LiteralCharIsNotDelimiter | Scanner.cs:280-296 | an unquoted literal continues with any character except white space, `{`, `}`, `[`, `]` and `#`, and with `:` exactly when colons are allowed |
| ScannerProperties.SpellingGivesKind | Scanner.cs:160-212 | every keyword and operator spelling gets its kind whatever the white space, depth and span |
| ScannerProperties.KindNeedsSpelling | Scanner.cs:132-215 | a keyword or operator kind is chosen only for one of its spellings |
| ParserTokens.Is | Scanner.cs:351-356 | `Is` returns the token itself exactly when the kind matches, and otherwise an error naming the expected and the actual kind |
| ParserTokens.SkipWhiteSpace | Parser.cs:419 | the skipped tokens are all white space, and the token where it stops is not |
| ParserTokens.PeekAt | Parser.cs:419 | no contract of its own; `NextAt` is proved to return the token it shows, `SkipWhiteSpace` states what it skips, and `ScanResult.Peek` is proved to return it |
| ParserTokens.NextAt | Parser.cs:336-342 | `Next` returns the token `Peek` shows and moves past it; the cursor stays put only at the end, where the token is EOF |
| ParserTokens.ProduceLine | Parser.cs:230-238 | a line always consumes a token unless the tokens are exhausted, where it is empty |
| ParserTokens.ScanResult.constructor | Scanner.cs:24-27 | a scan result starts at the first token |
| ParserTokens.ScanResult.Peek | Parser.cs:419 | the token at the cursor, white space skipped or not, without moving |
| ParserTokens.ScanResult.Next | Parser.cs:336-342 | the token and the new cursor of `NextAt` |
| ParserTokens.ScanResult.GetCursor | Parser.cs:172 | the current cursor |
| ParserTokens.ScanResult.SetCursor | Parser.cs:175 | the cursor is put back to the saved position |
| ParserTokens.ScanResult.ProduceStringUntilEndOfLine | Parser.cs:234 | the line and the new cursor of `ProduceLine` |
| ParserSpec.AsLiteral | Parser.cs:80 | the cast succeeds exactly on a literal, yielding its value, and fails on anything else, null included |
| ParserSpec.AsBlock | Parser.cs:259 | the cast of a rule body passes a block and null through and fails on any other statement |
| ParserSpec.LiteralValues | Parser.cs:258 | no contract of its own; its properties are `LiteralValuesOfLiterals` and `RuleArgumentsAreLiteralValues` |
| ParserSpec.Flatten | Parser.cs:258 | no contract of its own; its properties are `FlattenConcat` and `RuleArgumentsAreLiteralValues` |
| ParserSpec.OperatorFor | Parser.cs:392-415 | an unmapped kind raises the unsupported-operator error naming it |
| ParserSpec.ParseStatement | Parser.cs:31-75 | null consumes nothing and happens only on EOF, `case` and `}`; a statement consumes at least one token |
| ParserSpec.ParseLocalStatement | Parser.cs:77-91 | a local declaration consumes at least one token |
| ParserSpec.ParseSwitchStatement | Parser.cs:93-127 | a switch consumes at least one token |
| ParserSpec.SwitchCases | Parser.cs:102-123 | the case loop consumes at least the closing `}` |
| ParserSpec.StatementsUntilNull | Parser.cs:114-120 | the statement loop of a case stays within the tokens |
| ParserSpec.ParseForStatement | Parser.cs:129-136 | a for loop consumes at least one token |
| ParserSpec.ParseOnStatement | Parser.cs:138-142 | an on statement consumes at least one token |
| ParserSpec.ParseWhileStatement | Parser.cs:144-148 | a while loop consumes at least one token |
| ParserSpec.ParseAssignmentOrExpressionStatement | Parser.cs:150-168 | an assignment or invocation statement consumes at least one token |
| ParserSpec.ParseLeftSideOfAssignment | Parser.cs:170-191 | the left side stays within the tokens |
| ParserSpec.ParseReturnStatement | Parser.cs:213-220 | a return consumes at least one token |
| ParserSpec.ParseActionsDeclarationStatement | Parser.cs:222-245 | the name is the last header expression, the modifiers the ones before it, and the body what the line loop read |
| ParserSpec.ActionLines | Parser.cs:232-238 | the line loop stays within the tokens |
| ParserSpec.ParseRuleDeclarationStatement | Parser.cs:247-261 | a rule declaration consumes at least one token |
| ParserSpec.ParseBlockStatement | Parser.cs:263-278 | a block consumes at least its `{` |
| ParserSpec.StatementsUntilClose | Parser.cs:267-277 | the block loop consumes at least the closing `}` |
| ParserSpec.ParseIfStatement | Parser.cs:280-294 | an if statement consumes at least one token |
| ParserSpec.ParseExpression | Parser.cs:296-318 | null consumes nothing and happens only on the kinds that end an expression; an expression consumes at least one token |
| ParserSpec.ParseInvocationExpression | Parser.cs:320-332 | an invocation consumes at least one token |
| ParserSpec.ParseVariableDereferenceExpression | Parser.cs:334-390 | a dereference consumes at least one token |
| ParserSpec.ParseIndexer | Parser.cs:348-354 | without `[` the token after the variable and the cursor are passed on unchanged |
| ParserSpec.ParseModifiers | Parser.cs:358-384 | the modifier loop consumes at least the closing `)` |
| ParserSpec.ScanForCombineExpression | Parser.cs:417-435 | combining stays within the tokens |
| ParserSpec.ParseExpressionList | Parser.cs:18-29 | an expression list stays within the tokens |
| ParserSpec.ExpressionsUntilNull | Parser.cs:21-27 | the expression loop stays within the tokens |
| ParserSpec.ParseArgumentList | Parser.cs:437-455 | an argument list stays within the tokens |
| ParserSpec.ArgumentListsFrom | Parser.cs:440-452 | the argument loop stays within the tokens |
| ParserSpec.ParseCondition | Parser.cs:457-480 | a condition stays within the tokens |
| JamParser.Parser.constructor | Parser.cs:13-16 | a parser over a new scan result of the given tokens, at its first token |
| JamParser.Parser.ParseExpressionList | Parser.cs:18-29 | the loop yields the specification's list, cursor and exception |
| JamParser.Parser.ParseStatement | Parser.cs:31-75 | the dispatch yields the specification's statement, or null, with its cursor and exception |
| JamParser.Parser.ParseLocalStatement | Parser.cs:77-91 | agrees with the specification |
| JamParser.Parser.ParseSwitchStatement | Parser.cs:93-127 | both nested loops agree with the specification |
| JamParser.Parser.ParseForStatement | Parser.cs:129-136 | agrees with the specification |
| JamParser.Parser.ParseOnStatement | Parser.cs:138-142 | agrees with the specification |
| JamParser.Parser.ParseWhileStatement | Parser.cs:144-148 | agrees with the specification |
| JamParser.Parser.ParseAssignmentOrExpressionStatement | Parser.cs:150-168 | agrees with the specification |
| JamParser.Parser.ParseLeftSideOfAssignment | Parser.cs:170-191 | the lookahead with the cursor put back agrees with the specification |
| JamParser.Parser.IsNextTokenAssignment | Parser.cs:193-211 | the answer is the specification's, and the cursor is put back |
| JamParser.Parser.ParseReturnStatement | Parser.cs:213-220 | agrees with the specification |
| JamParser.Parser.ParseActionsDeclarationStatement | Parser.cs:222-245 | agrees with the specification |
| JamParser.Parser.ReadActionLines | Parser.cs:231-238 | the line loop yields the specification's lines and cursor |
| JamParser.Parser.ParseRuleDeclarationStatement | Parser.cs:247-261 | agrees with the specification |
| JamParser.Parser.ParseBlockStatement | Parser.cs:263-278 | the statement loop agrees with the specification |
| JamParser.Parser.ParseIfStatement | Parser.cs:280-294 | agrees with the specification, `else` included |
| JamParser.Parser.ParseExpression | Parser.cs:296-318 | the dispatch agrees with the specification |
| JamParser.Parser.ParseInvocationExpression | Parser.cs:320-332 | agrees with the specification |
| JamParser.Parser.ParseVariableDereferenceExpression | Parser.cs:334-390 | agrees with the specification |
| JamParser.Parser.ParseIndexer | Parser.cs:348-354 | agrees with the specification |
| JamParser.Parser.ParseModifiers | Parser.cs:358-384 | the modifier loop agrees with the specification |
| JamParser.Parser.ScanForCombineExpression | Parser.cs:417-435 | agrees with the specification, a combined tail spliced in |
| JamParser.Parser.ParseArgumentList | Parser.cs:437-455 | the loop over colon-separated lists agrees with the specification |
| JamParser.Parser.ParseCondition | Parser.cs:457-480 | agrees with the specification |
| ParserProperties.StatementNullIff | Parser.cs:35-40 | `ParseStatement` returns null without consuming exactly when the next kind is EOF, `case` or `}` |
| ParserProperties.UnlistedStatementKindThrows | Parser.cs:72-73 | a kind without a case raises the unexpected-token error naming that kind |
| ParserProperties.ExpressionNullIff | Parser.cs:298-312 | `ParseExpression` returns null without consuming exactly on EOF, `:`, `;`, `)`, `]`, `=`, `+=`, `-=` and `{` |
| ParserProperties.LeftSideFollowsLookahead | Parser.cs:170-211 | when the lookahead says no, the left side would throw; when it says yes, the left side is the expression the lookahead parsed, with the targets of `on` attached |
| ParserProperties.AssignmentIffLookahead | Parser.cs:150-168 | a statement that starts with an expression is an assignment exactly when the lookahead says so, and an invocation otherwise |
| ParserProperties.CombineNeedsAdjacency | Parser.cs:419-422 | a token that does not touch the expression leaves it alone, consuming nothing |
| ParserProperties.CombineOfAdjacent | Parser.cs:424-434 | a touching literal or `$` makes a combination of at least two elements with the expression first, a combined tail spliced in |
| ParserProperties.ExpressionIsFlat | Parser.cs:296-318 | every combination the parser builds has at least two elements and none of them is a combination |
| ParserProperties.DereferenceIsFlat | Parser.cs:334-390 | the same for dereference expressions |
| ParserProperties.CombineIsFlat | Parser.cs:417-435 | the same for combining |
| ParserProperties.ExpressionListStops | Parser.cs:18-29 | an expression list stops at, and does not consume, a kind that ends an expression |
| ParserProperties.ExpressionsStop | Parser.cs:21-27 | the loop keeps what it collected so far as a prefix and stops at a kind that ends an expression |
| ParserProperties.ArgumentListIsColonSeparated | Parser.cs:437-455 | an argument list is at least one expression list, with a `:` after every list but the last and none after the last |
| ParserProperties.ArgumentListsAreColonSeparated | Parser.cs:440-452 | the loop keeps its prefix and adds colon-separated lists |
| ParserProperties.FlattenConcat | Parser.cs:258 | flattening the argument lists keeps their order |
| ParserProperties.LiteralValuesOfLiterals | Parser.cs:258 | the values exist exactly when every element is a literal, and are their values in order |
| ParserProperties.RuleArgumentsAreLiteralValues | Parser.cs:247-261 | a rule's arguments are the literal values of all its argument lists, in order |
| ParserProperties.ActionLinesUntilClose | Parser.cs:232-238 | the line loop collects the lines up to, not including, the first line that is `}` once trimmed |
| ParserProperties.ActionsDeclarationShape | Parser.cs:222-245 | the name of an actions declaration is its last header expression, the modifiers are the ones before it in order, and the body is the raw lines up to the first `}` line |
| ParserProperties.BlockEndsWithClose | Parser.cs:263-278 | a block ends by consuming its `}` |
| ParserProperties.StatementsEndWithClose | Parser.cs:267-277 | the block loop ends by consuming a `}` |
| ParserProperties.UnterminatedBlockDiverges | Parser.cs:267-277 | a block that reaches the end of the tokens never ends |
| ParserProperties.ConditionOperatorPresence | Parser.cs:457-480 | a condition has an operator exactly when the token after its left side is neither `{` nor EOF; the operator and the right side come together, and never with `!` |
| ParserProperties.NegatedComparisonThrows | Parser.cs:472-473 | `!` in front of a comparison raises an error |
| ParserProperties.KindOf | Parser.cs:392-415 | every operator is spelled by one of the eight operator kinds |
| ParserProperties.OperatorForMapsOperatorKinds | Parser.cs:392-415 | `OperatorFor` succeeds exactly on the eight operator kinds, one to one |
| ParserProperties.OperatorForInvertsKindOf | Parser.cs:392-415 | `OperatorFor` gives back the operator a kind spells |
| RuntimeGlobals.Vivify | runtimelib/GlobalVariables.cs:7-16 | a stored list is returned with nothing changed; a missing name gets the new list, and the name is then bound to the list returned |
| RuntimeGlobals.VivifyFrame | runtimelib/GlobalVariables.cs:13-15 | after a read the name is bound to what was read, and no other binding changes |
| RuntimeGlobals.VivifyTwice | runtimelib/GlobalVariables.cs:7-16 | two reads of a name give the same list, and the second changes nothing |
| RuntimeGlobals.StoreThenVivify | runtimelib/GlobalVariables.cs:29-32 | a read after a store gives the stored list, null included, and changes nothing |
| RuntimeGlobals.VivifyNeverNull | runtimelib/GlobalVariables.cs:7-16 | from a store with no null in it a read gives a list, never null, and leaves no null in the store |
| RuntimeGlobals.StoreNulls | runtimelib/GlobalVariables.cs:29-32 | storing a list keeps the store free of nulls; after storing null under a name, reading that name gives null |
| RuntimeGlobals.GlobalVariables.constructor | runtimelib/GlobalVariables.cs:5 | the store starts empty |
| RuntimeGlobals.GlobalVariables.Get | runtimelib/GlobalVariables.cs:7-16 | a stored value, null included, is returned with the store unchanged; for a missing name the new store and the result are those of `Vivify` with a fresh list; the result is not null unless a null was stored |
| RuntimeGlobals.GlobalVariables.GetItem | runtimelib/GlobalVariables.cs:20-28 | the same as `Get` |
| RuntimeGlobals.GlobalVariables.SetItem | runtimelib/GlobalVariables.cs:29-32 | the name is bound to the value, whatever it was bound to before, and nothing else changes |
| ConverterSpec.CSharpForEach | JamToCSharpConverter.cs:106 | one translation per element |
| ConverterSpec.CSharpFor | JamToCSharpConverter.cs:95-113 | no contract of its own; its properties are `CSharpForSucceedsIff`, `CombineTranslation` and `ExpressionListTranslation` |
| ConverterSpec.LiteralValues | JamToCSharpConverter.cs:87-89 | the values exist exactly when every element is a literal, and are then the elements' values in order; otherwise the result is an invalid cast |
| ConverterSpec.Declarations | JamToCSharpConverter.cs:28 | one declaration per variable |
| ConverterSpec.AddOnce | JamToCSharpConverter.cs:84-85 | no contract of its own; its properties are `AddAllOnceConcat` and `AddAllOnceDistinct` |
| ConverterSpec.ProcessNode | JamToCSharpConverter.cs:42-93 | no contract of its own; its properties are `NodeIgnoresWrittenLines`, `EmptyEmitsNothing`, `IfEmitsHeaderBodyClose`, `EchoEmitsWriteAndWriteLine`, `OtherInvocationEmitsNothing`, `AssignmentEmitsLine` and `NodeCollectsAssigned` |
| ConverterSpec.ProcessNodes | JamToCSharpConverter.cs:19-26 | no contract of its own; its properties are `NodesInOrder`, `NodesIgnoreWrittenLines` and `NodesCollectAssigned` |
| ConverterSpec.ProcessEcho | JamToCSharpConverter.cs:64-78 | no contract of its own; its properties are `EchoIgnoresWrittenLines` and `EchoEmitsWriteAndWriteLine` |
| ConverterSpec.ProcessAssignment | JamToCSharpConverter.cs:80-92 | no contract of its own; its properties are `AssignmentEmitsLine` and `NodeCollectsAssigned` |
| ConverterSpec.Program | JamToCSharpConverter.cs:28-39 | no contract of its own; `ConvertDeclaresAssignedOnce` states what its text declares |
| ConverterSpec.Convert | JamToCSharpConverter.cs:12-40 | no contract of its own; its property is `ConvertDeclaresAssignedOnce`, and the converter's `Convert` is proved to return it |
| ConverterProperties.Translatable | JamToCSharpConverter.cs:95-113 | an independent description of the nodes `CSharpFor` accepts |
| ConverterProperties.CSharpForSucceedsIff | JamToCSharpConverter.cs:95-113 | `CSharpFor` succeeds exactly on literals, dereferences of a literal, and combinations and lists of those; otherwise it raises an invalid cast or a `ParsingException` |
| ConverterProperties.CSharpForEachFails | JamToCSharpConverter.cs:106 | the exception of a sequence's translation is that of one of its elements |
| ConverterProperties.CSharpForEachElementwise | JamToCSharpConverter.cs:106 | a sequence translates exactly when each element does, and into those translations, in order |
| ConverterProperties.CombineTranslation | JamToCSharpConverter.cs:104-106 | a combination is `JamList.Combine` of its elements' translations, in order |
| ConverterProperties.ExpressionListTranslation | JamToCSharpConverter.cs:108-110 | an expression list is a new list of its elements' translations, in order |
| ConverterProperties.NodeIgnoresWrittenLines | JamToCSharpConverter.cs:42-93 | what a node emits does not depend on the lines already written, which stay in front; an exception is the same exception |
| ConverterProperties.EchoIgnoresWrittenLines | JamToCSharpConverter.cs:64-78 | the same for the `Echo` part |
| ConverterProperties.NodesIgnoreWrittenLines | JamToCSharpConverter.cs:55-56 | the same for a sequence of nodes |
| ConverterProperties.NodesInOrder | JamToCSharpConverter.cs:19-26 | nodes are processed in order: a sequence is its first part, then the rest, and the first exception stops everything |
| ConverterProperties.EmptyEmitsNothing | JamToCSharpConverter.cs:44-45 | an empty expression emits nothing |
| ConverterProperties.IfEmitsHeaderBodyClose | JamToCSharpConverter.cs:47-59 | an `if` on a variable succeeds exactly when its body does, and then emits its header, exactly what its body emits, then `}` |
| ConverterProperties.EchoEmitsWriteAndWriteLine | JamToCSharpConverter.cs:66-77 | `Echo` of an expression list writes the translated list and then a newline |
| ConverterProperties.OtherInvocationEmitsNothing | JamToCSharpConverter.cs:66-78 | an invocation of any other rule emits nothing |
| ConverterProperties.AssignmentEmitsLine | JamToCSharpConverter.cs:80-92 | an assignment of literal values to a literal name emits the one line `name = new JamList(<quoted values, comma separated>);` and collects the name once; any other assignment is an invalid cast |
| ConverterProperties.AddAllOnceConcat | JamToCSharpConverter.cs:84-85 | adding two runs of names once each is adding the first run, then the second |
| ConverterProperties.AddAllOnceDistinct | JamToCSharpConverter.cs:84-85 | adding names once keeps the list free of duplicates, keeps its prefix and adds exactly those names |
| ConverterProperties.NodeCollectsAssigned | JamToCSharpConverter.cs:80-92 | the variables a node collects are the ones assigned in it, each added once |
| ConverterProperties.NodesCollectAssigned | JamToCSharpConverter.cs:19-26 | the same for a sequence of nodes |
| ConverterProperties.DeclarationInjective | JamToCSharpConverter.cs:28 | different names give different declarations |
| ConverterProperties.DeclarationsDistinct | JamToCSharpConverter.cs:28 | distinct names give distinct declarations |
| ScannerExamples.EscapedQuoteRead | Scanner.cs:219-278 | the literal read of `"a\""` opens the quote, keeps `a`, keeps the escaped quote and ends after the closing quote, outside quotes |
| ScannerExamples.EscapedEndQuote | Tests/ScannerTests.cs:110-124 | `"a\""` scans to the literal `a"` followed by EOF: two tokens |
| ConverterProperties.ConvertDeclaresAssignedOnce | JamToCSharpConverter.cs:12-40 | the program declares every assigned variable exactly once, in the order of first assignment |
| JamConverter.StringBuilder.AppendLine | JamToCSharpConverter.cs:53 | the line is appended after the lines written so far |
| JamConverter.StringList.Contains | JamToCSharpConverter.cs:84 | true exactly when the name is in the list |
| JamConverter.StringList.Add | JamToCSharpConverter.cs:85 | the name is appended |
| JamConverter.JamToCSharpConverter.Convert | JamToCSharpConverter.cs:12-40 | the loop over the nodes and the template give the specification's program, or the first exception |
| JamConverter.JamToCSharpConverter.ProcessNode | JamToCSharpConverter.cs:42-93 | the lines appended, the variables collected and the exception raised are the specification's, the `if` body's loop included |

## Left out

- The history of scanned tokens (`_previouslyScannedTokens`, Scanner.cs:17 and :44) is left out. Nothing in the core reads it.
- `char.IsWhiteSpace` and `char.IsLetter` are approximated by their ASCII cases. Every property is stated in terms of these predicates, so none depends on the approximation.
- `ScanResult` is not part of this model's sources. Its operations are stated as the parser's use of them implies:
  - `Peek()` skips white space and `Peek(false)` does not;
  - `Next()` consumes what `Peek()` shows;
  - `ProduceStringUntilEndOfLine` joins literals up to a token holding a newline;
  - past the end, each of them yields EOF or the empty string.
- The `Parser` constructor's call of the scanner (Parser.cs:15) is left out. The parser is given its tokens, because the parser's token kinds differ from those of the scanner modelled here.
- The parser's node classes and `As<T>()` are not part of this model's sources. `As<LiteralExpression>()` is modelled as a checked cast that fails on anything else, null included.
- The loops of the source that never end are not modelled as loops. They become the error `Diverges`:
  - a block whose `ParseStatement` returns null on EOF or `case`;
  - the actions body at the end of the tokens.
- `Debug.Assert` (Scanner.cs:236 and :241) is left out. It is not part of the behaviour of a release build.
- `Environment.NewLine` and the string helpers `InQuotes`, `SeperateWithComma` and `SeperateWithSpace` are not part of this model's sources. They are parameters of the emitter (`Helpers`).
- The older parser that `Convert` reads nodes from (Parser.cs has no `Parse` method) is left out. The emitter receives the nodes as a sequence.
- A null node field, such as a missing `Else` or a null variable expression, is not modelled in the emitter's nodes.
- A node that is neither an `if` nor an expression statement is an explicit `NullReference` result, as in the source, rather than a precondition.
- The contents of a `JamList` are left out. The store only keeps and hands out references, because `JamList` is not part of this model's sources.
- `CSharpRunner.cs`, which compiles and runs the generated program, is outside the core and left out.
- The comparison tests, which run Jam and the generated C#, are left out. They depend on running programs.
- The scanner and parser tests are not restated as concrete token streams, except `EscapedEndQuote`. A concrete scan costs the verifier more than the general lemmas do.
- `ScannerTests.ParenthesisAreOk` (Tests/ScannerTests.cs:292-300) expects the third token from the end of `( ) && $(c)` to be `c`. The code as written lowers the depth on every `)`, with no lower bound, so the unmatched `)` leaves it at -1 (`ScannerProperties.StepDepth`). The later `$(` brings it back to 0, and at depth 0 the literal loop keeps a `)` like any other character (`ScannerSpec.ActionAt`; `ScannerProperties.CloseParenEndsRead` covers positive depths only). So the code reads `c)` as one literal, and the third token from the end is `$(`. The model follows the code.
- `ScannerTests.QuotedExpression` (Tests/ScannerTests.cs:91-97) expects `"($(d)) = "` to give Literal, `$(`, Literal, `)`, Literal, EOF. By the same rules the code as written gives more tokens:
  - the second `)` is a `)` token of its own, since every `)` at the cursor is one;
  - the following space is a white-space token, since the white-space branch does not look at the quote flag;
  - the stream is Literal, `$(`, Literal, `)`, `)`, white space, Literal, EOF.

  The model follows the code.
- The emitter's `Select`s are lazy. The casts `((LiteralExpression) e).Value` (JamToCSharpConverter.cs:87-89) and the calls of `CSharpFor` (:106 and :110) happen only when `InQuotes` or `SeperateWithComma` enumerates the sequence. The model evaluates every element first, in order, and the first failure is the exception. It then passes the values to the `Helpers` functions. This assumes that those helpers enumerate their whole argument, in order. A helper that skipped elements would not raise the exception of a skipped element; this model does not capture that.
- The emitter's exceptions end the conversion. The lines a failing node may already have appended are not part of the result (`ProcessNode` promises nothing about them on an exception).
- The state left by an exception is not modelled in any module. On an error result the scanner's and the parser's methods promise the error only, not the cursor or the flags they leave behind, as `ProcessNode` does for the emitter.
- `ScanAllTokens` is a lazy `yield` iterator (Scanner.cs:29-39). A consumer can see the tokens before a failing step before the exception reaches it. The model is all or nothing: a scan that fails yields the error and no tokens. The only caller shown, `Scan()` (Scanner.cs:26), forces the whole stream with `ToArray()`, which behaves the same way.
