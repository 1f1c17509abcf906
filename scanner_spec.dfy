/**
 * A functional specification of the Jam scanner (Scanner.cs): one scanning step maps the
 * input text and the scanner's state to the next token and the next state, or to the
 * exception the C# code raises.
 */
module ScannerSpec {
  import opened Wrappers
  import opened Chars

  /** The token kinds of Scanner.cs, in the order of its `TokenType` enumeration. */
  datatype TokenKind =
    | Literal | Terminator | WhiteSpace | BracketClose | Colon | BracketOpen
    | VariableDereferencerOpen | LiteralExpansionOpen | ParenthesisClose | Assignment
    | AccoladeOpen | AccoladeClose | If | Rule | VariableExpansionModifier | Return
    | AppendOperator | Actions | On | EOF | Not | Else | While | SubtractOperator | For | In
    | Continue | Break | Switch | Case | Local | AssignmentIfEmpty | And | Or | NotEqual
    | Include | GreaterThan | LessThan

  /** `ScanToken`: a token kind and the literal text it carries. */
  datatype Token = Token(kind: TokenKind, literal: string)

  /**
   * The scanner's fields between two tokens: `nextChar`, `isInsideQuote`,
   * `_insideVariableExpansionModifierSpan` and `_insideVariableExpansionDepth`.
   */
  datatype State = State(pos: nat, inQuote: bool, inModifierSpan: bool, depth: int)

  /** The two places where the C# scanner reads past the end of its input. */
  datatype ScanError =
    | SubstringOutOfRange   // `_input.Substring(nextChar, 4)` with fewer than 4 characters left
    | IndexOutOfRange       // `_input[nextChar]` after a lone `:` at the end of the input

  datatype Step = Step(token: Token, next: State)

  /** The state of a freshly constructed scanner. */
  const Start := State(0, false, false, 0)

  /** The four-backslash modifier the scanner recognises inside a modifier span. */
  const FourBackslashes := "\\\\\\\\"

  /** `IsLiteral`: may `c` continue an unquoted literal? */
  predicate IsLiteralChar(c: char, treatColonAsLiteral: bool) {
    if c == ':' then treatColonAsLiteral
    else c != '}' && c != '{' && c != '[' && c != ']' && c != '#' && !IsWhiteSpace(c)
  }

  /** White space (or the input boundary) on both sides of `input[p..q]`. */
  predicate Delimited(input: string, p: nat, q: nat)
    requires p <= q <= |input|
  {
    (p == 0 || IsWhiteSpace(input[p - 1])) && (q == |input| || IsWhiteSpace(input[q]))
  }

  /**
   * `TokenTypeFor`: the kind of an unquoted literal. `;`, `{`, `}`, `<` and `>` are special
   * only when white-space delimited, `:` also inside an expansion, `=` also inside a
   * modifier span; keywords and operators are recognised by their exact spelling.
   */
  function TokenTypeFor(literal: string, hasWhitespaceAround: bool, depth: int, inModifierSpan: bool): (k: TokenKind)
    ensures k !in {EOF, WhiteSpace, VariableDereferencerOpen, LiteralExpansionOpen, ParenthesisClose, VariableExpansionModifier}
  {
    if literal == ";" then (if hasWhitespaceAround then Terminator else Literal)
    else if literal == "[" then BracketOpen
    else if literal == "]" then BracketClose
    else if literal == ":" then (if depth > 0 || hasWhitespaceAround then Colon else Literal)
    else if literal == "{" then (if hasWhitespaceAround then AccoladeOpen else Literal)
    else if literal == "}" then (if hasWhitespaceAround then AccoladeClose else Literal)
    else if literal == "=" then (if inModifierSpan || hasWhitespaceAround then Assignment else Literal)
    else if literal == "if" then If
    else if literal == "rule" then Rule
    else if literal == "return" then Return
    else if literal == "actions" then Actions
    else if literal == "include" || literal == "Include" then Include
    else if literal == "on" then On
    else if literal == "!" then Not
    else if literal == "else" then Else
    else if literal == "while" then While
    else if literal == "+=" then AppendOperator
    else if literal == "-=" then SubtractOperator
    else if literal == "?=" then AssignmentIfEmpty
    else if literal == "<" then (if hasWhitespaceAround then LessThan else Literal)
    else if literal == ">" then (if hasWhitespaceAround then GreaterThan else Literal)
    else if literal == "for" then For
    else if literal == "in" then In
    else if literal == "continue" then Continue
    else if literal == "break" then Break
    else if literal == "case" then Case
    else if literal == "switch" then Switch
    else if literal == "local" then Local
    else if literal == "&&" then And
    else if literal == "||" then Or
    else if literal == "!=" then NotEqual
    else Literal
  }

  /** What `ReadLiteral` leaves behind: the literal, the new cursor and the quote flag. */
  datatype LiteralRead = LiteralRead(text: string, end: nat, inQuote: bool)

  /** What one iteration of the loop of `ReadLiteral` does with the character at `i`. */
  datatype LiteralAction =
    | Stop      // leave the loop
    | Escape    // append the next character verbatim and skip both
    | Quote     // toggle the quote flag
    | Keep      // append the character

  /** The branch the loop of `ReadLiteral` takes at index `i`, in the order the code tests them. */
  function ActionAt(input: string, start: nat, i: nat, inQuote: bool, depth: int, allowColon: bool): (a: LiteralAction)
    requires start <= i < |input|
    ensures a == Escape ==> i + 1 < |input|
  {
    var ch := input[i];
    var hasMore := i + 1 < |input|;
    if ch == '\\' && hasMore then Escape
    else if (ch == '$' || ch == '@') && hasMore && input[i + 1] == '(' then Stop
    else if ch == ')' && depth > 0 then Stop
    else if inQuote then (if ch == '"' then Quote else Keep)
    else if ch == '"' then Quote
    else if IsLiteralChar(ch, allowColon && start != i) || ((ch == '$' || ch == '@') && hasMore && input[i + 1] != '(') then Keep
    else Stop
  }

  /**
   * The loop of `ReadLiteral` from index `i`, with `acc` the characters appended to the
   * string builder so far; `start` is the cursor at which the literal began.
   */
  function ReadLiteralFrom(input: string, start: nat, i: nat, inQuote: bool, depth: int,
                           allowColon: bool, acc: string): (r: LiteralRead)
    requires start <= i <= |input|
    ensures i <= r.end <= |input|
    decreases |input| - i
  {
    if i == |input| then LiteralRead(acc, i, inQuote)
    else
      match ActionAt(input, start, i, inQuote, depth, allowColon)
      case Stop => LiteralRead(acc, i, inQuote)
      case Escape => ReadLiteralFrom(input, start, i + 2, inQuote, depth, allowColon, acc + [input[i + 1]])
      case Quote => ReadLiteralFrom(input, start, i + 1, !inQuote, depth, allowColon, acc)
      case Keep => ReadLiteralFrom(input, start, i + 1, inQuote, depth, allowColon, acc + [input[i]])
  }

  /** `ReadLiteral`: a read that stops at once yields the offending character on its own. */
  function ReadLiteral(input: string, pos: nat, inQuote: bool, depth: int, allowColon: bool): (r: LiteralRead)
    requires pos < |input|
    ensures pos < r.end <= |input|
  {
    var r := ReadLiteralFrom(input, pos, pos, inQuote, depth, allowColon, []);
    if r.end == pos then LiteralRead([input[pos]], pos + 1, inQuote) else r
  }

  /**
   * The loop of `ReadWhiteSpace` from index `i`: the run continues while the characters are
   * white space of the same newline class `newLine` as the previous one.
   */
  function WhiteSpaceRunEnd(input: string, i: nat, newLine: bool): (e: nat)
    requires i <= |input|
    ensures i <= e <= |input|
    decreases |input| - i
  {
    if i == |input| || !IsWhiteSpace(input[i]) || IsNewLine(input[i]) != newLine then i
    else WhiteSpaceRunEnd(input, i + 1, newLine)
  }

  /**
   * The loop of `ReadUntilEndOfLine` from index `i`: the first character that is not a
   * newline and follows a newline, or the end of the input.
   */
  function CommentEnd(input: string, i: nat, inNewLineSequence: bool): (e: nat)
    requires i <= |input|
    ensures i <= e <= |input|
    ensures i < |input| && !inNewLineSequence ==> i < e
    decreases |input| - i
  {
    if i == |input| then |input|
    else if IsNewLine(input[i]) then CommentEnd(input, i + 1, true)
    else if inNewLineSequence then i
    else CommentEnd(input, i + 1, false)
  }

  /** The branch `ScanTokenImpl` takes at the cursor, in the order the code tests them. */
  datatype Branch =
    | AtEnd               // no character left: EOF
    | SpanAssignment      // `=` inside a modifier span
    | SpanLetter          // a letter inside a modifier span
    | SpanCutOff          // a backslash inside a modifier span, fewer than four characters left
    | SpanBackslashes     // four backslashes inside a modifier span
    | Blank               // white space
    | Open                // `$(` or `@(`
    | Close               // `)`
    | Comment             // `#`
    | Word                // anything else: a literal

  function BranchAt(input: string, s: State): (b: Branch)
    requires s.pos <= |input|
    ensures (b == AtEnd) == (s.pos == |input|)
    ensures b == Open ==> s.pos + 1 < |input|
  {
    if s.pos == |input| then AtEnd
    else
      var c := input[s.pos];
      if s.inModifierSpan && c == '=' then SpanAssignment
      else if s.inModifierSpan && IsLetter(c) then SpanLetter
      else if s.inModifierSpan && c == '\\' && |input| - s.pos < 4 then SpanCutOff
      else if s.inModifierSpan && c == '\\' && input[s.pos..s.pos + 4] == FourBackslashes then SpanBackslashes
      else if IsWhiteSpace(c) then Blank
      else if (c == '$' || c == '@') && s.pos + 1 < |input| && input[s.pos + 1] == '(' then Open
      else if c == ')' then Close
      else if c == '#' then Comment
      else Word
  }

  /**
   * Where `ScanTokenImpl` resumes after the comments at the cursor: a `#` makes it skip to
   * the next line and start over, with the flags unchanged.
   */
  function SkipComments(input: string, s: State): (t: State)
    requires s.pos <= |input|
    ensures s.pos <= t.pos <= |input| && t == s.(pos := t.pos)
    ensures BranchAt(input, t) != Comment
    decreases |input| - s.pos
  {
    if BranchAt(input, s) == Comment then SkipComments(input, s.(pos := CommentEnd(input, s.pos, false)))
    else s
  }

  /**
   * `ScanTokenImpl`: the next token and the state after it. A comment produces no token:
   * scanning resumes after it. `)` closes a modifier span as well as one level of depth.
   */
  function NextToken(input: string, s: State): (r: Result<Step, ScanError>)
    requires s.pos <= |input|
    ensures r.Ok? ==> s.pos <= r.value.next.pos <= |input|
    ensures r.Ok? && r.value.token.kind != EOF ==> s.pos < r.value.next.pos
    ensures r.Ok? && r.value.token.kind == EOF ==> r.value.token.literal == "" && r.value.next.pos == |input|
  {
    StepAt(input, SkipComments(input, s))
  }

  /** One token from a cursor that is not at a comment. */
  function StepAt(input: string, s: State): (r: Result<Step, ScanError>)
    requires s.pos <= |input| && BranchAt(input, s) != Comment
    ensures r.Ok? ==> s.pos <= r.value.next.pos <= |input|
    ensures r.Ok? && r.value.token.kind != EOF ==> s.pos < r.value.next.pos
    ensures r.Ok? && r.value.token.kind == EOF ==> r.value.token.literal == "" && r.value.next.pos == |input|
  {
    match BranchAt(input, s)
    case AtEnd => Ok(Step(Token(EOF, ""), s))
    case SpanAssignment => Ok(Step(Token(Assignment, "="), s.(pos := s.pos + 1, inModifierSpan := false)))
    case SpanLetter => Ok(Step(Token(VariableExpansionModifier, [input[s.pos]]), s.(pos := s.pos + 1)))
    case SpanCutOff => Err(SubstringOutOfRange)
    case SpanBackslashes => Ok(Step(Token(VariableExpansionModifier, FourBackslashes), s.(pos := s.pos + 4)))
    case Blank =>
      var e := WhiteSpaceRunEnd(input, s.pos + 1, IsNewLine(input[s.pos]));
      Ok(Step(Token(WhiteSpace, input[s.pos..e]), s.(pos := e)))
    case Open =>
      var token := if input[s.pos] == '$' then Token(VariableDereferencerOpen, "$(") else Token(LiteralExpansionOpen, "@(");
      Ok(Step(token, s.(pos := s.pos + 2, depth := s.depth + 1)))
    case Close => Ok(Step(Token(ParenthesisClose, ")"), s.(pos := s.pos + 1, inModifierSpan := false, depth := s.depth - 1)))
    case Word => LiteralStep(input, s)
  }

  /**
   * The tail of `ScanTokenImpl` that reads a literal: its kind is decided by `TokenTypeFor`
   * only when its text is exactly what it consumed (no escape, no quote); an unquoted `:`
   * followed by a non-white-space character opens a modifier span.
   */
  function LiteralStep(input: string, t: State): (r: Result<Step, ScanError>)
    requires t.pos < |input|
    ensures r.Ok? ==> t.pos < r.value.next.pos <= |input| && r.value.token.kind != EOF
  {
    var lit := ReadLiteral(input, t.pos, t.inQuote, t.depth, t.depth == 0);
    var unquoted := lit.end - t.pos == |lit.text|;
    if unquoted && lit.text == ":" && lit.end == |input| then
      Err(IndexOutOfRange)
    else
      var span := t.inModifierSpan || (unquoted && lit.text == ":" && !IsWhiteSpace(input[lit.end]));
      var kind := if unquoted then TokenTypeFor(lit.text, Delimited(input, t.pos, lit.end), t.depth, span) else Literal;
      Ok(Step(Token(kind, lit.text), State(lit.end, lit.inQuote, span, t.depth)))
  }

  /** The tokens from a state up to and including the EOF token, and the final state. */
  datatype Scanned = Scanned(tokens: seq<Token>, final: State)

  /** `ScanAllTokens`: scan until the EOF token, which is included. */
  function ScanFrom(input: string, s: State): Result<Scanned, ScanError>
    requires s.pos <= |input|
    decreases |input| - s.pos
  {
    var step :- NextToken(input, s);
    if step.token.kind == EOF then Ok(Scanned([step.token], step.next))
    else
      var rest :- ScanFrom(input, step.next);
      Ok(Scanned([step.token] + rest.tokens, rest.final))
  }

  /** The whole token stream of a text, as `new Scanner(text).ScanAllTokens()` yields it. */
  function Scan(input: string): Result<seq<Token>, ScanError> {
    var r :- ScanFrom(input, Start);
    Ok(r.tokens)
  }

  /** `tokens` followed by a scan result. */
  function Prepend(tokens: seq<Token>, r: Result<Scanned, ScanError>): Result<Scanned, ScanError> {
    match r
    case Ok(rest) => Ok(Scanned(tokens + rest.tokens, rest.final))
    case Err(e) => Err(e)
  }

  lemma PrependNothing(r: Result<Scanned, ScanError>)
    ensures Prepend([], r) == r
  {
    if r.Ok? {
      assert [] + r.value.tokens == r.value.tokens;
    }
  }

  /** Unfolding one non-EOF step of a scan under an accumulated prefix. */
  lemma PrependStep(tokens: seq<Token>, input: string, s: State)
    requires s.pos <= |input|
    requires NextToken(input, s).Ok? && NextToken(input, s).value.token.kind != EOF
    ensures var step := NextToken(input, s).value;
      Prepend(tokens, ScanFrom(input, s)) == Prepend(tokens + [step.token], ScanFrom(input, step.next))
  {
    var step := NextToken(input, s).value;
    match ScanFrom(input, step.next)
    case Ok(rest) =>
      assert tokens + ([step.token] + rest.tokens) == (tokens + [step.token]) + rest.tokens;
    case Err(_) =>
  }
}
