/**
 * What the scanner promises, proved about its specification: the stream ends with exactly
 * one EOF token, white-space tokens are uniform runs, comments vanish, a literal is its
 * source text with escapes and quotes removed, the special characters need white space
 * around them, and the nesting depth and the modifier span follow the parentheses.
 */
module ScannerProperties {
  import opened Wrappers
  import opened Chars
  import opened ScannerSpec

  // ---------------------------------------------------------------------------
  // The token stream

  /** A successful scan ends with exactly one EOF token, whose literal is empty. */
  lemma {:induction false} StreamEndsWithOneEof(input: string, s: State)
    requires s.pos <= |input|
    requires ScanFrom(input, s).Ok?
    ensures var ts := ScanFrom(input, s).value.tokens;
      |ts| >= 1 && ts[|ts| - 1] == Token(EOF, "") &&
      (forall i :: 0 <= i < |ts| - 1 ==> ts[i].kind != EOF)
    ensures ScanFrom(input, s).value.final.pos == |input|
    decreases |input| - s.pos
  {
    var step := NextToken(input, s).value;
    if step.token.kind != EOF {
      var rest := ScanFrom(input, step.next);
      assert rest.Ok? && ScanFrom(input, s).value == Scanned([step.token] + rest.value.tokens, rest.value.final);
      StreamEndsWithOneEof(input, step.next);
    }
  }
  /**
   * `Scan`: the whole stream of a text ends with exactly one EOF token, the scanner then stands
   * at the end of the text, and its depth is the balance of the opening and closing tokens.
   */
  lemma ScanEndsWithOneEof(input: string)
    requires Scan(input).Ok?
    ensures var ts := Scan(input).value;
      |ts| >= 1 && ts[|ts| - 1] == Token(EOF, "") &&
      (forall i :: 0 <= i < |ts| - 1 ==> ts[i].kind != EOF)
    ensures ScanFrom(input, Start).Ok? && ScanFrom(input, Start).value.tokens == Scan(input).value
    ensures ScanFrom(input, Start).value.final.pos == |input|
    ensures ScanFrom(input, Start).value.final.depth == Balance(Scan(input).value)
  {
    StreamEndsWithOneEof(input, Start);
    FinalDepth(input, Start);
  }


  /** The nesting-depth change a token kind stands for. */
  function DepthChange(k: TokenKind): int {
    if k == VariableDereferencerOpen || k == LiteralExpansionOpen then 1
    else if k == ParenthesisClose then -1
    else 0
  }

  /** Opening minus closing tokens of a token sequence. */
  function Balance(ts: seq<Token>): int {
    if ts == [] then 0 else DepthChange(ts[0].kind) + Balance(ts[1..])
  }

  /**
   * `$(` and `@(` raise the depth by one, `)` lowers it by one (unconditionally, so it can
   * become negative), and no other token changes it.
   */
  lemma StepDepth(input: string, s: State)
    requires s.pos <= |input|
    requires NextToken(input, s).Ok?
    ensures var step := NextToken(input, s).value;
      step.next.depth == s.depth + DepthChange(step.token.kind)
  {
  }

  /** After a whole scan the depth is the start depth plus the opens minus the closes. */
  lemma {:induction false} FinalDepth(input: string, s: State)
    requires s.pos <= |input|
    requires ScanFrom(input, s).Ok?
    ensures var r := ScanFrom(input, s).value;
      r.final.depth == s.depth + Balance(r.tokens)
    decreases |input| - s.pos
  {
    var step := NextToken(input, s).value;
    StepDepth(input, s);
    var r := ScanFrom(input, s).value;
    if step.token.kind == EOF {
      assert r.tokens == [step.token];
      assert Balance(r.tokens) == DepthChange(EOF) + Balance([]);
    } else {
      FinalDepth(input, step.next);
      var rest := ScanFrom(input, step.next).value;
      assert r.tokens == [step.token] + rest.tokens;
      assert r.tokens[1..] == rest.tokens;
    }
  }

  // ---------------------------------------------------------------------------
  // White space

  /** Every character of `input[i..j]` is white space of newline class `newLine`. */
  predicate UniformRun(input: string, i: nat, j: nat, newLine: bool)
    requires i <= j <= |input|
  {
    forall k :: i <= k < j ==> IsWhiteSpace(input[k]) && IsNewLine(input[k]) == newLine
  }

  lemma {:induction false} WhiteSpaceRunIsUniform(input: string, i: nat, newLine: bool)
    requires i <= |input|
    ensures var e := WhiteSpaceRunEnd(input, i, newLine);
      UniformRun(input, i, e, newLine) &&
      (e == |input| || !IsWhiteSpace(input[e]) || IsNewLine(input[e]) != newLine)
    decreases |input| - i
  {
    if !(i == |input| || !IsWhiteSpace(input[i]) || IsNewLine(input[i]) != newLine) {
      WhiteSpaceRunIsUniform(input, i + 1, newLine);
    }
  }

  /**
   * A white-space token is a non-empty maximal run of white space that is either all
   * newline characters or has none; it is the text just before the new cursor.
   */
  lemma WhiteSpaceTokenIsUniformRun(input: string, s: State)
    requires s.pos <= |input|
    ensures NextToken(input, s).Ok? && NextToken(input, s).value.token.kind == WhiteSpace ==>
      var step := NextToken(input, s).value;
      var w := step.token.literal;
      var e := step.next.pos;
      0 < |w| <= e - s.pos && w == input[e - |w|..e] &&
      UniformRun(input, e - |w|, e, IsNewLine(w[0])) &&
      (e == |input| || !IsWhiteSpace(input[e]) || IsNewLine(input[e]) != IsNewLine(w[0]))
  {
    var t := SkipComments(input, s);
    if BranchAt(input, t) == Blank {
      WhiteSpaceStep(input, t);
    }
  }

  lemma WhiteSpaceStep(input: string, s: State)
    requires s.pos <= |input| && BranchAt(input, s) == Blank
    ensures StepAt(input, s).Ok?
    ensures var step := StepAt(input, s).value;
      var w := step.token.literal;
      var e := step.next.pos;
      step.token.kind == WhiteSpace &&
      0 < |w| == e - s.pos && w == input[s.pos..e] &&
      UniformRun(input, s.pos, e, IsNewLine(w[0])) &&
      (e == |input| || !IsWhiteSpace(input[e]) || IsNewLine(input[e]) != IsNewLine(w[0]))
  {
    var c := input[s.pos];
    WhiteSpaceRunIsUniform(input, s.pos + 1, IsNewLine(c));
    var e := WhiteSpaceRunEnd(input, s.pos + 1, IsNewLine(c));
    assert input[s.pos..e][0] == c;
  }

  // ---------------------------------------------------------------------------
  // Comments

  /** A newline character followed by one that is not: the first character of a line. */
  predicate LineStart(input: string, j: nat)
    requires 0 < j < |input|
  {
    IsNewLine(input[j - 1]) && !IsNewLine(input[j])
  }

  lemma {:induction false} CommentEndIsFirstLineStart(input: string, i: nat, inNewLineSequence: bool)
    requires i <= |input|
    requires inNewLineSequence ==> 0 < i && IsNewLine(input[i - 1])
    requires !inNewLineSequence ==> i < |input| ==> !IsNewLine(input[i]) || 0 < i
    ensures var e := CommentEnd(input, i, inNewLineSequence);
      (e == |input| || (0 < e && LineStart(input, e))) &&
      (forall j :: i < j < e ==> !LineStart(input, j))
    decreases |input| - i
  {
    if i < |input| {
      if IsNewLine(input[i]) {
        CommentEndIsFirstLineStart(input, i + 1, true);
      } else if !inNewLineSequence {
        CommentEndIsFirstLineStart(input, i + 1, false);
      }
    }
  }

  /**
   * `#` produces no token of its own: the step from a `#` is the step from the first
   * character of the next line (the first non-newline character after the comment's
   * line break), or from the end of the input.
   */
  lemma CommentProducesNoToken(input: string, s: State)
    requires s.pos < |input| && input[s.pos] == '#'
    ensures var e := CommentEnd(input, s.pos, false);
      s.pos < e && (e == |input| || LineStart(input, e)) &&
      (forall j :: s.pos < j < e ==> !LineStart(input, j)) &&
      NextToken(input, s) == NextToken(input, s.(pos := e))
  {
    CommentEndIsFirstLineStart(input, s.pos, false);
    CommentStep(input, s);
  }

  lemma CommentStep(input: string, s: State)
    requires s.pos < |input| && input[s.pos] == '#'
    ensures NextToken(input, s) == NextToken(input, s.(pos := CommentEnd(input, s.pos, false)))
  {
    assert SkipComments(input, s) == SkipComments(input, s.(pos := CommentEnd(input, s.pos, false)));
  }

  // ---------------------------------------------------------------------------
  // Escapes and quotes

  /**
   * The text a literal stands for: a backslash is dropped and the character after it kept
   * verbatim, a double quote is dropped, every other character is kept.
   */
  function Decode(s: string): string {
    if s == [] then []
    else if s[0] == '\\' && |s| > 1 then [s[1]] + Decode(s[2..])
    else if s[0] == '"' then Decode(s[1..])
    else [s[0]] + Decode(s[1..])
  }

  /** Text without backslashes and quotes decodes to itself. */
  lemma {:induction false} DecodePlain(s: string)
    requires forall k :: 0 <= k < |s| ==> s[k] != '\\' && s[k] != '"'
    ensures Decode(s) == s
  {
    if s != [] {
      DecodePlain(s[1..]);
    }
  }

  /**
   * Decoding never lengthens a text; it shortens it whenever the text holds a quote (the
   * quote is either dropped or escaped, and then its backslash is dropped).
   */
  lemma {:induction false} DecodeShortens(s: string)
    ensures |Decode(s)| <= |s|
    ensures (exists k :: 0 <= k < |s| && s[k] == '"') ==> |Decode(s)| < |s|
    decreases |s|
  {
    if s != [] {
      if s[0] == '\\' && |s| > 1 {
        DecodeShortens(s[2..]);
      } else {
        DecodeShortens(s[1..]);
        if s[0] != '"' && exists k :: 0 <= k < |s| && s[k] == '"' {
          var k :| 0 <= k < |s| && s[k] == '"';
          assert s[1..][k - 1] == '"';
        }
      }
    }
  }

  /** One decoding step at index `i` of `input[i..e]`. */
  lemma DecodeAt(input: string, i: nat, e: nat)
    requires i < e <= |input|
    ensures input[i] == '\\' && i + 1 < e ==> Decode(input[i..e]) == [input[i + 1]] + Decode(input[i + 2..e])
    ensures input[i] == '"' ==> Decode(input[i..e]) == Decode(input[i + 1..e])
    ensures input[i] != '"' && !(input[i] == '\\' && i + 1 < e) ==>
      Decode(input[i..e]) == [input[i]] + Decode(input[i + 1..e])
  {
    var s := input[i..e];
    assert s[1..] == input[i + 1..e];
    if i + 1 < e {
      assert s[2..] == input[i + 2..e];
    }
  }

  /** A single character decodes to itself, except a quote, which decodes to nothing. */
  lemma DecodeSingle(s: string)
    requires |s| == 1
    ensures Decode(s) == if s[0] == '"' then [] else s
  {
    assert s[1..] == [];
  }

  /** The loop of `ReadLiteral` appends exactly the decoding of the text it consumes. */
  lemma {:induction false} ReadLiteralFromDecodes(input: string, start: nat, i: nat, inQuote: bool,
                                                  depth: int, allowColon: bool, acc: string)
    requires start <= i <= |input|
    ensures var r := ReadLiteralFrom(input, start, i, inQuote, depth, allowColon, acc);
      r.text == acc + Decode(input[i..r.end])
    decreases |input| - i
  {
    var r := ReadLiteralFrom(input, start, i, inQuote, depth, allowColon, acc);
    if i == |input| {
      assert input[i..i] == [];
    } else {
      match ActionAt(input, start, i, inQuote, depth, allowColon)
      case Stop =>
        assert input[i..i] == [];
      case Escape =>
        ReadLiteralFromDecodes(input, start, i + 2, inQuote, depth, allowColon, acc + [input[i + 1]]);
        DecodeAt(input, i, r.end);
      case Quote =>
        ReadLiteralFromDecodes(input, start, i + 1, !inQuote, depth, allowColon, acc);
        DecodeAt(input, i, r.end);
      case Keep =>
        ReadLiteralFromDecodes(input, start, i + 1, inQuote, depth, allowColon, acc + [input[i]]);
        DecodeAt(input, i, r.end);
    }
  }

  /** A read that stops at once stops neither at a backslash nor at a quote. */
  lemma ReadLiteralStopsAtOnce(input: string, pos: nat, inQuote: bool, depth: int, allowColon: bool)
    requires pos < |input|
    requires ReadLiteralFrom(input, pos, pos, inQuote, depth, allowColon, []).end == pos
    ensures input[pos] != '\\' && input[pos] != '"'
  {
  }

  /** `ReadLiteral` yields the decoding of the text from `pos` to its new cursor. */
  lemma ReadLiteralDecodes(input: string, pos: nat, inQuote: bool, depth: int, allowColon: bool)
    requires pos < |input|
    ensures var r := ReadLiteral(input, pos, inQuote, depth, allowColon);
      r.text == Decode(input[pos..r.end])
  {
    var r0 := ReadLiteralFrom(input, pos, pos, inQuote, depth, allowColon, []);
    ReadLiteralFromDecodes(input, pos, pos, inQuote, depth, allowColon, []);
    if r0.end == pos {
      ReadLiteralStopsAtOnce(input, pos, inQuote, depth, allowColon);
      DecodeSingle(input[pos..pos + 1]);
    }
  }

  /** A literal step yields the decoding of what it consumed. */
  lemma LiteralStepDecodes(input: string, t: State)
    requires t.pos < |input| && LiteralStep(input, t).Ok?
    ensures var step := LiteralStep(input, t).value;
      step.token.literal == Decode(input[t.pos..step.next.pos])
  {
    ReadLiteralDecodes(input, t.pos, t.inQuote, t.depth, t.depth == 0);
  }

  /** A two-character text without backslashes and quotes decodes to itself. */
  lemma DecodePair(s: string)
    requires |s| == 2 && s[0] != '\\' && s[0] != '"' && s[1] != '\\' && s[1] != '"'
    ensures Decode(s) == s
  {
    DecodePlain(s);
  }

  /**
   * Escapes and quotes: apart from comments and the four-backslash modifier, a token's
   * literal is the text it consumed with every escaping backslash and every quote removed.
   */
  lemma TokenTextIsDecoded(input: string, s: State)
    requires s.pos < |input| && BranchAt(input, s) !in {Comment, SpanBackslashes}
    requires NextToken(input, s).Ok?
    ensures var step := NextToken(input, s).value;
      step.token.literal == Decode(input[s.pos..step.next.pos])
  {
    assert SkipComments(input, s) == s;
    match BranchAt(input, s)
    case SpanAssignment => DecodeSingle(input[s.pos..s.pos + 1]);
    case SpanLetter => DecodeSingle(input[s.pos..s.pos + 1]);
    case Blank => WhiteSpaceTokenIsDecoded(input, s);
    case Open => DecodePair(input[s.pos..s.pos + 2]);
    case Close => DecodeSingle(input[s.pos..s.pos + 1]);
    case Word => LiteralStepDecodes(input, s);
  }

  lemma WhiteSpaceTokenIsDecoded(input: string, s: State)
    requires s.pos < |input| && BranchAt(input, s) == Blank
    ensures StepAt(input, s).Ok?
    ensures var step := StepAt(input, s).value;
      step.token.literal == Decode(input[s.pos..step.next.pos])
  {
    var c := input[s.pos];
    var e := WhiteSpaceRunEnd(input, s.pos + 1, IsNewLine(c));
    WhiteSpaceRunIsUniform(input, s.pos + 1, IsNewLine(c));
    var w := input[s.pos..e];
    assert forall k :: 0 <= k < |w| ==> IsWhiteSpace(w[k]) by {
      forall k | 0 <= k < |w| ensures IsWhiteSpace(w[k]) {
        assert w[k] == input[s.pos + k];
      }
    }
    DecodePlain(w);
  }

  /**
   * A token whose literal differs in length from the text it consumed (an escape or a quote
   * was involved) is always a plain `Literal`.
   */
  lemma ShortenedTokenIsLiteral(input: string, s: State)
    requires s.pos < |input| && BranchAt(input, s) != Comment
    ensures NextToken(input, s).Ok? &&
            |NextToken(input, s).value.token.literal| != NextToken(input, s).value.next.pos - s.pos ==>
      NextToken(input, s).value.token.kind == Literal
  {
  }

  /**
   * Inside quotes, a stretch without quotes, backslashes, `$(`, `@(` and (inside an
   * expansion) `)` is taken over verbatim: white space and special characters included.
   */
  lemma {:induction false} QuotedTextIsVerbatim(input: string, start: nat, i: nat, j: nat, depth: int,
                                                allowColon: bool, acc: string)
    requires start <= i <= j <= |input|
    requires forall k :: i <= k < j ==> input[k] != '"' && input[k] != '\\'
    requires forall k :: i <= k < j ==> !((input[k] == '$' || input[k] == '@') && k + 1 < |input| && input[k + 1] == '(')
    requires depth > 0 ==> forall k :: i <= k < j ==> input[k] != ')'
    ensures ReadLiteralFrom(input, start, i, true, depth, allowColon, acc) ==
            ReadLiteralFrom(input, start, j, true, depth, allowColon, acc + input[i..j])
    decreases j - i
  {
    if i == j {
      assert acc + input[i..j] == acc;
    } else {
      QuotedTextIsVerbatim(input, start, i + 1, j, depth, allowColon, acc + [input[i]]);
      assert acc + [input[i]] + input[i + 1..j] == acc + input[i..j];
    }
  }

  // ---------------------------------------------------------------------------
  // Nesting depth inside literals

  /** Inside an expansion a `)` ends the literal, unless a backslash before it intervenes. */
  lemma {:induction false} CloseParenEndsRead(input: string, start: nat, i: nat, j: nat, inQuote: bool,
                                              depth: int, allowColon: bool, acc: string)
    requires start <= i <= j < |input| && depth > 0 && input[j] == ')'
    requires forall k :: i <= k < j ==> input[k] != '\\'
    ensures ReadLiteralFrom(input, start, i, inQuote, depth, allowColon, acc).end <= j
    decreases j - i
  {
    if i < j {
      var ch := input[i];
      CloseParenEndsRead(input, start, i + 1, j, if ch == '"' then !inQuote else inQuote, depth, allowColon,
                         if ch == '"' then acc else acc + [ch]);
    }
  }

  /** Without colon absorption, an unquoted `:` ends the literal. */
  lemma {:induction false} ColonEndsRead(input: string, start: nat, i: nat, j: nat,
                                         depth: int, acc: string)
    requires start <= i <= j < |input| && input[j] == ':'
    requires forall k :: i <= k < j ==> input[k] != '\\' && input[k] != '"'
    ensures ReadLiteralFrom(input, start, i, false, depth, false, acc).end <= j
    decreases j - i
  {
    if i < j {
      ColonEndsRead(input, start, i + 1, j, depth, acc + [input[i]]);
    }
  }

  /**
   * While the depth is positive, a literal never extends over a `)` or over an unquoted `:`
   * (barring escapes, and quotes for the colon).
   */
  lemma LiteralStopsInsideExpansion(input: string, s: State, j: nat)
    requires s.pos < j < |input| && s.depth > 0 && BranchAt(input, s) == Word
    requires input[j] == ')' || (input[j] == ':' && !s.inQuote && forall k :: s.pos <= k < j ==> input[k] != '"')
    requires forall k :: s.pos <= k < j ==> input[k] != '\\'
    ensures NextToken(input, s).Ok? && NextToken(input, s).value.next.pos <= j
  {
    if input[j] == ')' {
      CloseParenEndsRead(input, s.pos, s.pos, j, s.inQuote, s.depth, false, []);
    } else {
      ColonEndsRead(input, s.pos, s.pos, j, s.depth, []);
    }
  }

  // ---------------------------------------------------------------------------
  // White-space-sensitive special characters

  /** The kinds `;`, `{`, `}`, `<` and `>` stand for when they stand alone. */
  function DelimitedKind(c: char): TokenKind
    requires c in {';', '{', '}', '<', '>'}
  {
    if c == ';' then Terminator
    else if c == '{' then AccoladeOpen
    else if c == '}' then AccoladeClose
    else if c == '<' then LessThan
    else GreaterThan
  }

  /** `TokenTypeFor` picks a delimited kind exactly for its one character, white space around. */
  lemma TokenTypeForDelimited(literal: string, hasWhitespaceAround: bool, depth: int, inModifierSpan: bool, c: char)
    requires c in {';', '{', '}', '<', '>'}
    ensures TokenTypeFor(literal, hasWhitespaceAround, depth, inModifierSpan) == DelimitedKind(c) <==>
      literal == [c] && hasWhitespaceAround
  {
  }

  /** `TokenTypeFor` picks `Colon` and `Assignment` exactly for `:` and `=` in their contexts. */
  lemma TokenTypeForColonAndAssignment(literal: string, hasWhitespaceAround: bool, depth: int, inModifierSpan: bool)
    ensures TokenTypeFor(literal, hasWhitespaceAround, depth, inModifierSpan) == Colon <==>
      literal == ":" && (depth > 0 || hasWhitespaceAround)
    ensures TokenTypeFor(literal, hasWhitespaceAround, depth, inModifierSpan) == Assignment <==>
      literal == "=" && (inModifierSpan || hasWhitespaceAround)
  {
  }

  /**
   * The kind of a literal step: `TokenTypeFor` of its text when the text is exactly what it
   * consumed, and `Literal` otherwise.
   */
  lemma LiteralStepKind(input: string, s: State)
    requires s.pos < |input| && LiteralStep(input, s).Ok?
    ensures var step := LiteralStep(input, s).value;
      var consumed := input[s.pos..step.next.pos];
      step.token.literal == Decode(consumed) &&
      step.next.depth == s.depth &&
      step.token.kind == (if |Decode(consumed)| == |consumed|
                          then TokenTypeFor(Decode(consumed), Delimited(input, s.pos, step.next.pos), s.depth, step.next.inModifierSpan)
                          else Literal)
  {
    LiteralStepDecodes(input, s);
  }

  /** A text decodes to one non-quote character `c`, keeping its length, exactly when it is `[c]`. */
  lemma SingleSpelling(consumed: string, c: char)
    requires c != '"'
    ensures (|Decode(consumed)| == |consumed| && Decode(consumed) == [c]) <==> consumed == [c]
  {
    if |consumed| == 1 {
      DecodeSingle(consumed);
    }
  }

  /**
   * `;`, `{`, `}`, `<` and `>` get their special kinds exactly when the token is that one
   * character standing between white space or the input's boundaries; anything else
   * spelled like them is a `Literal` (`<you<can>do>this>`).
   */
  lemma DelimitedSpecials(input: string, s: State, c: char)
    requires c in {';', '{', '}', '<', '>'}
    requires s.pos < |input| && input[s.pos] != '#'
    requires NextToken(input, s).Ok?
    ensures var step := NextToken(input, s).value;
      step.token.kind == DelimitedKind(c) <==>
        step.next.pos == s.pos + 1 && input[s.pos] == c && Delimited(input, s.pos, s.pos + 1)
  {
    assert SkipComments(input, s) == s;
    if BranchAt(input, s) == Word {
      LiteralDelimitedSpecial(input, s, c);
    }
  }

  lemma LiteralDelimitedSpecial(input: string, s: State, c: char)
    requires c in {';', '{', '}', '<', '>'}
    requires s.pos < |input| && LiteralStep(input, s).Ok?
    ensures var step := LiteralStep(input, s).value;
      step.token.kind == DelimitedKind(c) <==>
        step.next.pos == s.pos + 1 && input[s.pos] == c && Delimited(input, s.pos, s.pos + 1)
  {
    var step := LiteralStep(input, s).value;
    var consumed := input[s.pos..step.next.pos];
    LiteralStepKind(input, s);
    TokenTypeForDelimited(Decode(consumed), Delimited(input, s.pos, step.next.pos), s.depth, step.next.inModifierSpan, c);
    SingleSpelling(consumed, c);
    if step.next.pos == s.pos + 1 {
      assert consumed == [input[s.pos]];
    }
  }

  /**
   * `:` is a `Colon` exactly when the token is that one character and the depth is positive
   * or it stands between white space (`hello:there` is one `Literal`).
   */
  lemma ColonNeedsContext(input: string, s: State)
    requires s.pos < |input| && input[s.pos] != '#'
    requires NextToken(input, s).Ok?
    ensures var step := NextToken(input, s).value;
      step.token.kind == Colon <==>
        step.next.pos == s.pos + 1 && input[s.pos] == ':' && (s.depth > 0 || Delimited(input, s.pos, s.pos + 1))
  {
    assert SkipComments(input, s) == s;
    if BranchAt(input, s) == Word {
      LiteralColonAndAssignment(input, s);
    }
  }

  /**
   * `=` is an `Assignment` exactly when the token is that one character and a modifier span
   * is open or it stands between white space.
   */
  lemma AssignmentNeedsContext(input: string, s: State)
    requires s.pos < |input| && input[s.pos] != '#'
    requires NextToken(input, s).Ok?
    ensures var step := NextToken(input, s).value;
      step.token.kind == Assignment <==>
        step.next.pos == s.pos + 1 && input[s.pos] == '=' && (s.inModifierSpan || Delimited(input, s.pos, s.pos + 1))
  {
    assert SkipComments(input, s) == s;
    if BranchAt(input, s) == Word {
      LiteralColonAndAssignment(input, s);
    }
  }

  lemma LiteralColonAndAssignment(input: string, s: State)
    requires s.pos < |input| && BranchAt(input, s) == Word && LiteralStep(input, s).Ok?
    ensures var step := LiteralStep(input, s).value;
      (step.token.kind == Colon <==>
        step.next.pos == s.pos + 1 && input[s.pos] == ':' && (s.depth > 0 || Delimited(input, s.pos, s.pos + 1))) &&
      (step.token.kind == Assignment <==>
        step.next.pos == s.pos + 1 && input[s.pos] == '=' && (s.inModifierSpan || Delimited(input, s.pos, s.pos + 1)))
  {
    var step := LiteralStep(input, s).value;
    var consumed := input[s.pos..step.next.pos];
    LiteralStepKind(input, s);
    TokenTypeForColonAndAssignment(Decode(consumed), Delimited(input, s.pos, step.next.pos), s.depth, step.next.inModifierSpan);
    SingleSpelling(consumed, ':');
    SingleSpelling(consumed, '=');
    if step.next.pos == s.pos + 1 {
      assert consumed == [input[s.pos]];
    }
    assert input[s.pos] == '=' ==> !s.inModifierSpan;
    assert consumed == "=" ==> !step.next.inModifierSpan;
  }

  // ---------------------------------------------------------------------------
  // Failures

  /**
   * A step fails exactly in the two places where the scanner reads past the end of its
   * input: a backslash in a modifier span with fewer than four characters left, and a lone
   * `:` as the last character.
   */
  lemma FailsExactly(input: string, s: State)
    requires s.pos < |input| && input[s.pos] != '#'
    ensures NextToken(input, s) == Err(SubstringOutOfRange) <==>
      s.inModifierSpan && input[s.pos] == '\\' && |input| - s.pos < 4
    ensures NextToken(input, s) == Err(IndexOutOfRange) <==>
      input[s.pos] == ':' && s.pos + 1 == |input|
    ensures NextToken(input, s).Err? <==>
      (s.inModifierSpan && input[s.pos] == '\\' && |input| - s.pos < 4) ||
      (input[s.pos] == ':' && s.pos + 1 == |input|)
  {
    assert SkipComments(input, s) == s;
    if BranchAt(input, s) == Word {
      LiteralFailsExactly(input, s);
    }
  }

  /** A literal step fails exactly on a lone `:` as the last character. */
  lemma LiteralFailsExactly(input: string, s: State)
    requires s.pos < |input| && BranchAt(input, s) == Word
    ensures LiteralStep(input, s).Err? <==> input[s.pos] == ':' && s.pos + 1 == |input|
    ensures LiteralStep(input, s).Err? ==> LiteralStep(input, s).error == IndexOutOfRange
  {
    var lit := ReadLiteral(input, s.pos, s.inQuote, s.depth, s.depth == 0);
    ReadLiteralDecodes(input, s.pos, s.inQuote, s.depth, s.depth == 0);
    SingleSpelling(input[s.pos..lit.end], ':');
    if lit.end == s.pos + 1 {
      SliceOfOne(input, s.pos);
    }
  }

  lemma SliceOfOne(input: string, i: nat)
    requires i < |input|
    ensures input[i..i + 1] == [input[i]]
  {
  }

  // ---------------------------------------------------------------------------
  // The modifier span

  /**
   * The span opens only on a `:` token of one character that is directly followed by a
   * character that is not white space.
   */
  lemma SpanOpensAfterColon(input: string, s: State)
    requires s.pos <= |input| && !s.inModifierSpan
    ensures NextToken(input, s).Ok? && NextToken(input, s).value.next.inModifierSpan ==>
      var step := NextToken(input, s).value;
      step.token.literal == ":" && 0 < step.next.pos < |input| &&
      input[step.next.pos - 1] == ':' && !IsWhiteSpace(input[step.next.pos])
  {
    var t := SkipComments(input, s);
    if BranchAt(input, t) == Word {
      LiteralSpanOpensAfterColon(input, t);
    }
  }

  lemma LiteralSpanOpensAfterColon(input: string, s: State)
    requires s.pos < |input| && !s.inModifierSpan && BranchAt(input, s) == Word
    ensures LiteralStep(input, s).Ok? && LiteralStep(input, s).value.next.inModifierSpan ==>
      var step := LiteralStep(input, s).value;
      step.token.literal == ":" && 0 < step.next.pos < |input| &&
      input[step.next.pos - 1] == ':' && !IsWhiteSpace(input[step.next.pos])
  {
    if LiteralStep(input, s).Ok? {
      var step := LiteralStep(input, s).value;
      LiteralStepKind(input, s);
      var consumed := input[s.pos..step.next.pos];
      SingleSpelling(consumed, ':');
      assert consumed[|consumed| - 1] == input[step.next.pos - 1];
    }
  }

  /** Conversely, an unquoted `:` followed by a non-white-space character opens the span. */
  lemma ColonOpensSpan(input: string, s: State)
    requires s.pos + 1 < |input| && input[s.pos] == ':' && !s.inQuote && !IsWhiteSpace(input[s.pos + 1])
    ensures NextToken(input, s) ==
      Ok(Step(Token(if s.depth > 0 then Colon else Literal, ":"), State(s.pos + 1, false, true, s.depth)))
  {
    assert BranchAt(input, s) == Word;
    assert ReadLiteralFrom(input, s.pos, s.pos, false, s.depth, s.depth == 0, []).end == s.pos;
  }

  /** The span closes only with the `=` or the `)` token. */
  lemma SpanClosesOnAssignmentOrParen(input: string, s: State)
    requires s.pos <= |input| && s.inModifierSpan
    ensures NextToken(input, s).Ok? && !NextToken(input, s).value.next.inModifierSpan ==>
      var t := NextToken(input, s).value.token;
      t == Token(Assignment, "=") || t == Token(ParenthesisClose, ")")
  {
  }

  /** Inside the span a letter is a modifier token of its own, and the span stays open. */
  lemma SpanLetterIsModifier(input: string, s: State)
    requires s.pos < |input| && s.inModifierSpan && IsLetter(input[s.pos])
    ensures NextToken(input, s) == Ok(Step(Token(VariableExpansionModifier, [input[s.pos]]), s.(pos := s.pos + 1)))
  {
    assert SkipComments(input, s) == s;
  }

  /** Inside the span `=` is an assignment token, and it closes the span. */
  lemma SpanAssignmentClosesSpan(input: string, s: State)
    requires s.pos < |input| && s.inModifierSpan && input[s.pos] == '='
    ensures NextToken(input, s) == Ok(Step(Token(Assignment, "="), s.(pos := s.pos + 1, inModifierSpan := false)))
  {
    assert SkipComments(input, s) == s;
  }

  /** Four backslashes inside the span are one modifier token, and the span stays open. */
  lemma SpanBackslashesAreModifier(input: string, s: State)
    requires s.pos + 4 <= |input| && s.inModifierSpan && input[s.pos..s.pos + 4] == FourBackslashes
    ensures NextToken(input, s) == Ok(Step(Token(VariableExpansionModifier, FourBackslashes), s.(pos := s.pos + 4)))
  {
    assert input[s.pos] == FourBackslashes[0];
    assert SkipComments(input, s) == s;
  }

  /** `)` closes the span, if one is open, and one level of depth, whether or not a `$(` is open. */
  lemma CloseParenClosesSpanAndDepth(input: string, s: State)
    requires s.pos < |input| && input[s.pos] == ')'
    ensures NextToken(input, s) ==
      Ok(Step(Token(ParenthesisClose, ")"), s.(pos := s.pos + 1, inModifierSpan := false, depth := s.depth - 1)))
  {
    assert SkipComments(input, s) == s;
  }

  /**
   * The characters an unquoted literal may continue with: anything but white space and the
   * five structural characters `{`, `}`, `[`, `]` and `#`, with `:` only when colons are allowed.
   */
  lemma LiteralCharIsNotDelimiter(c: char, treatColonAsLiteral: bool)
    ensures IsLiteralChar(c, treatColonAsLiteral) ==> !IsWhiteSpace(c) && c !in "{}[]#"
    ensures IsLiteralChar(':', treatColonAsLiteral) == treatColonAsLiteral
    ensures !IsWhiteSpace(c) && c !in "{}[]#:" ==> IsLiteralChar(c, treatColonAsLiteral)
  {
  }

  // ---------------------------------------------------------------------------
  // Keywords and operators

  /** The spellings `TokenTypeFor` recognises unconditionally for a kind. */
  function Spellings(k: TokenKind): set<string> {
    match k
    case BracketOpen => {"["}
    case BracketClose => {"]"}
    case If => {"if"}
    case Rule => {"rule"}
    case Return => {"return"}
    case Actions => {"actions"}
    case Include => {"include", "Include"}
    case On => {"on"}
    case Not => {"!"}
    case Else => {"else"}
    case While => {"while"}
    case AppendOperator => {"+="}
    case SubtractOperator => {"-="}
    case AssignmentIfEmpty => {"?="}
    case For => {"for"}
    case In => {"in"}
    case Continue => {"continue"}
    case Break => {"break"}
    case Case => {"case"}
    case Switch => {"switch"}
    case Local => {"local"}
    case And => {"&&"}
    case Or => {"||"}
    case NotEqual => {"!="}
    case _ => {}
  }

  /**
   * A keyword or operator is recognised by each of its spellings, whatever the context
   * (split over helpers by position in the `TokenTypeFor` chain).
   */
  lemma SpellingGivesKind(literal: string, hasWhitespaceAround: bool, depth: int, inModifierSpan: bool, k: TokenKind)
    requires literal in Spellings(k)
    ensures TokenTypeFor(literal, hasWhitespaceAround, depth, inModifierSpan) == k
  {
    match k
    case Include => SpellingGivesInclude(literal, hasWhitespaceAround, depth, inModifierSpan);
    case BracketOpen | BracketClose | If | Rule | Return | Actions => SpellingGivesKind1(literal, hasWhitespaceAround, depth, inModifierSpan, k);
    case On | Not | Else => SpellingGivesKind2(literal, hasWhitespaceAround, depth, inModifierSpan, k);
    case While | AppendOperator | SubtractOperator => SpellingGivesKind3(literal, hasWhitespaceAround, depth, inModifierSpan, k);
    case AssignmentIfEmpty | For | In => SpellingGivesKind4(literal, hasWhitespaceAround, depth, inModifierSpan, k);
    case Continue | Break => SpellingGivesKind5(literal, hasWhitespaceAround, depth, inModifierSpan, k);
    case Case | Switch => SpellingGivesKind6(literal, hasWhitespaceAround, depth, inModifierSpan, k);
    case Local | And => SpellingGivesKind7(literal, hasWhitespaceAround, depth, inModifierSpan, k);
    case Or | NotEqual => SpellingGivesKind8(literal, hasWhitespaceAround, depth, inModifierSpan, k);
    case _ =>
  }

  lemma SpellingGivesInclude(literal: string, hasWhitespaceAround: bool, depth: int, inModifierSpan: bool)
    requires literal in Spellings(Include)
    ensures TokenTypeFor(literal, hasWhitespaceAround, depth, inModifierSpan) == Include
  {
    assert literal == "include" || literal == "Include";
  }

  lemma SpellingGivesKind1(literal: string, hasWhitespaceAround: bool, depth: int, inModifierSpan: bool, k: TokenKind)
    requires k == BracketOpen || k == BracketClose || k == If || k == Rule || k == Return || k == Actions
    requires literal in Spellings(k)
    ensures TokenTypeFor(literal, hasWhitespaceAround, depth, inModifierSpan) == k
  {
    match k
    case BracketOpen => assert TokenTypeFor("[", hasWhitespaceAround, depth, inModifierSpan) == BracketOpen;
    case BracketClose => assert TokenTypeFor("]", hasWhitespaceAround, depth, inModifierSpan) == BracketClose;
    case If => assert TokenTypeFor("if", hasWhitespaceAround, depth, inModifierSpan) == If;
    case Rule => assert TokenTypeFor("rule", hasWhitespaceAround, depth, inModifierSpan) == Rule;
    case Return => assert TokenTypeFor("return", hasWhitespaceAround, depth, inModifierSpan) == Return;
    case Actions => assert TokenTypeFor("actions", hasWhitespaceAround, depth, inModifierSpan) == Actions;
  }

  lemma SpellingGivesKind2(literal: string, hasWhitespaceAround: bool, depth: int, inModifierSpan: bool, k: TokenKind)
    requires k == On || k == Not || k == Else
    requires literal in Spellings(k)
    ensures TokenTypeFor(literal, hasWhitespaceAround, depth, inModifierSpan) == k
  {
    match k
    case On => assert TokenTypeFor("on", hasWhitespaceAround, depth, inModifierSpan) == On;
    case Not => assert TokenTypeFor("!", hasWhitespaceAround, depth, inModifierSpan) == Not;
    case Else => assert TokenTypeFor("else", hasWhitespaceAround, depth, inModifierSpan) == Else;
  }

  lemma SpellingGivesKind3(literal: string, hasWhitespaceAround: bool, depth: int, inModifierSpan: bool, k: TokenKind)
    requires k == While || k == AppendOperator || k == SubtractOperator
    requires literal in Spellings(k)
    ensures TokenTypeFor(literal, hasWhitespaceAround, depth, inModifierSpan) == k
  {
    match k
    case While => assert TokenTypeFor("while", hasWhitespaceAround, depth, inModifierSpan) == While;
    case AppendOperator => assert TokenTypeFor("+=", hasWhitespaceAround, depth, inModifierSpan) == AppendOperator;
    case SubtractOperator => assert TokenTypeFor("-=", hasWhitespaceAround, depth, inModifierSpan) == SubtractOperator;
  }

  lemma SpellingGivesKind4(literal: string, hasWhitespaceAround: bool, depth: int, inModifierSpan: bool, k: TokenKind)
    requires k == AssignmentIfEmpty || k == For || k == In
    requires literal in Spellings(k)
    ensures TokenTypeFor(literal, hasWhitespaceAround, depth, inModifierSpan) == k
  {
    match k
    case AssignmentIfEmpty => assert TokenTypeFor("?=", hasWhitespaceAround, depth, inModifierSpan) == AssignmentIfEmpty;
    case For => assert TokenTypeFor("for", hasWhitespaceAround, depth, inModifierSpan) == For;
    case In => assert TokenTypeFor("in", hasWhitespaceAround, depth, inModifierSpan) == In;
  }

  lemma SpellingGivesKind5(literal: string, hasWhitespaceAround: bool, depth: int, inModifierSpan: bool, k: TokenKind)
    requires k == Continue || k == Break
    requires literal in Spellings(k)
    ensures TokenTypeFor(literal, hasWhitespaceAround, depth, inModifierSpan) == k
  {
    match k
    case Continue => assert TokenTypeFor("continue", hasWhitespaceAround, depth, inModifierSpan) == Continue;
    case Break => assert TokenTypeFor("break", hasWhitespaceAround, depth, inModifierSpan) == Break;
  }

  lemma SpellingGivesKind6(literal: string, hasWhitespaceAround: bool, depth: int, inModifierSpan: bool, k: TokenKind)
    requires k == Case || k == Switch
    requires literal in Spellings(k)
    ensures TokenTypeFor(literal, hasWhitespaceAround, depth, inModifierSpan) == k
  {
    match k
    case Case => assert TokenTypeFor("case", hasWhitespaceAround, depth, inModifierSpan) == Case;
    case Switch => assert TokenTypeFor("switch", hasWhitespaceAround, depth, inModifierSpan) == Switch;
  }

  lemma SpellingGivesKind7(literal: string, hasWhitespaceAround: bool, depth: int, inModifierSpan: bool, k: TokenKind)
    requires k == Local || k == And
    requires literal in Spellings(k)
    ensures TokenTypeFor(literal, hasWhitespaceAround, depth, inModifierSpan) == k
  {
    match k
    case Local => assert TokenTypeFor("local", hasWhitespaceAround, depth, inModifierSpan) == Local;
    case And => assert TokenTypeFor("&&", hasWhitespaceAround, depth, inModifierSpan) == And;
  }

  lemma SpellingGivesKind8(literal: string, hasWhitespaceAround: bool, depth: int, inModifierSpan: bool, k: TokenKind)
    requires k == Or || k == NotEqual
    requires literal in Spellings(k)
    ensures TokenTypeFor(literal, hasWhitespaceAround, depth, inModifierSpan) == k
  {
    match k
    case Or => assert TokenTypeFor("||", hasWhitespaceAround, depth, inModifierSpan) == Or;
    case NotEqual => assert TokenTypeFor("!=", hasWhitespaceAround, depth, inModifierSpan) == NotEqual;
  }

  /** A keyword or operator kind is chosen only for one of its spellings. */
  lemma KindNeedsSpelling(literal: string, hasWhitespaceAround: bool, depth: int, inModifierSpan: bool)
    requires Spellings(TokenTypeFor(literal, hasWhitespaceAround, depth, inModifierSpan)) != {}
    ensures literal in Spellings(TokenTypeFor(literal, hasWhitespaceAround, depth, inModifierSpan))
  {
    if literal == ";" {
    } else if literal == "[" {
    } else if literal == "]" {
    } else if literal == ":" {
    } else if literal == "{" {
    } else if literal == "}" {
    } else if literal == "=" {
    } else if literal == "if" {
    } else if literal == "rule" {
    } else if literal == "return" {
    } else if literal == "actions" {
    } else if literal == "include" {
    } else if literal == "Include" {
    } else if literal == "on" {
    } else if literal == "!" {
    } else if literal == "else" {
    } else if literal == "while" {
    } else if literal == "+=" {
    } else if literal == "-=" {
    } else if literal == "?=" {
    } else if literal == "<" {
    } else if literal == ">" {
    } else if literal == "for" {
    } else if literal == "in" {
    } else if literal == "continue" {
    } else if literal == "break" {
    } else if literal == "case" {
    } else if literal == "switch" {
    } else if literal == "local" {
    } else if literal == "&&" {
    } else if literal == "||" {
    } else if literal == "!=" {
    }
  }

}
