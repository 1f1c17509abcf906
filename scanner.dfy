/**
 * The scanner of Scanner.cs as an object: a cursor into an immutable input and the state
 * flags it updates token by token. Every method is proved to do what the functional
 * specification in `ScannerSpec` says.
 */
module JamScanner {
  import opened Wrappers
  import opened Chars
  import opened ScannerSpec

  class Scanner {
    const input: string
    var nextChar: nat
    var isInsideQuote: bool
    var insideModifierSpan: bool
    var insideDepth: int
    /** The `StringBuilder` that `ReadLiteral` appends to; it is empty between tokens. */
    var builder: string

    ghost predicate Valid()
      reads this
    {
      nextChar <= |input| && builder == []
    }

    /** The abstract state the specification works on. */
    ghost function State(): ScannerSpec.State
      reads this
    {
      ScannerSpec.State(nextChar, isInsideQuote, insideModifierSpan, insideDepth)
    }

    constructor (input: string)
      ensures this.input == input
      ensures Valid() && State() == Start
    {
      this.input := input;
      nextChar := 0;
      isInsideQuote := false;
      insideModifierSpan := false;
      insideDepth := 0;
      builder := [];
    }

    /**
     * `ScanAllTokens`: scan to the EOF token, which is the last token returned. The
     * result is the specification's token stream from the current state.
     */
    method ScanAllTokens() returns (r: Result<seq<Token>, ScanError>)
      requires Valid()
      modifies this
      ensures var spec := ScanFrom(input, old(State()));
        match spec
        case Ok(scanned) => r == Ok(scanned.tokens) && Valid() && State() == scanned.final
        case Err(e) => r == Err(e)
    {
      var tokens: seq<Token> := [];
      PrependNothing(ScanFrom(input, State()));
      while true
        invariant Valid()
        invariant ScanFrom(input, old(State())) == Prepend(tokens, ScanFrom(input, State()))
        decreases |input| - nextChar
      {
        ghost var before := State();
        var t :- ScanToken();
        if t.kind != EOF {
          PrependStep(tokens, input, before);
        }
        tokens := tokens + [t];
        if t.kind == EOF {
          return Ok(tokens);
        }
      }
    }

    /** `ScanToken`: the next token, as the specification's `NextToken` gives it. */
    method ScanToken() returns (r: Result<Token, ScanError>)
      requires Valid()
      modifies this
      decreases |input| - nextChar, 2
      ensures var spec := NextToken(input, old(State()));
        match spec
        case Ok(step) => r == Ok(step.token) && Valid() && State() == step.next
        case Err(e) => r == Err(e)
    {
      r := ScanTokenImpl();
    }

    method ScanTokenImpl() returns (r: Result<Token, ScanError>)
      requires Valid()
      modifies this
      decreases |input| - nextChar, 1
      ensures var spec := NextToken(input, old(State()));
        match spec
        case Ok(step) => r == Ok(step.token) && Valid() && State() == step.next
        case Err(e) => r == Err(e)
    {
      if nextChar >= |input| {
        return Ok(Token(EOF, ""));
      }
      var c := input[nextChar];

      if insideModifierSpan {
        if c == '=' {
          insideModifierSpan := false;
          nextChar := nextChar + 1;
          return Ok(Token(Assignment, [c]));
        }
        if IsLetter(c) {
          nextChar := nextChar + 1;
          return Ok(Token(VariableExpansionModifier, [c]));
        }
        if c == '\\' {
          if |input| - nextChar < 4 {
            return Err(SubstringOutOfRange);
          }
          if input[nextChar..nextChar + 4] == FourBackslashes {
            nextChar := nextChar + 4;
            return Ok(Token(VariableExpansionModifier, FourBackslashes));
          }
        }
        if c == ')' {
          insideModifierSpan := false;
        }
      }
      r := ScanPlainToken();
    }

    /** The part of `ScanTokenImpl` after the modifier-span cases. */
    method ScanPlainToken() returns (r: Result<Token, ScanError>)
      requires Valid() && BranchAt(input, State()) in {Blank, Open, Close, Comment, Word}
      requires BranchAt(input, State()) == Close ==> !insideModifierSpan
      modifies this
      decreases |input| - nextChar, 0
      ensures var spec := NextToken(input, old(State()));
        match spec
        case Ok(step) => r == Ok(step.token) && Valid() && State() == step.next
        case Err(e) => r == Err(e)
    {
      var c := input[nextChar];
      if IsWhiteSpace(c) {
        var w := ReadWhiteSpace();
        return Ok(Token(WhiteSpace, w));
      }

      var hasMoreCharacters := nextChar + 1 < |input|;
      if c == '$' && hasMoreCharacters && input[nextChar + 1] == '(' {
        insideDepth := insideDepth + 1;
        nextChar := nextChar + 2;
        return Ok(Token(VariableDereferencerOpen, "$("));
      }
      if c == '@' && hasMoreCharacters && input[nextChar + 1] == '(' {
        insideDepth := insideDepth + 1;
        nextChar := nextChar + 2;
        return Ok(Token(LiteralExpansionOpen, "@("));
      }
      if c == ')' {
        insideDepth := insideDepth - 1;
        nextChar := nextChar + 1;
        return Ok(Token(ParenthesisClose, ")"));
      }

      if c == '#' {
        ReadUntilEndOfLine();
        r := ScanToken();
        return;
      }

      r := ScanLiteralToken();
    }

    /** The part of `ScanTokenImpl` from line 112 on: read a literal and classify it. */
    method ScanLiteralToken() returns (r: Result<Token, ScanError>)
      requires Valid() && nextChar < |input|
      modifies this
      ensures var spec := LiteralStep(input, old(State()));
        match spec
        case Ok(step) => r == Ok(step.token) && Valid() && State() == step.next
        case Err(e) => r == Err(e)
    {
      var oldPosition := nextChar;
      var literal := ReadLiteral(insideDepth == 0);
      var isUnquotedLiteral := nextChar - oldPosition == |literal|;
      if isUnquotedLiteral && literal == ":" {
        if nextChar == |input| {
          return Err(IndexOutOfRange);
        }
        if !IsWhiteSpace(input[nextChar]) {
          insideModifierSpan := true;
        }
      }

      var tokenType := TokenKind.Literal;
      if isUnquotedLiteral {
        var hasWhitespaceBefore := oldPosition == 0 || IsWhiteSpace(input[oldPosition - 1]);
        var hasWhitespaceAfter := nextChar == |input| || IsWhiteSpace(input[nextChar]);
        tokenType := TokenTypeFor(literal, hasWhitespaceAfter && hasWhitespaceBefore, insideDepth, insideModifierSpan);
      }
      return Ok(Token(tokenType, literal));
    }

    /**
     * `ReadLiteral`: append literal characters to the builder until a character that ends
     * the literal; a literal that ends at once is its first character on its own.
     */
    method ReadLiteral(allowColon: bool) returns (literal: string)
      requires Valid() && nextChar < |input|
      modifies this`nextChar, this`isInsideQuote, this`builder
      ensures var lr := ScannerSpec.ReadLiteral(input, old(nextChar), old(isInsideQuote), insideDepth, allowColon);
        literal == lr.text && nextChar == lr.end && isInsideQuote == lr.inQuote
      ensures Valid()
    {
      var i := nextChar;
      while i != |input|
        invariant nextChar == old(nextChar) && nextChar <= i <= |input|
        invariant i == nextChar ==> builder == [] && isInsideQuote == old(isInsideQuote)
        invariant ReadLiteralFrom(input, nextChar, i, isInsideQuote, insideDepth, allowColon, builder)
               == ReadLiteralFrom(input, nextChar, nextChar, old(isInsideQuote), insideDepth, allowColon, [])
        decreases |input| - i
      {
        var reallyAllowColon := allowColon && nextChar != i;
        var hasMoreCharacters := i + 1 < |input|;
        var ch := input[i];
        if ch == '\\' && hasMoreCharacters {
          i := i + 1;
          builder := builder + [input[i]];
        } else if (ch == '$' || ch == '@') && hasMoreCharacters && input[i + 1] == '(' {
          assert ReadLiteralFrom(input, nextChar, i, isInsideQuote, insideDepth, allowColon, builder) == LiteralRead(builder, i, isInsideQuote);
          break;
        } else if ch == ')' && insideDepth > 0 {
          assert ReadLiteralFrom(input, nextChar, i, isInsideQuote, insideDepth, allowColon, builder) == LiteralRead(builder, i, isInsideQuote);
          break;
        } else if isInsideQuote {
          if ch == '"' {
            isInsideQuote := false;
          } else {
            builder := builder + [ch];
          }
        } else if ch == '"' {
          isInsideQuote := true;
        } else if IsLiteralChar(ch, reallyAllowColon) || ((ch == '$' || ch == '@') && hasMoreCharacters && input[i + 1] != '(') {
          builder := builder + [ch];
        } else {
          assert ReadLiteralFrom(input, nextChar, i, isInsideQuote, insideDepth, allowColon, builder) == LiteralRead(builder, i, isInsideQuote);
          break;
        }
        i := i + 1;
      }
      assert ReadLiteralFrom(input, nextChar, i, isInsideQuote, insideDepth, allowColon, builder) == LiteralRead(builder, i, isInsideQuote);

      if i == nextChar {
        nextChar := nextChar + 1;
        return [input[i]];
      }

      literal := builder;
      builder := [];
      nextChar := i;
    }

    /**
     * `ReadWhiteSpace`: the run of white space at the cursor, cut where it passes from
     * newline characters to other white space or back.
     */
    method ReadWhiteSpace() returns (result: string)
      requires Valid() && nextChar < |input| && IsWhiteSpace(input[nextChar])
      modifies this`nextChar
      ensures var e := WhiteSpaceRunEnd(input, old(nextChar) + 1, IsNewLine(input[old(nextChar)]));
        nextChar == e && result == input[old(nextChar)..e]
      ensures Valid()
    {
      var wasPreviousWhiteSpaceNewLine: Option<bool> := None;
      var i := nextChar;
      while i != |input|
        invariant nextChar == old(nextChar) && nextChar <= i <= |input|
        invariant i == nextChar <==> wasPreviousWhiteSpaceNewLine == None
        invariant i > nextChar ==>
          wasPreviousWhiteSpaceNewLine == Some(IsNewLine(input[nextChar])) &&
          WhiteSpaceRunEnd(input, i, IsNewLine(input[nextChar])) == WhiteSpaceRunEnd(input, nextChar + 1, IsNewLine(input[nextChar]))
        decreases |input| - i
      {
        var isNewLine := IsNewLine(input[i]);
        if !IsWhiteSpace(input[i]) || (wasPreviousWhiteSpaceNewLine.Some? && isNewLine != wasPreviousWhiteSpaceNewLine.value) {
          result := input[nextChar..i];
          nextChar := i;
          return;
        }
        wasPreviousWhiteSpaceNewLine := Some(isNewLine);
        i := i + 1;
      }
      result := input[nextChar..];
      nextChar := |input|;
    }

    /**
     * `ReadUntilEndOfLine`: move the cursor to the first character after the comment's
     * line break (a run of newline characters), or to the end of the input.
     */
    method ReadUntilEndOfLine()
      requires Valid()
      modifies this`nextChar
      ensures nextChar == CommentEnd(input, old(nextChar), false)
      ensures Valid()
    {
      var inNewLineSequence := false;
      var i := nextChar;
      while i != |input|
        invariant nextChar == old(nextChar) && nextChar <= i <= |input|
        invariant CommentEnd(input, i, inNewLineSequence) == CommentEnd(input, nextChar, false)
        decreases |input| - i
      {
        var c := input[i];
        if IsNewLine(c) {
          inNewLineSequence := true;
        } else if inNewLineSequence {
          nextChar := i;
          return;
        }
        i := i + 1;
      }
      nextChar := |input|;
    }
  }
}
