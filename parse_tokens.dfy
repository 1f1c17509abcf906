/**
 * The tokens the parser reads and `ScanResult`, the cursor over them. The parser belongs to
 * a generation of the scanner whose token kinds include `VariableDereferencer` (`$`) and
 * `ParenthesisOpen` (`(`) as separate kinds, so it gets a kind datatype of its own.
 * `ScanResult` is not part of the repository's files shown here; its operations are stated
 * below as the parser's use of them implies.
 */
module ParserTokens {
  import opened Wrappers

  datatype Kind =
    | Literal | Terminator | WhiteSpace | BracketClose | Colon | BracketOpen
    | VariableDereferencer | ParenthesisOpen | ParenthesisClose | Assignment
    | AccoladeOpen | AccoladeClose | If | Rule | VariableExpansionModifier | Return
    | AppendOperator | Actions | On | EOF | Not | Else | While | SubtractOperator | For | In
    | Continue | Break | Switch | Case | Local | AssignmentIfEmpty | And | Or | NotEqual
    | Include | GreaterThan | LessThan

  datatype Token = Token(kind: Kind, literal: string)

  /** Why parsing stops: the exceptions the parser throws, and the loops that never end. */
  datatype ParseError =
    | UnexpectedToken(got: Kind)               // `ParseStatement` on a kind it has no case for
    | ExpectedToken(expected: Kind, got: Kind) // `ScanToken.Is` and the parser's explicit checks
    | NotAnAssignment(got: Kind)               // `ParseLeftSideOfAssignment` without an operator
    | NegatedComparison                        // `!` together with an operator in a condition
    | UnsupportedOperator(got: Kind)           // `OperatorFor` on a kind it does not map
    | NotALiteral                              // a cast to `LiteralExpression` that fails
    | NotABlock                                // the cast of a rule body to `BlockStatement`
    | EmptyHeader                              // `Last()` of an empty actions header
    | EmptyModifier                            // `literal[0]` of an empty modifier token
    | Diverges                                 // the source repeats one iteration forever

  /** `ScanToken.Is`: the token itself when it has the expected kind, an exception otherwise. */
  function Is(t: Token, expected: Kind): (r: Result<Token, ParseError>)
    ensures r.Ok? <==> t.kind == expected
    ensures r.Ok? ==> r.value == t
    ensures r.Err? ==> r.error == ExpectedToken(expected, t.kind)
  {
    if t.kind != expected then Err(ExpectedToken(expected, t.kind)) else Ok(t)
  }

  const EndOfTokens := Token(EOF, "")

  /** The token at an index, and the EOF token past the end. */
  function TokenAt(ts: seq<Token>, i: nat): Token {
    if i < |ts| then ts[i] else EndOfTokens
  }

  /** The first index at or after `i` that does not hold a white-space token. */
  function SkipWhiteSpace(ts: seq<Token>, i: nat): (j: nat)
    requires i <= |ts|
    ensures i <= j <= |ts|
    ensures forall k :: i <= k < j ==> ts[k].kind == WhiteSpace
    ensures j < |ts| ==> ts[j].kind != WhiteSpace
    decreases |ts| - i
  {
    if i < |ts| && ts[i].kind == WhiteSpace then SkipWhiteSpace(ts, i + 1) else i
  }

  /** `Peek(skipWhiteSpace)`: the next token, white space skipped or not; the cursor stays. */
  function PeekAt(ts: seq<Token>, i: nat, skipWhiteSpace: bool): Token
    requires i <= |ts|
  {
    TokenAt(ts, if skipWhiteSpace then SkipWhiteSpace(ts, i) else i)
  }

  /**
   * `Next()`: the token `Peek()` shows, and the cursor just after it. At the end of the
   * tokens it yields EOF and the cursor stays at the end.
   */
  function NextAt(ts: seq<Token>, i: nat): (r: (Token, nat))
    requires i <= |ts|
    ensures r.0 == PeekAt(ts, i, true)
    ensures i <= r.1 <= |ts|
    ensures r.1 == i ==> i == |ts| && r.0 == EndOfTokens
    ensures r.0.kind != EOF ==> i < r.1 && ts[r.1 - 1] == r.0
  {
    var j := SkipWhiteSpace(ts, i);
    if j == |ts| then (EndOfTokens, j) else (ts[j], j + 1)
  }

  predicate HasNewLine(s: string) {
    exists k | 0 <= k < |s| :: s[k] == '\n' || s[k] == '\r'
  }

  /**
   * `ProduceStringUntilEndOfLine()`: the literals of the tokens up to the next white-space
   * token that holds a newline, which is consumed as well. At the end of the tokens it yields
   * the empty string and the cursor stays.
   */
  function ProduceLine(ts: seq<Token>, i: nat): (r: (string, nat))
    requires i <= |ts|
    ensures i <= r.1 <= |ts|
    ensures r.1 == i <==> i == |ts|
    ensures i == |ts| ==> r.0 == ""
    decreases |ts| - i
  {
    if i == |ts| then ("", i)
    else if ts[i].kind == WhiteSpace && HasNewLine(ts[i].literal) then ("", i + 1)
    else
      var rest := ProduceLine(ts, i + 1);
      (ts[i].literal + rest.0, rest.1)
  }

  /** A token sequence and a cursor into it. */
  class ScanResult {
    const tokens: seq<Token>
    var cursor: nat

    ghost predicate Valid()
      reads this
    {
      cursor <= |tokens|
    }

    constructor (tokens: seq<Token>)
      ensures this.tokens == tokens && cursor == 0 && Valid()
    {
      this.tokens := tokens;
      cursor := 0;
    }

    method Peek(skipWhiteSpace: bool := true) returns (t: Token)
      requires Valid()
      ensures t == PeekAt(tokens, cursor, skipWhiteSpace)
    {
      t := PeekAt(tokens, cursor, skipWhiteSpace);
    }

    method Next() returns (t: Token)
      requires Valid()
      modifies this
      ensures (t, cursor) == NextAt(tokens, old(cursor)) && Valid()
    {
      var r := NextAt(tokens, cursor);
      t := r.0;
      cursor := r.1;
    }

    method GetCursor() returns (c: nat)
      ensures c == cursor
    {
      c := cursor;
    }

    method SetCursor(c: nat)
      requires c <= |tokens|
      modifies this
      ensures cursor == c && Valid()
    {
      cursor := c;
    }

    method ProduceStringUntilEndOfLine() returns (line: string)
      requires Valid()
      modifies this
      ensures (line, cursor) == ProduceLine(tokens, old(cursor)) && Valid()
    {
      var r := ProduceLine(tokens, cursor);
      line := r.0;
      cursor := r.1;
    }
  }
}
