/**
 * A concrete token stream of the scanner: the text `"a\""`, a quoted literal holding an escaped
 * quote, scans to the literal `a"` and EOF.
 */
module ScannerExamples {
  import opened Wrappers
  import opened ScannerSpec

  /** The five characters `"`, `a`, `\`, `"`, `"`. */
  const EscapedQuote := "\"a\\\"\""

  /** The literal loop toggles the quote, keeps `a`, takes the escaped quote verbatim and closes the quote. */
  lemma EscapedQuoteRead()
    ensures ReadLiteral(EscapedQuote, 0, false, 0, true) == LiteralRead("a\"", 5, false)
  {
    var input := EscapedQuote;
    assert ActionAt(input, 0, 0, false, 0, true) == Quote;
    assert ActionAt(input, 0, 1, true, 0, true) == Keep;
    assert ActionAt(input, 0, 2, true, 0, true) == Escape;
    assert ActionAt(input, 0, 4, true, 0, true) == Quote;
    calc {
      ReadLiteralFrom(input, 0, 0, false, 0, true, []);
      ReadLiteralFrom(input, 0, 1, true, 0, true, []);
      ReadLiteralFrom(input, 0, 2, true, 0, true, "a");
      ReadLiteralFrom(input, 0, 4, true, 0, true, "a\"");
      ReadLiteralFrom(input, 0, 5, false, 0, true, "a\"");
      LiteralRead("a\"", 5, false);
    }
  }

  /** An escaped quote inside quotes is kept, and the closing quote ends the literal. */
  lemma EscapedEndQuote()
    ensures Scan(EscapedQuote) == Ok([Token(Literal, "a\""), Token(EOF, "")])
  {
    var input := EscapedQuote;
    EscapedQuoteRead();
    assert BranchAt(input, Start) == Word;
    assert NextToken(input, Start) == Ok(Step(Token(Literal, "a\""), State(5, false, false, 0)));
    assert ScanFrom(input, State(5, false, false, 0)) == Ok(Scanned([Token(EOF, "")], State(5, false, false, 0)));
    assert [Token(Literal, "a\"")] + [Token(EOF, "")] == [Token(Literal, "a\""), Token(EOF, "")];
  }
}
