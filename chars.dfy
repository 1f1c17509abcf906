/**
 * Character classification used by the scanner and by the parser's cursor.
 * The system relies on .NET's `char.IsWhiteSpace` and `char.IsLetter`; here they are
 * defined over the ASCII range, and every property of the model is stated in terms of
 * these predicates rather than of their definitions.
 */
module Chars {

  /** `char.IsWhiteSpace`, restricted to the ASCII white-space characters. */
  predicate IsWhiteSpace(c: char) {
    c == ' ' || c == '\t' || c == '\n' || c == '\r' || c == '\U{0B}' || c == '\U{0C}'
  }

  /** `char.IsLetter`, restricted to the ASCII letters. */
  predicate IsLetter(c: char) {
    ('a' <= c <= 'z') || ('A' <= c <= 'Z')
  }

  /** `Scanner.IsNewLineCharacter`: membership in the table `'\n', 0x0d, 0x0a`. */
  predicate IsNewLine(c: char)
    ensures IsNewLine(c) ==> IsWhiteSpace(c)
  {
    c == '\n' || c == '\r'
  }

  /** `string.Trim()`: the text without its leading and trailing white space. */
  function Trim(s: string): (r: string)
    ensures |r| <= |s|
    ensures r != [] ==> !IsWhiteSpace(r[0]) && !IsWhiteSpace(r[|r| - 1])
    ensures (forall i :: 0 <= i < |s| ==> IsWhiteSpace(s[i])) <==> r == []
    // `TrimStart(s)` is `s` after its leading white space; what follows `r` in it is white space.
    ensures |r| <= |TrimStart(s)| && r == TrimStart(s)[..|r|]
    ensures forall k | |r| <= k < |TrimStart(s)| :: IsWhiteSpace(TrimStart(s)[k])
  {
    TrimEnd(TrimStart(s))
  }

  /** `string.TrimStart()`: the text without its leading white space. */
  function TrimStart(s: string): (r: string)
    ensures |r| <= |s| && r == s[|s| - |r|..]
    ensures forall k | 0 <= k < |s| - |r| :: IsWhiteSpace(s[k])
    ensures r != [] ==> !IsWhiteSpace(r[0])
  {
    if s != [] && IsWhiteSpace(s[0]) then TrimStart(s[1..]) else s
  }

  /** `string.TrimEnd()`: the text without its trailing white space. */
  function TrimEnd(s: string): (r: string)
    ensures |r| <= |s| && r == s[..|r|]
    ensures forall k | |r| <= k < |s| :: IsWhiteSpace(s[k])
    ensures r != [] ==> !IsWhiteSpace(r[|r| - 1])
    ensures s != [] && !IsWhiteSpace(s[0]) ==> r != [] && r[0] == s[0]
  {
    if s != [] && IsWhiteSpace(s[|s| - 1]) then TrimEnd(s[..|s| - 1]) else s
  }
}
