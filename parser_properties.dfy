/**
 * What the parser of Parser.cs promises, stated on the functions of `ParserSpec` (which the
 * methods of `JamParser.Parser` are proved to agree with).
 */
module ParserProperties {
  import opened Wrappers
  import opened Chars
  import opened ParserTokens
  import opened JamAst
  import opened ParserSpec

  // ---------------------------------------------------------------------------
  // Dispatch

  /** `ParseStatement` returns null, consuming nothing, exactly on EOF, `case` and `}`. */
  lemma StatementNullIff(ts: seq<Token>, pos: nat)
    requires pos <= |ts|
    ensures ParseStatement(ts, pos) == Ok(Parsed(None, pos)) <==> PeekAt(ts, pos, true).kind in StatementEnd
  {
  }

  /** A kind `ParseStatement` has no case for is an exception naming that kind. */
  lemma UnlistedStatementKindThrows(ts: seq<Token>, pos: nat)
    requires pos <= |ts|
    requires PeekAt(ts, pos, true).kind !in StatementStart
    ensures ParseStatement(ts, pos) == Err(UnexpectedToken(PeekAt(ts, pos, true).kind))
  {
  }

  /** `ParseExpression` returns null, consuming nothing, exactly on the kinds that end an expression. */
  lemma ExpressionNullIff(ts: seq<Token>, pos: nat)
    requires pos <= |ts|
    ensures ParseExpression(ts, pos) == Ok(Parsed(None, pos)) <==> PeekAt(ts, pos, true).kind in ExpressionEnd
  {
  }

  // ---------------------------------------------------------------------------
  // Telling assignments from invocations

  /**
   * The lookahead and the left side agree: when `IsNextTokenAssignment` says no,
   * `ParseLeftSideOfAssignment` would throw; when it says yes, the left side is the expression
   * the lookahead parsed (parsing again from the restored cursor), with the targets of `on`
   * attached.
   */
  lemma LeftSideFollowsLookahead(ts: seq<Token>, pos: nat)
    requires pos <= |ts|
    requires IsNextTokenAssignment(ts, pos).Ok?
    ensures var first := ParseExpression(ts, pos).value;
            var (next, p1) := NextAt(ts, first.pos);
            && (IsNextTokenAssignment(ts, pos) == Ok(false) ==>
                  ParseLeftSideOfAssignment(ts, pos) == Err(NotAnAssignment(next.kind)))
            && (IsNextTokenAssignment(ts, pos) == Ok(true) && next.kind != On ==>
                  ParseLeftSideOfAssignment(ts, pos) == Ok(first))
            && (IsNextTokenAssignment(ts, pos) == Ok(true) && next.kind == On ==>
                  (ParseLeftSideOfAssignment(ts, pos).Ok? <==> ParseExpressionList(ts, p1).Ok?))
  {
  }

  /** A statement that starts with an expression is an assignment exactly when the lookahead says so. */
  lemma AssignmentIffLookahead(ts: seq<Token>, pos: nat)
    requires pos <= |ts|
    requires ParseAssignmentOrExpressionStatement(ts, pos).Ok?
    ensures ParseAssignmentOrExpressionStatement(ts, pos).value.value.AssignmentStatement? <==>
            IsNextTokenAssignment(ts, pos) == Ok(true)
    ensures ParseAssignmentOrExpressionStatement(ts, pos).value.value.ExpressionStatement? <==>
            IsNextTokenAssignment(ts, pos) == Ok(false)
  {
  }

  // ---------------------------------------------------------------------------
  // Combining adjacent expressions

  /** A token that does not touch the expression (white space between them) leaves it alone. */
  lemma CombineNeedsAdjacency(ts: seq<Token>, pos: nat, first: Expression)
    requires pos <= |ts|
    requires PeekAt(ts, pos, false).kind !in {Literal, VariableDereferencer}
    ensures ScanForCombineExpression(ts, pos, first) == Ok(Parsed(first, pos))
  {
  }

  /**
   * A literal or `$` touching the expression makes a combination of at least two elements,
   * the expression first; a combination parsed after it is spliced in.
   */
  lemma CombineOfAdjacent(ts: seq<Token>, pos: nat, first: Expression)
    requires pos <= |ts|
    requires PeekAt(ts, pos, false).kind in {Literal, VariableDereferencer}
    requires ScanForCombineExpression(ts, pos, first).Ok?
    ensures var e := ScanForCombineExpression(ts, pos, first).value.value;
            var tail := ParseExpression(ts, pos).value.value;
            && e.CombineExpression? && |e.elements| >= 2 && e.elements[0] == first
            && tail.Some?
            && (tail.value.CombineExpression? ==> e.elements == [first] + tail.value.elements)
  {
    assert SkipWhiteSpace(ts, pos) == pos;
    assert PeekAt(ts, pos, true) == PeekAt(ts, pos, false);
    var tail := ParseExpression(ts, pos).value.value;
    assert tail.Some?;
    ExpressionIsFlat(ts, pos);
  }

  /** A combination has at least two elements, none of them a combination. */
  ghost predicate Flat(e: Expression) {
    e.CombineExpression? ==>
      |e.elements| >= 2 && forall i | 0 <= i < |e.elements| :: !e.elements[i].CombineExpression?
  }

  /** Every expression `ParseExpression` builds is a literal, or a flat combination. */
  lemma {:induction false} ExpressionIsFlat(ts: seq<Token>, pos: nat)
    requires pos <= |ts|
    requires ParseExpression(ts, pos).Ok? && ParseExpression(ts, pos).value.value.Some?
    ensures Flat(ParseExpression(ts, pos).value.value.value)
    decreases |ts| - pos, 2
  {
    var kind := PeekAt(ts, pos, true).kind;
    if kind == VariableDereferencer {
      DereferenceIsFlat(ts, pos);
    } else if kind != BracketOpen {
      var (t, p1) := NextAt(ts, pos);
      CombineIsFlat(ts, p1, LiteralExpression(t.literal));
    }
  }

  lemma {:induction false} DereferenceIsFlat(ts: seq<Token>, pos: nat)
    requires pos <= |ts|
    requires ParseVariableDereferenceExpression(ts, pos).Ok?
    ensures Flat(ParseVariableDereferenceExpression(ts, pos).value.value)
    decreases |ts| - pos, 1
  {
    var (_, p1) := NextAt(ts, pos);
    var (_, p2) := NextAt(ts, p1);
    var variable := ParseExpression(ts, p2).value;
    var (next, p3) := NextAt(ts, variable.pos);
    var indexed := ParseIndexer(ts, next, p3).value;
    var modifiers := if indexed.value.1.kind == Colon then ParseModifiers(ts, indexed.pos, []).value
                     else Parsed([], indexed.pos);
    CombineIsFlat(ts, modifiers.pos, VariableDereferenceExpression(variable.value, indexed.value.0, modifiers.value));
  }

  lemma {:induction false} CombineIsFlat(ts: seq<Token>, pos: nat, first: Expression)
    requires pos <= |ts|
    requires !first.CombineExpression?
    requires ScanForCombineExpression(ts, pos, first).Ok?
    ensures Flat(ScanForCombineExpression(ts, pos, first).value.value)
    decreases |ts| - pos, 3
  {
    var peek := PeekAt(ts, pos, false);
    if peek.kind == Literal || peek.kind == VariableDereferencer {
      ExpressionIsFlat(ts, pos);
    }
  }

  // ---------------------------------------------------------------------------
  // Lists

  /** `ParseExpressionList` stops on a kind that ends an expression, which it does not consume. */
  lemma ExpressionListStops(ts: seq<Token>, pos: nat)
    requires pos <= |ts|
    requires ParseExpressionList(ts, pos).Ok?
    ensures PeekAt(ts, ParseExpressionList(ts, pos).value.pos, true).kind in ExpressionEnd
  {
    ExpressionsStop(ts, pos, []);
  }

  lemma {:induction false} ExpressionsStop(ts: seq<Token>, pos: nat, acc: seq<Expression>)
    requires pos <= |ts|
    requires ExpressionsUntilNull(ts, pos, acc).Ok?
    ensures PeekAt(ts, ExpressionsUntilNull(ts, pos, acc).value.pos, true).kind in ExpressionEnd
    ensures |ExpressionsUntilNull(ts, pos, acc).value.value| >= |acc|
    ensures ExpressionsUntilNull(ts, pos, acc).value.value[..|acc|] == acc
    decreases |ts| - pos
  {
    var e := ParseExpression(ts, pos).value;
    if e.value.Some? {
      ExpressionsStop(ts, e.pos, acc + [e.value.value]);
    }
  }

  /**
   * Expression lists separated by `:`: each list is what `ParseExpressionList` reads, a `:`
   * follows every list but the last, and none follows the last, which ends at `end`. So there is
   * one list more than there are separating colons.
   */
  ghost predicate ColonSeparated(ts: seq<Token>, pos: nat, lists: seq<seq<Expression>>, end: nat)
    requires pos <= |ts|
    decreases |lists|
  {
    && |lists| >= 1
    && var list := ParseExpressionList(ts, pos);
    && list.Ok? && list.value.value == lists[0]
    && if |lists| == 1 then
         end == list.value.pos && PeekAt(ts, end, true).kind != Colon
       else
         PeekAt(ts, list.value.pos, true).kind == Colon
         && ColonSeparated(ts, NextAt(ts, list.value.pos).1, lists[1..], end)
  }

  /** `ParseArgumentList` reads at least one list, and exactly the colon-separated lists. */
  lemma ArgumentListIsColonSeparated(ts: seq<Token>, pos: nat)
    requires pos <= |ts|
    requires ParseArgumentList(ts, pos).Ok?
    ensures |ParseArgumentList(ts, pos).value.value| >= 1
    ensures ColonSeparated(ts, pos, ParseArgumentList(ts, pos).value.value, ParseArgumentList(ts, pos).value.pos)
  {
    ArgumentListsAreColonSeparated(ts, pos, []);
  }

  lemma {:induction false} ArgumentListsAreColonSeparated(ts: seq<Token>, pos: nat, acc: seq<seq<Expression>>)
    requires pos <= |ts|
    requires ArgumentListsFrom(ts, pos, acc).Ok?
    ensures var r := ArgumentListsFrom(ts, pos, acc).value;
            |r.value| > |acc| && r.value[..|acc|] == acc && ColonSeparated(ts, pos, r.value[|acc|..], r.pos)
    decreases |ts| - pos
  {
    var list := ParseExpressionList(ts, pos).value;
    var r := ArgumentListsFrom(ts, pos, acc).value;
    if PeekAt(ts, list.pos, true).kind == Colon {
      var p := NextAt(ts, list.pos).1;
      ArgumentListsAreColonSeparated(ts, p, acc + [list.value]);
      assert r.value[|acc|..][1..] == r.value[|acc| + 1..];
    } else {
      assert r.value[|acc|..] == [list.value];
    }
  }

  /** `Flatten` keeps the lists in order: flattening a concatenation concatenates. */
  lemma {:induction false} FlattenConcat(a: seq<seq<Expression>>, b: seq<seq<Expression>>)
    ensures Flatten(a + b) == Flatten(a) + Flatten(b)
    decreases |a|
  {
    if a == [] {
      assert a + b == b;
    } else {
      assert (a + b)[0] == a[0];
      assert (a + b)[1..] == a[1..] + b;
      FlattenConcat(a[1..], b);
      assert Flatten(a + b) == a[0] + (Flatten(a[1..]) + Flatten(b));
    }
  }

  /** `LiteralValues` succeeds exactly on literals, and yields their values in order. */
  lemma {:induction false} LiteralValuesOfLiterals(es: seq<Expression>)
    ensures LiteralValues(es).Ok? <==> forall i | 0 <= i < |es| :: es[i].LiteralExpression?
    ensures LiteralValues(es).Ok? ==>
              |LiteralValues(es).value| == |es| &&
              forall i | 0 <= i < |es| :: es[i] == LiteralExpression(LiteralValues(es).value[i])
    ensures LiteralValues(es).Err? ==> LiteralValues(es).error == NotALiteral
    decreases |es|
  {
    if es != [] {
      LiteralValuesOfLiterals(es[1..]);
      if LiteralValues(es).Ok? {
        var vs := LiteralValues(es).value;
        forall i | 0 <= i < |es| ensures es[i] == LiteralExpression(vs[i]) {
          if i > 0 {
            assert es[i] == es[1..][i - 1];
          }
        }
      } else if !es[0].LiteralExpression? {
      } else {
        assert forall i | 0 <= i < |es| - 1 :: es[1..][i] == es[i + 1];
      }
    }
  }

  // ---------------------------------------------------------------------------
  // Declarations

  /**
   * A rule's arguments are the literal values of all its argument lists, in order; a non-literal
   * argument is an exception.
   */
  lemma RuleArgumentsAreLiteralValues(ts: seq<Token>, pos: nat)
    requires pos <= |ts|
    requires ParseRuleDeclarationStatement(ts, pos).Ok?
    ensures var ruleName := ParseExpression(ts, NextAt(ts, pos).1).value;
            var lists := ParseArgumentList(ts, ruleName.pos).value.value;
            var arguments := ParseRuleDeclarationStatement(ts, pos).value.value.arguments;
            && |arguments| == |Flatten(lists)|
            && forall i | 0 <= i < |arguments| :: Flatten(lists)[i] == LiteralExpression(arguments[i])
  {
    var ruleName := ParseExpression(ts, NextAt(ts, pos).1).value;
    var lists := ParseArgumentList(ts, ruleName.pos).value.value;
    LiteralValuesOfLiterals(Flatten(lists));
  }

  /**
   * The raw lines of an actions body: the line `ProduceLine` gives at each step, none of them
   * `}` once trimmed, up to the first line that is; `end` is the cursor after that line.
   */
  ghost predicate LinesUntilClose(ts: seq<Token>, pos: nat, lines: seq<string>, end: nat)
    requires pos <= |ts|
    decreases |lines|
  {
    var (line, p) := ProduceLine(ts, pos);
    if lines == [] then Trim(line) == "}" && end == p
    else line == lines[0] && Trim(line) != "}" && LinesUntilClose(ts, p, lines[1..], end)
  }

  lemma {:induction false} ActionLinesUntilClose(ts: seq<Token>, pos: nat, acc: seq<string>)
    requires pos <= |ts|
    requires ActionLines(ts, pos, acc).Ok?
    ensures var r := ActionLines(ts, pos, acc).value;
            |r.value| >= |acc| && r.value[..|acc|] == acc && LinesUntilClose(ts, pos, r.value[|acc|..], r.pos)
    decreases |ts| - pos
  {
    var (line, p) := ProduceLine(ts, pos);
    var r := ActionLines(ts, pos, acc).value;
    if Trim(line) == "}" {
      assert r.value[|acc|..] == [];
    } else {
      assert p != pos && r == ActionLines(ts, p, acc + [line]).value;
      ActionLinesUntilClose(ts, p, acc + [line]);
      PrefixStep(r.value, acc, line);
    }
  }

  lemma PrefixStep<T>(s: seq<T>, acc: seq<T>, x: T)
    requires |s| >= |acc| + 1 && s[..|acc| + 1] == acc + [x]
    ensures s[..|acc|] == acc && s[|acc|..] != [] && s[|acc|..][0] == x && s[|acc|..][1..] == s[|acc| + 1..]
  {
    assert s[..|acc|] == s[..|acc| + 1][..|acc|];
  }

  /**
   * An actions declaration: its name is the last header expression and its modifiers the ones
   * before it, in order; its body is the raw lines up to, not including, the first `}` line.
   */
  lemma ActionsDeclarationShape(ts: seq<Token>, pos: nat)
    requires pos <= |ts|
    requires ParseActionsDeclarationStatement(ts, pos).Ok?
    ensures var header := ParseExpressionList(ts, NextAt(ts, pos).1).value;
            var p3 := ProduceLine(ts, NextAt(ts, header.pos).1).1;
            var r := ParseActionsDeclarationStatement(ts, pos).value;
            && header.value == r.value.modifiers + [LiteralExpression(r.value.name)]
            && LinesUntilClose(ts, p3, r.value.actions, r.pos)
  {
    var header := ParseExpressionList(ts, NextAt(ts, pos).1).value;
    var p3 := ProduceLine(ts, NextAt(ts, header.pos).1).1;
    var body := ActionLines(ts, p3, []).value;
    ActionLinesUntilClose(ts, p3, []);
    assert body.value[0..] == body.value;
    LastSplit(header.value);
  }

  lemma LastSplit<T>(s: seq<T>)
    requires s != []
    ensures s == s[..|s| - 1] + [s[|s| - 1]]
  {
  }

  /** A block ends by consuming its `}`. */
  lemma BlockEndsWithClose(ts: seq<Token>, pos: nat)
    requires pos <= |ts|
    requires ParseBlockStatement(ts, pos).Ok?
    ensures var end := ParseBlockStatement(ts, pos).value.pos;
            0 < end && ts[end - 1].kind == AccoladeClose
  {
    var p1 := NextAt(ts, pos).1;
    assert ParseBlockStatement(ts, pos) == StatementsUntilClose(ts, p1, []);
    StatementsEndWithClose(ts, p1, []);
  }

  lemma {:induction false} StatementsEndWithClose(ts: seq<Token>, pos: nat, acc: seq<Statement>)
    requires pos <= |ts|
    requires StatementsUntilClose(ts, pos, acc).Ok?
    ensures var end := StatementsUntilClose(ts, pos, acc).value.pos;
            0 < end && ts[end - 1].kind == AccoladeClose
    decreases |ts| - pos
  {
    if PeekAt(ts, pos, true).kind == AccoladeClose {
      CloseEndsStatements(ts, pos, acc);
    } else {
      StatementStep(ts, pos, acc);
      var s := ParseStatement(ts, pos).value;
      StatementsEndWithClose(ts, s.pos, acc + [s.value.value]);
    }
  }

  lemma CloseEndsStatements(ts: seq<Token>, pos: nat, acc: seq<Statement>)
    requires pos <= |ts| && PeekAt(ts, pos, true).kind == AccoladeClose
    ensures var end := StatementsUntilClose(ts, pos, acc).value.pos;
            0 < end && ts[end - 1].kind == AccoladeClose
  {
  }

  /** Before the `}`, the statement loop goes on with the next statement. */
  lemma StatementStep(ts: seq<Token>, pos: nat, acc: seq<Statement>)
    requires pos <= |ts| && PeekAt(ts, pos, true).kind != AccoladeClose
    requires StatementsUntilClose(ts, pos, acc).Ok?
    ensures var s := ParseStatement(ts, pos);
            && s.Ok? && s.value.value.Some?
            && StatementsUntilClose(ts, pos, acc) == StatementsUntilClose(ts, s.value.pos, acc + [s.value.value.value])
  {
  }

  /** A block that reaches the end of the tokens never ends in the source. */
  lemma UnterminatedBlockDiverges(ts: seq<Token>, acc: seq<Statement>)
    ensures StatementsUntilClose(ts, |ts|, acc) == Err(Diverges)
  {
  }

  // ---------------------------------------------------------------------------
  // Conditions and operators

  /**
   * A condition has an operator exactly when the token after its left expression is neither
   * `{` nor EOF; the operator and the right-hand list come together, and never with `!`.
   */
  lemma ConditionOperatorPresence(ts: seq<Token>, pos: nat)
    requires pos <= |ts|
    requires ParseCondition(ts, pos).Ok?
    ensures var negated := PeekAt(ts, pos, true).kind == Not;
            var left := ParseExpression(ts, if negated then NextAt(ts, pos).1 else pos).value;
            var c := ParseCondition(ts, pos).value.value;
            && c.negated == negated
            && (c.operator.None? <==> PeekAt(ts, left.pos, true).kind in {AccoladeOpen, EOF})
            && (c.operator.Some? <==> c.right.Some?)
            && (c.operator.Some? ==> !c.negated && OperatorFor(PeekAt(ts, left.pos, true).kind) == Ok(c.operator.value))
  {
  }

  /** `!` in front of a comparison is an exception. */
  lemma NegatedComparisonThrows(ts: seq<Token>, pos: nat)
    requires pos <= |ts|
    requires PeekAt(ts, pos, true).kind == Not
    requires ParseExpression(ts, NextAt(ts, pos).1).Ok?
    requires PeekAt(ts, ParseExpression(ts, NextAt(ts, pos).1).value.pos, true).kind !in {AccoladeOpen, EOF}
    ensures ParseCondition(ts, pos) == Err(NegatedComparison)
  {
  }

  /** The token kind that spells each operator. */
  function KindOf(op: Operator): (k: Kind)
    ensures k in OperatorKinds
  {
    match op
    case Append => AppendOperator
    case Assignment => Kind.Assignment
    case Subtract => SubtractOperator
    case In => Kind.In
    case AssignmentIfEmpty => Kind.AssignmentIfEmpty
    case And => Kind.And
    case Or => Kind.Or
    case NotEqual => Kind.NotEqual
  }

  /** `OperatorFor` maps exactly the eight operator kinds, one to one, onto the operators. */
  lemma OperatorForMapsOperatorKinds(k: Kind)
    ensures OperatorFor(k).Ok? <==> k in OperatorKinds
    ensures OperatorFor(k).Ok? ==> KindOf(OperatorFor(k).value) == k
  {
  }

  lemma OperatorForInvertsKindOf(op: Operator)
    ensures OperatorFor(KindOf(op)) == Ok(op)
  {
  }
}
