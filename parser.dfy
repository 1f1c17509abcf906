/**
 * The parser of Parser.cs as an object over a shared `ScanResult`: every method advances the
 * cursor as the source does, and is proved to return what the functional specification in
 * `ParserSpec` returns and to leave the cursor where the specification says.
 */
module JamParser {
  import opened Wrappers
  import opened Chars
  import opened ParserTokens
  import opened JamAst
  import Spec = ParserSpec

  /** A method's result and final cursor are the specification's. */
  ghost predicate Agrees<T>(r: Result<T, ParseError>, spec: Result<Spec.Parsed<T>, ParseError>, cursor: nat) {
    match spec
    case Ok(p) => r == Ok(p.value) && cursor == p.pos
    case Err(e) => r == Err(e)
  }

  class Parser {
    const scanResult: ScanResult

    ghost predicate Valid()
      reads this, scanResult
    {
      scanResult.Valid()
    }

    ghost function Tokens(): seq<Token> {
      scanResult.tokens
    }

    ghost function Cursor(): nat
      reads scanResult
    {
      scanResult.cursor
    }

    /**
     * The source scans its input here into a new scan result; this parser is given the scanned
     * tokens and starts at the first of them.
     */
    constructor (tokens: seq<Token>)
      ensures fresh(scanResult) && Tokens() == tokens && Cursor() == 0 && Valid()
    {
      scanResult := new ScanResult(tokens);
    }

    method ParseExpressionList() returns (r: Result<seq<Expression>, ParseError>)
      requires Valid()
      modifies scanResult
      ensures Valid() && Agrees(r, Spec.ParseExpressionList(Tokens(), old(Cursor())), Cursor())
      decreases |Tokens()| - Cursor(), 5
    {
      var expressions: seq<Expression> := [];
      while true
        invariant Valid() && old(Cursor()) <= Cursor()
        invariant Spec.ExpressionsUntilNull(Tokens(), old(Cursor()), []) ==
                  Spec.ExpressionsUntilNull(Tokens(), Cursor(), expressions)
        decreases |Tokens()| - Cursor()
      {
        var expression :- ParseExpression();
        if expression.None? {
          break;
        }
        expressions := expressions + [expression.value];
      }
      return Ok(expressions);
    }

    method ParseStatement() returns (r: Result<Option<Statement>, ParseError>)
      requires Valid()
      modifies scanResult
      ensures Valid() && Agrees(r, Spec.ParseStatement(Tokens(), old(Cursor())), Cursor())
      decreases |Tokens()| - Cursor(), 11
    {
      var scanToken := scanResult.Peek();
      match scanToken.kind
      case EOF | Case | AccoladeClose =>
        return Ok(None);
      case If =>
        var s :- ParseIfStatement();
        return Ok(Some(s));
      case AccoladeOpen =>
        var block :- ParseBlockStatement();
        return Ok(Some(BlockStatement(block)));
      case Rule =>
        var s :- ParseRuleDeclarationStatement();
        return Ok(Some(s));
      case Actions =>
        var s :- ParseActionsDeclarationStatement();
        return Ok(Some(s));
      case Return =>
        var s :- ParseReturnStatement();
        return Ok(Some(s));
      case Literal | VariableDereferencer =>
        var s :- ParseAssignmentOrExpressionStatement();
        return Ok(Some(s));
      case On =>
        var s :- ParseOnStatement();
        return Ok(Some(s));
      case While =>
        var s :- ParseWhileStatement();
        return Ok(Some(s));
      case For =>
        var s :- ParseForStatement();
        return Ok(Some(s));
      case Break =>
        var _ := scanResult.Next();
        var t := scanResult.Next();
        var _ :- Is(t, Terminator);
        return Ok(Some(BreakStatement));
      case Continue =>
        var _ := scanResult.Next();
        var t := scanResult.Next();
        var _ :- Is(t, Terminator);
        return Ok(Some(ContinueStatement));
      case Switch =>
        var s :- ParseSwitchStatement();
        return Ok(Some(s));
      case Local =>
        var s :- ParseLocalStatement();
        return Ok(Some(s));
      case _ =>
        return Err(UnexpectedToken(scanToken.kind));
    }

    method ParseLocalStatement() returns (r: Result<Statement, ParseError>)
      requires Valid()
      modifies scanResult
      ensures Valid() && Agrees(r, Spec.ParseLocalStatement(Tokens(), old(Cursor())), Cursor())
      decreases |Tokens()| - Cursor(), 10
    {
      var t := scanResult.Next();
      var _ :- Is(t, Local);
      var expression :- ParseExpression();
      var literalExpression :- Spec.AsLiteral(expression);
      var next := scanResult.Next();
      var value: seq<Expression> := [];
      if next.kind != Terminator {
        var _ :- Is(next, Kind.Assignment);
        value :- ParseExpressionList();
        var t3 := scanResult.Next();
        var _ :- Is(t3, Terminator);
      }
      return Ok(LocalStatement(literalExpression, value));
    }

    method ParseSwitchStatement() returns (r: Result<Statement, ParseError>)
      requires Valid()
      modifies scanResult
      ensures Valid() && Agrees(r, Spec.ParseSwitchStatement(Tokens(), old(Cursor())), Cursor())
      decreases |Tokens()| - Cursor(), 10
    {
      var t := scanResult.Next();
      var _ :- Is(t, Switch);
      var variable :- ParseExpression();
      var open := scanResult.Next();
      var _ :- Is(open, AccoladeOpen);

      ghost var start := Cursor();
      var switchCases: seq<SwitchCase> := [];
      while true
        invariant Valid() && old(Cursor()) < start <= Cursor()
        invariant Spec.SwitchCases(Tokens(), start, []) == Spec.SwitchCases(Tokens(), Cursor(), switchCases)
        decreases |Tokens()| - Cursor()
      {
        var next := scanResult.Next();
        if next.kind == AccoladeClose {
          break;
        }
        if next.kind != Case {
          return Err(ExpectedToken(Case, next.kind));
        }
        var caseExpression :- ParseExpression();
        var value :- Spec.AsLiteral(caseExpression);
        var colon := scanResult.Next();
        var _ :- Is(colon, Colon);

        ghost var caseStart := Cursor();
        var statements: seq<Statement> := [];
        while true
          invariant Valid() && caseStart <= Cursor()
          invariant Spec.StatementsUntilNull(Tokens(), caseStart, []) ==
                    Spec.StatementsUntilNull(Tokens(), Cursor(), statements)
          decreases |Tokens()| - Cursor()
        {
          var statement :- ParseStatement();
          if statement.None? {
            break;
          }
          statements := statements + [statement.value];
        }
        switchCases := switchCases + [SwitchCase(value, statements)];
      }
      return Ok(SwitchStatement(variable, switchCases));
    }

    method ParseForStatement() returns (r: Result<Statement, ParseError>)
      requires Valid()
      modifies scanResult
      ensures Valid() && Agrees(r, Spec.ParseForStatement(Tokens(), old(Cursor())), Cursor())
      decreases |Tokens()| - Cursor(), 10
    {
      var t := scanResult.Next();
      var _ :- Is(t, For);
      var loopVariable :- ParseExpression();
      var t2 := scanResult.Next();
      var _ :- Is(t2, Kind.In);
      var name :- Spec.AsLiteral(loopVariable);
      var list :- ParseExpressionList();
      var body :- ParseBlockStatement();
      return Ok(ForStatement(name, list, body));
    }

    method ParseOnStatement() returns (r: Result<Statement, ParseError>)
      requires Valid()
      modifies scanResult
      ensures Valid() && Agrees(r, Spec.ParseOnStatement(Tokens(), old(Cursor())), Cursor())
      decreases |Tokens()| - Cursor(), 10
    {
      var t := scanResult.Next();
      var _ :- Is(t, On);
      var target :- ParseExpression();
      var body :- ParseStatement();
      return Ok(OnStatement(target, body));
    }

    method ParseWhileStatement() returns (r: Result<Statement, ParseError>)
      requires Valid()
      modifies scanResult
      ensures Valid() && Agrees(r, Spec.ParseWhileStatement(Tokens(), old(Cursor())), Cursor())
      decreases |Tokens()| - Cursor(), 10
    {
      var t := scanResult.Next();
      var _ :- Is(t, While);
      var condition :- ParseCondition();
      var body :- ParseBlockStatement();
      return Ok(WhileStatement(condition, body));
    }

    method ParseAssignmentOrExpressionStatement() returns (r: Result<Statement, ParseError>)
      requires Valid()
      modifies scanResult
      ensures Valid() && Agrees(r, Spec.ParseAssignmentOrExpressionStatement(Tokens(), old(Cursor())), Cursor())
      decreases |Tokens()| - Cursor(), 10
    {
      var isAssignment :- IsNextTokenAssignment();
      if isAssignment {
        var leftSideOfAssignment :- ParseLeftSideOfAssignment();
        var assignmentToken := scanResult.Next();
        var right :- ParseExpressionList();
        var t := scanResult.Next();
        var _ :- Is(t, Terminator);
        var operator :- Spec.OperatorFor(assignmentToken.kind);
        return Ok(AssignmentStatement(leftSideOfAssignment, right, operator));
      }

      // `IsNextTokenAssignment` has parsed this expression from this cursor without an exception.
      var rule := ParseExpression();
      var ruleExpression :- Spec.AsLiteral(rule.value);
      var arguments :- ParseArgumentList();
      var t := scanResult.Next();
      var _ :- Is(t, Terminator);
      return Ok(ExpressionStatement(InvocationExpression(ruleExpression, arguments)));
    }

    method ParseLeftSideOfAssignment() returns (r: Result<Option<Expression>, ParseError>)
      requires Valid()
      modifies scanResult
      ensures Valid() && Agrees(r, Spec.ParseLeftSideOfAssignment(Tokens(), old(Cursor())), Cursor())
      decreases |Tokens()| - Cursor(), 3
    {
      var cursor := scanResult.GetCursor();
      var _ :- ParseExpression();
      var nextScanToken := scanResult.Next();
      scanResult.SetCursor(cursor);

      if nextScanToken.kind == On {
        // Parsing again from the restored cursor succeeds, and `On` follows.
        var variable := ParseExpression();
        var onToken := scanResult.Next();
        assert variable.Ok? && onToken.kind == On;
        var targets :- ParseExpressionList();
        return Ok(Some(VariableOnTargetExpression(variable.value, targets)));
      }

      if nextScanToken.kind in {Kind.Assignment, AppendOperator, SubtractOperator, Kind.AssignmentIfEmpty} {
        r := ParseExpression();
        return;
      }

      return Err(NotAnAssignment(nextScanToken.kind));
    }

    /** `IsNextTokenAssignment`: the cursor is left where it was. */
    method IsNextTokenAssignment() returns (r: Result<bool, ParseError>)
      requires Valid()
      modifies scanResult
      ensures Valid() && r == Spec.IsNextTokenAssignment(Tokens(), old(Cursor()))
      ensures r.Ok? ==> Cursor() == old(Cursor())
      decreases |Tokens()| - Cursor(), 3
    {
      var cursor := scanResult.GetCursor();
      var _ :- ParseExpression();
      var nextScanToken := scanResult.Next();
      scanResult.SetCursor(cursor);
      return Ok(nextScanToken.kind in Spec.AssignmentKinds);
    }

    method ParseReturnStatement() returns (r: Result<Statement, ParseError>)
      requires Valid()
      modifies scanResult
      ensures Valid() && Agrees(r, Spec.ParseReturnStatement(Tokens(), old(Cursor())), Cursor())
      decreases |Tokens()| - Cursor(), 10
    {
      var t := scanResult.Next();
      var _ :- Is(t, Return);
      var returnExpression :- ParseExpressionList();
      var t2 := scanResult.Next();
      var _ :- Is(t2, Terminator);
      return Ok(ReturnStatement(returnExpression));
    }

    method ParseActionsDeclarationStatement() returns (r: Result<Statement, ParseError>)
      requires Valid()
      modifies scanResult
      ensures Valid() && Agrees(r, Spec.ParseActionsDeclarationStatement(Tokens(), old(Cursor())), Cursor())
      decreases |Tokens()| - Cursor(), 10
    {
      var t := scanResult.Next();
      var _ :- Is(t, Actions);
      var expressionList :- ParseExpressionList();

      var accoladeOpen := scanResult.Next();
      if accoladeOpen.kind != AccoladeOpen {
        return Err(ExpectedToken(AccoladeOpen, accoladeOpen.kind));
      }
      var _ := scanResult.ProduceStringUntilEndOfLine();
      var actions :- ReadActionLines();

      if expressionList == [] {
        return Err(EmptyHeader);
      }
      var name :- Spec.AsLiteral(Some(expressionList[|expressionList| - 1]));
      return Ok(ActionsDeclarationStatement(name, expressionList[..|expressionList| - 1], actions));
    }

    /** The loop of `ParseActionsDeclarationStatement` over the raw lines of the body. */
    method ReadActionLines() returns (r: Result<seq<string>, ParseError>)
      requires Valid()
      modifies scanResult
      ensures Valid() && Agrees(r, Spec.ActionLines(Tokens(), old(Cursor()), []), Cursor())
    {
      var actions: seq<string> := [];
      while true
        invariant Valid() && old(Cursor()) <= Cursor()
        invariant Spec.ActionLines(Tokens(), old(Cursor()), []) == Spec.ActionLines(Tokens(), Cursor(), actions)
        decreases |Tokens()| - Cursor()
      {
        var before := scanResult.GetCursor();
        var action := scanResult.ProduceStringUntilEndOfLine();
        if Trim(action) == "}" {
          return Ok(actions);
        }
        if scanResult.cursor == before {
          // At the end of the tokens every further line is empty: the loop never ends.
          return Err(Diverges);
        }
        actions := actions + [action];
      }
    }

    method ParseRuleDeclarationStatement() returns (r: Result<Statement, ParseError>)
      requires Valid()
      modifies scanResult
      ensures Valid() && Agrees(r, Spec.ParseRuleDeclarationStatement(Tokens(), old(Cursor())), Cursor())
      decreases |Tokens()| - Cursor(), 10
    {
      var t := scanResult.Next();
      var _ :- Is(t, Rule);
      var ruleName :- ParseExpression();
      var arguments :- ParseArgumentList();
      var body :- ParseStatement();

      var ruleNameStr :- Spec.AsLiteral(ruleName);
      var argumentNames :- Spec.LiteralValues(Spec.Flatten(arguments));
      var block :- Spec.AsBlock(body);
      return Ok(RuleDeclarationStatement(ruleNameStr, argumentNames, block));
    }

    method ParseBlockStatement() returns (r: Result<seq<Statement>, ParseError>)
      requires Valid()
      modifies scanResult
      ensures Valid() && Agrees(r, Spec.ParseBlockStatement(Tokens(), old(Cursor())), Cursor())
      decreases |Tokens()| - Cursor(), 10
    {
      var t := scanResult.Next();
      var _ :- Is(t, AccoladeOpen);

      ghost var start := Cursor();
      var statements: seq<Statement> := [];
      while true
        invariant Valid() && old(Cursor()) < start <= Cursor()
        invariant Spec.StatementsUntilClose(Tokens(), start, []) ==
                  Spec.StatementsUntilClose(Tokens(), Cursor(), statements)
        decreases |Tokens()| - Cursor()
      {
        var peek := scanResult.Peek();
        if peek.kind == AccoladeClose {
          var _ := scanResult.Next();
          return Ok(statements);
        }
        var statement :- ParseStatement();
        if statement.None? {
          // The null is added and the same iteration repeats forever.
          return Err(Diverges);
        }
        statements := statements + [statement.value];
      }
    }

    method ParseIfStatement() returns (r: Result<Statement, ParseError>)
      requires Valid()
      modifies scanResult
      ensures Valid() && Agrees(r, Spec.ParseIfStatement(Tokens(), old(Cursor())), Cursor())
      decreases |Tokens()| - Cursor(), 10
    {
      var t := scanResult.Next();
      var _ :- Is(t, If);
      var condition :- ParseCondition();
      var body :- ParseBlockStatement();

      var peek := scanResult.Peek();
      var elseBranch: Option<Statement> := None;
      if peek.kind == Else {
        var _ := scanResult.Next();
        elseBranch :- ParseStatement();
      }
      return Ok(IfStatement(condition, body, elseBranch));
    }

    method ParseExpression() returns (r: Result<Option<Expression>, ParseError>)
      requires Valid()
      modifies scanResult
      ensures Valid() && Agrees(r, Spec.ParseExpression(Tokens(), old(Cursor())), Cursor())
      decreases |Tokens()| - Cursor(), 2
    {
      // The source's switch: null on the kinds that end an expression (`{` among them).
      var peek := scanResult.Peek();
      if peek.kind in Spec.ExpressionEnd {
        return Ok(None);
      } else if peek.kind == VariableDereferencer {
        var e :- ParseVariableDereferenceExpression();
        return Ok(Some(e));
      } else if peek.kind == BracketOpen {
        var e :- ParseInvocationExpression();
        return Ok(Some(e));
      }
      var t := scanResult.Next();
      var e :- ScanForCombineExpression(LiteralExpression(t.literal));
      return Ok(Some(e));
    }

    method ParseInvocationExpression() returns (r: Result<Expression, ParseError>)
      requires Valid()
      modifies scanResult
      ensures Valid() && Agrees(r, Spec.ParseInvocationExpression(Tokens(), old(Cursor())), Cursor())
      decreases |Tokens()| - Cursor(), 1
    {
      var bracketOpen := scanResult.Next();
      if bracketOpen.kind != BracketOpen {
        return Err(ExpectedToken(BracketOpen, bracketOpen.kind));
      }
      var ruleExpression :- ParseExpression();
      var arguments :- ParseArgumentList();
      var closeBracket := scanResult.Next();
      if closeBracket.kind != BracketClose {
        return Err(ExpectedToken(BracketClose, closeBracket.kind));
      }
      var name :- Spec.AsLiteral(ruleExpression);
      return Ok(InvocationExpression(name, arguments));
    }

    method ParseVariableDereferenceExpression() returns (r: Result<Expression, ParseError>)
      requires Valid()
      modifies scanResult
      ensures Valid() && Agrees(r, Spec.ParseVariableDereferenceExpression(Tokens(), old(Cursor())), Cursor())
      decreases |Tokens()| - Cursor(), 1
    {
      var dollar := scanResult.Next();
      if dollar.kind != VariableDereferencer {
        return Err(ExpectedToken(VariableDereferencer, dollar.kind));
      }
      var open := scanResult.Next();
      if open.kind != ParenthesisOpen {
        return Err(ExpectedToken(ParenthesisOpen, open.kind));
      }
      var variableExpression :- ParseExpression();
      var next := scanResult.Next();

      var indexed :- ParseIndexer(next);
      var (indexerExpression, after) := indexed;
      var modifiers: seq<Modifier> := [];
      if after.kind == Colon {
        modifiers :- ParseModifiers();
      } else {
        // After the modifier loop the token is always `)`, so the check matters only here.
        var _ :- Is(after, ParenthesisClose);
      }
      r := ScanForCombineExpression(VariableDereferenceExpression(variableExpression, indexerExpression, modifiers));
    }

    /** The optional `[ index ]` after the variable `next` of a dereference, and the token after it. */
    method ParseIndexer(next: Token) returns (r: Result<(Option<Expression>, Token), ParseError>)
      requires Valid()
      modifies scanResult
      ensures Valid() && Agrees(r, Spec.ParseIndexer(Tokens(), next, old(Cursor())), Cursor())
      decreases |Tokens()| - Cursor(), 3
    {
      if next.kind != BracketOpen {
        return Ok((None, next));
      }
      var indexerExpression :- ParseExpression();
      var close := scanResult.Next();
      if close.kind != BracketClose {
        return Err(ExpectedToken(BracketClose, close.kind));
      }
      var after := scanResult.Next();
      return Ok((indexerExpression, after));
    }

    /** The modifier loop of `ParseVariableDereferenceExpression`, up to and including `)`. */
    method ParseModifiers() returns (r: Result<seq<Modifier>, ParseError>)
      requires Valid()
      modifies scanResult
      ensures Valid() && Agrees(r, Spec.ParseModifiers(Tokens(), old(Cursor()), []), Cursor())
      decreases |Tokens()| - Cursor(), 0
    {
      var modifiers: seq<Modifier> := [];
      while true
        invariant Valid() && old(Cursor()) <= Cursor()
        invariant Spec.ParseModifiers(Tokens(), old(Cursor()), []) == Spec.ParseModifiers(Tokens(), Cursor(), modifiers)
        decreases |Tokens()| - Cursor()
      {
        var modifier := scanResult.Next();
        if modifier.kind == Colon {
          continue;
        }
        if modifier.kind == ParenthesisClose {
          return Ok(modifiers);
        }
        var _ :- Is(modifier, VariableExpansionModifier);
        var peek := scanResult.Peek();
        var modifierValue: Option<Expression> := None;
        if peek.kind == Kind.Assignment {
          var _ := scanResult.Next();
          modifierValue :- ParseExpression();
        }
        if modifier.literal == [] {
          return Err(EmptyModifier);
        }
        modifiers := modifiers + [Modifier(modifier.literal[0], modifierValue)];
      }
    }

    method ScanForCombineExpression(firstExpression: Expression) returns (r: Result<Expression, ParseError>)
      requires Valid()
      modifies scanResult
      ensures Valid() && Agrees(r, Spec.ScanForCombineExpression(Tokens(), old(Cursor()), firstExpression), Cursor())
      decreases |Tokens()| - Cursor(), 3
    {
      var peek := scanResult.Peek(false);
      if peek.kind == EOF || (peek.kind != Literal && peek.kind != VariableDereferencer) {
        return Ok(firstExpression);
      }
      var tail :- ParseExpression();
      match tail
      case Some(CombineExpression(elements)) =>
        return Ok(CombineExpression([firstExpression] + elements));
      case Some(e) =>
        return Ok(CombineExpression([firstExpression, e]));
    }

    method ParseArgumentList() returns (r: Result<seq<seq<Expression>>, ParseError>)
      requires Valid()
      modifies scanResult
      ensures Valid() && Agrees(r, Spec.ParseArgumentList(Tokens(), old(Cursor())), Cursor())
      decreases |Tokens()| - Cursor(), 7
    {
      var expressionLists: seq<seq<Expression>> := [];
      while true
        invariant Valid() && old(Cursor()) <= Cursor()
        invariant Spec.ArgumentListsFrom(Tokens(), old(Cursor()), []) ==
                  Spec.ArgumentListsFrom(Tokens(), Cursor(), expressionLists)
        decreases |Tokens()| - Cursor()
      {
        var list :- ParseExpressionList();
        expressionLists := expressionLists + [list];
        var nextToken := scanResult.Peek();
        if nextToken.kind == Colon {
          var _ := scanResult.Next();
          continue;
        }
        break;
      }
      return Ok(expressionLists);
    }

    method ParseCondition() returns (r: Result<Condition, ParseError>)
      requires Valid()
      modifies scanResult
      ensures Valid() && Agrees(r, Spec.ParseCondition(Tokens(), old(Cursor())), Cursor())
      decreases |Tokens()| - Cursor(), 8
    {
      var negated := false;
      var first := scanResult.Peek();
      if first.kind == Not {
        negated := true;
        var _ := scanResult.Next();
      }

      var left :- ParseExpression();
      var peek := scanResult.Peek();
      if peek.kind == AccoladeOpen || peek.kind == EOF {
        return Ok(Condition(negated, left, None, None));
      }
      if negated {
        return Err(NegatedComparison);
      }
      var _ := scanResult.Next();
      var operator :- Spec.OperatorFor(peek.kind);
      var right :- ParseExpressionList();
      return Ok(Condition(false, left, Some(operator), Some(right)));
    }
  }
}
