/**
 * The recursive-descent parser of Parser.cs as functions of the token sequence and the
 * cursor: each `Parse*` method is a function from a cursor to the node it builds and the
 * cursor it leaves, or the exception it throws. A loop of the source is a function with an
 * accumulator. The order of the checks and the side effects follows the source, so that the
 * first error the source would raise is the error returned.
 *
 * Termination: every function decreases `(|ts| - pos, rank)`; a call at the same cursor goes
 * to a lower rank, and every other call is made after a token has been consumed.
 */
module ParserSpec {
  import opened Wrappers
  import opened Chars
  import opened ParserTokens
  import opened JamAst

  /** A parsed value and the cursor after it. */
  datatype Parsed<+T> = Parsed(value: T, pos: nat)

  /** The kinds on which `ParseExpression` returns null. */
  const ExpressionEnd: set<Kind> :=
    {EOF, Colon, Terminator, ParenthesisClose, BracketClose, Kind.Assignment, AppendOperator, SubtractOperator, AccoladeOpen}

  /** The kinds on which `ParseStatement` returns null. */
  const StatementEnd: set<Kind> := {EOF, Case, AccoladeClose}

  /** The kinds `ParseStatement` has a case for. */
  const StatementStart: set<Kind> :=
    {EOF, Case, AccoladeClose, If, AccoladeOpen, Rule, Actions, Return, Literal, VariableDereferencer,
     On, While, For, Break, Continue, Switch, Local}

  /** The kinds after a left side that make `IsNextTokenAssignment` true. */
  const AssignmentKinds: set<Kind> := {Kind.Assignment, AppendOperator, SubtractOperator, On, Kind.AssignmentIfEmpty}

  /** The kinds `OperatorFor` maps. */
  const OperatorKinds: set<Kind> := {AppendOperator, Kind.Assignment, SubtractOperator, Kind.In, Kind.AssignmentIfEmpty, Kind.And, Kind.Or, Kind.NotEqual}

  // ---------------------------------------------------------------------------
  // Helpers for the casts of the source

  /** `e.As<LiteralExpression>().Value`: the value of a literal; anything else, null included, fails. */
  function AsLiteral(e: Option<Expression>): (r: Result<string, ParseError>)
    ensures r.Ok? <==> e.Some? && e.value.LiteralExpression?
    ensures r.Ok? ==> e == Some(LiteralExpression(r.value))
    ensures r.Err? ==> r.error == NotALiteral
  {
    match e
    case Some(LiteralExpression(v)) => Ok(v)
    case _ => Err(NotALiteral)
  }

  /** `.Cast<LiteralExpression>().Select(le => le.Value)`: the values, if every element is a literal. */
  function LiteralValues(es: seq<Expression>): (r: Result<seq<string>, ParseError>)
    decreases |es|
  {
    if es == [] then Ok([])
    else
      var v :- AsLiteral(Some(es[0]));
      var vs :- LiteralValues(es[1..]);
      Ok([v] + vs)
  }

  /** `SelectMany(list => list)`: the lists one after the other. */
  function Flatten(lists: seq<seq<Expression>>): seq<Expression>
    decreases |lists|
  {
    if lists == [] then [] else lists[0] + Flatten(lists[1..])
  }

  /** `(BlockStatement) body`: a block's statements, null passing through. */
  function AsBlock(s: Option<Statement>): (r: Result<Option<seq<Statement>>, ParseError>)
    ensures r.Ok? <==> s.None? || s.value.BlockStatement?
    ensures r.Ok? && s.Some? ==> r.value == Some(s.value.statements)
    ensures r.Ok? && s.None? ==> r.value == None
  {
    match s
    case None => Ok(None)
    case Some(BlockStatement(ss)) => Ok(Some(ss))
    case Some(_) => Err(NotABlock)
  }

  /** Wrap the node of a statement parser into `ParseStatement`'s nullable result. */
  function Present(r: Result<Parsed<Statement>, ParseError>): Result<Parsed<Option<Statement>>, ParseError> {
    match r
    case Ok(p) => Ok(Parsed(Some(p.value), p.pos))
    case Err(e) => Err(e)
  }

  /** `OperatorFor`: the operator of an operator token; `NotSupportedException` otherwise. */
  function OperatorFor(k: Kind): (r: Result<Operator, ParseError>)
    ensures r.Err? ==> r.error == UnsupportedOperator(k)
  {
    match k
    case AppendOperator => Ok(Append)
    case Assignment => Ok(Operator.Assignment)
    case SubtractOperator => Ok(Subtract)
    case In => Ok(Operator.In)
    case AssignmentIfEmpty => Ok(Operator.AssignmentIfEmpty)
    case And => Ok(Operator.And)
    case Or => Ok(Operator.Or)
    case NotEqual => Ok(Operator.NotEqual)
    case _ => Err(UnsupportedOperator(k))
  }

  // ---------------------------------------------------------------------------
  // Statements

  /**
   * `ParseStatement`: null on EOF, `case` and `}`, without consuming anything; a statement
   * that consumed at least one token otherwise; an exception on a kind without a case.
   */
  function ParseStatement(ts: seq<Token>, pos: nat): (r: Result<Parsed<Option<Statement>>, ParseError>)
    requires pos <= |ts|
    ensures r.Ok? ==> pos <= r.value.pos <= |ts|
    ensures r.Ok? && r.value.value.None? ==> r.value.pos == pos && PeekAt(ts, pos, true).kind in StatementEnd
    ensures r.Ok? && r.value.value.Some? ==> pos < r.value.pos
    decreases |ts| - pos, 11
  {
    var kind := PeekAt(ts, pos, true).kind;
    match kind
    case EOF | Case | AccoladeClose => Ok(Parsed(None, pos))
    case If => Present(ParseIfStatement(ts, pos))
    case AccoladeOpen =>
      var block :- ParseBlockStatement(ts, pos);
      Ok(Parsed(Some(BlockStatement(block.value)), block.pos))
    case Rule => Present(ParseRuleDeclarationStatement(ts, pos))
    case Actions => Present(ParseActionsDeclarationStatement(ts, pos))
    case Return => Present(ParseReturnStatement(ts, pos))
    case Literal | VariableDereferencer => Present(ParseAssignmentOrExpressionStatement(ts, pos))
    case On => Present(ParseOnStatement(ts, pos))
    case While => Present(ParseWhileStatement(ts, pos))
    case For => Present(ParseForStatement(ts, pos))
    case Break =>
      var p1 := NextAt(ts, pos).1;
      var (t, p2) := NextAt(ts, p1);
      var _ :- Is(t, Terminator);
      Ok(Parsed(Some(BreakStatement), p2))
    case Continue =>
      var p1 := NextAt(ts, pos).1;
      var (t, p2) := NextAt(ts, p1);
      var _ :- Is(t, Terminator);
      Ok(Parsed(Some(ContinueStatement), p2))
    case Switch => Present(ParseSwitchStatement(ts, pos))
    case Local => Present(ParseLocalStatement(ts, pos))
    case _ => Err(UnexpectedToken(kind))
  }

  /** `ParseLocalStatement`: `local name ;` or `local name = values ;`. */
  function ParseLocalStatement(ts: seq<Token>, pos: nat): (r: Result<Parsed<Statement>, ParseError>)
    requires pos <= |ts|
    ensures r.Ok? ==> pos < r.value.pos <= |ts|
    decreases |ts| - pos, 10
  {
    var (t, p1) := NextAt(ts, pos);
    var _ :- Is(t, Local);
    var variable :- ParseExpression(ts, p1);
    var name :- AsLiteral(variable.value);
    var (next, p2) := NextAt(ts, variable.pos);
    if next.kind == Terminator then Ok(Parsed(LocalStatement(name, []), p2))
    else
      var _ :- Is(next, Kind.Assignment);
      var value :- ParseExpressionList(ts, p2);
      var (t3, p3) := NextAt(ts, value.pos);
      var _ :- Is(t3, Terminator);
      Ok(Parsed(LocalStatement(name, value.value), p3))
  }

  /** `ParseSwitchStatement`: `switch e { case v : statements ... }`. */
  function ParseSwitchStatement(ts: seq<Token>, pos: nat): (r: Result<Parsed<Statement>, ParseError>)
    requires pos <= |ts|
    ensures r.Ok? ==> pos < r.value.pos <= |ts|
    decreases |ts| - pos, 10
  {
    var (t, p1) := NextAt(ts, pos);
    var _ :- Is(t, Switch);
    var variable :- ParseExpression(ts, p1);
    var (open, p2) := NextAt(ts, variable.pos);
    var _ :- Is(open, AccoladeOpen);
    var cases :- SwitchCases(ts, p2, []);
    Ok(Parsed(SwitchStatement(variable.value, cases.value), cases.pos))
  }

  /** The outer loop of `ParseSwitchStatement`: cases up to the closing `}`. */
  function SwitchCases(ts: seq<Token>, pos: nat, acc: seq<SwitchCase>): (r: Result<Parsed<seq<SwitchCase>>, ParseError>)
    requires pos <= |ts|
    ensures r.Ok? ==> pos < r.value.pos <= |ts|
    decreases |ts| - pos, 0
  {
    var (next, p1) := NextAt(ts, pos);
    if next.kind == AccoladeClose then Ok(Parsed(acc, p1))
    else if next.kind != Case then Err(ExpectedToken(Case, next.kind))
    else
      var caseExpression :- ParseExpression(ts, p1);
      var value :- AsLiteral(caseExpression.value);
      var (colon, p2) := NextAt(ts, caseExpression.pos);
      var _ :- Is(colon, Colon);
      var statements :- StatementsUntilNull(ts, p2, []);
      SwitchCases(ts, statements.pos, acc + [SwitchCase(value, statements.value)])
  }

  /** The inner loop of `ParseSwitchStatement`: statements until `ParseStatement` returns null. */
  function StatementsUntilNull(ts: seq<Token>, pos: nat, acc: seq<Statement>): (r: Result<Parsed<seq<Statement>>, ParseError>)
    requires pos <= |ts|
    ensures r.Ok? ==> pos <= r.value.pos <= |ts|
    decreases |ts| - pos, 12
  {
    var s :- ParseStatement(ts, pos);
    match s.value
    case None => Ok(Parsed(acc, pos))
    case Some(statement) => StatementsUntilNull(ts, s.pos, acc + [statement])
  }

  /** `ParseForStatement`: `for v in list { body }`. */
  function ParseForStatement(ts: seq<Token>, pos: nat): (r: Result<Parsed<Statement>, ParseError>)
    requires pos <= |ts|
    ensures r.Ok? ==> pos < r.value.pos <= |ts|
    decreases |ts| - pos, 10
  {
    var (t, p1) := NextAt(ts, pos);
    var _ :- Is(t, For);
    var loopVariable :- ParseExpression(ts, p1);
    var (t2, p2) := NextAt(ts, loopVariable.pos);
    var _ :- Is(t2, Kind.In);
    var name :- AsLiteral(loopVariable.value);
    var list :- ParseExpressionList(ts, p2);
    var body :- ParseBlockStatement(ts, list.pos);
    Ok(Parsed(ForStatement(name, list.value, body.value), body.pos))
  }

  /** `ParseOnStatement`: `on target statement`. */
  function ParseOnStatement(ts: seq<Token>, pos: nat): (r: Result<Parsed<Statement>, ParseError>)
    requires pos <= |ts|
    ensures r.Ok? ==> pos < r.value.pos <= |ts|
    decreases |ts| - pos, 10
  {
    var (t, p1) := NextAt(ts, pos);
    var _ :- Is(t, On);
    var target :- ParseExpression(ts, p1);
    var body :- ParseStatement(ts, target.pos);
    Ok(Parsed(OnStatement(target.value, body.value), body.pos))
  }

  /** `ParseWhileStatement`: `while condition { body }`. */
  function ParseWhileStatement(ts: seq<Token>, pos: nat): (r: Result<Parsed<Statement>, ParseError>)
    requires pos <= |ts|
    ensures r.Ok? ==> pos < r.value.pos <= |ts|
    decreases |ts| - pos, 10
  {
    var (t, p1) := NextAt(ts, pos);
    var _ :- Is(t, While);
    var condition :- ParseCondition(ts, p1);
    var body :- ParseBlockStatement(ts, condition.pos);
    Ok(Parsed(WhileStatement(condition.value, body.value), body.pos))
  }

  /**
   * `ParseAssignmentOrExpressionStatement`: an assignment when `IsNextTokenAssignment` says
   * so, otherwise the invocation of a rule; both end with `;`.
   */
  function ParseAssignmentOrExpressionStatement(ts: seq<Token>, pos: nat): (r: Result<Parsed<Statement>, ParseError>)
    requires pos <= |ts|
    ensures r.Ok? ==> pos < r.value.pos <= |ts|
    decreases |ts| - pos, 10
  {
    var isAssignment :- IsNextTokenAssignment(ts, pos);
    if isAssignment then
      var left :- ParseLeftSideOfAssignment(ts, pos);
      var (assignmentToken, p1) := NextAt(ts, left.pos);
      var right :- ParseExpressionList(ts, p1);
      var (t, p2) := NextAt(ts, right.pos);
      var _ :- Is(t, Terminator);
      var operator :- OperatorFor(assignmentToken.kind);
      Ok(Parsed(AssignmentStatement(left.value, right.value, operator), p2))
    else
      // `IsNextTokenAssignment` has parsed this expression from this cursor without an exception.
      var rule := ParseExpression(ts, pos).value;
      var name :- AsLiteral(rule.value);
      var arguments :- ParseArgumentList(ts, rule.pos);
      var (t, p2) := NextAt(ts, arguments.pos);
      var _ :- Is(t, Terminator);
      Ok(Parsed(ExpressionStatement(InvocationExpression(name, arguments.value)), p2))
  }

  /**
   * `ParseLeftSideOfAssignment`: look ahead past the first expression (the cursor is put back)
   * and parse either `variable on targets` or the expression alone.
   */
  function ParseLeftSideOfAssignment(ts: seq<Token>, pos: nat): (r: Result<Parsed<Option<Expression>>, ParseError>)
    requires pos <= |ts|
    ensures r.Ok? ==> pos <= r.value.pos <= |ts|
    decreases |ts| - pos, 3
  {
    var first :- ParseExpression(ts, pos);
    var (next, p1) := NextAt(ts, first.pos);
    if next.kind == On then
      // The cursor is put back, so parsing again yields `first`, and `Next().Is(On)` holds.
      var targets :- ParseExpressionList(ts, p1);
      Ok(Parsed(Some(VariableOnTargetExpression(first.value, targets.value)), targets.pos))
    else if next.kind in {Kind.Assignment, AppendOperator, SubtractOperator, Kind.AssignmentIfEmpty} then
      Ok(first)
    else
      Err(NotAnAssignment(next.kind))
  }

  /**
   * `IsNextTokenAssignment`: parse one expression ahead and look at the token after it; the
   * cursor is put back, so only the answer (or the exception) remains.
   */
  function IsNextTokenAssignment(ts: seq<Token>, pos: nat): (r: Result<bool, ParseError>)
    requires pos <= |ts|
    decreases |ts| - pos, 3
  {
    var left :- ParseExpression(ts, pos);
    Ok(NextAt(ts, left.pos).0.kind in AssignmentKinds)
  }

  /** `ParseReturnStatement`: `return list ;`. */
  function ParseReturnStatement(ts: seq<Token>, pos: nat): (r: Result<Parsed<Statement>, ParseError>)
    requires pos <= |ts|
    ensures r.Ok? ==> pos < r.value.pos <= |ts|
    decreases |ts| - pos, 10
  {
    var (t, p1) := NextAt(ts, pos);
    var _ :- Is(t, Return);
    var list :- ParseExpressionList(ts, p1);
    var (t2, p2) := NextAt(ts, list.pos);
    var _ :- Is(t2, Terminator);
    Ok(Parsed(ReturnStatement(list.value), p2))
  }

  /**
   * `ParseActionsDeclarationStatement`: `actions modifiers name {`, then the raw lines of the
   * body up to the line that is `}` once trimmed. The name is the last header expression.
   */
  function ParseActionsDeclarationStatement(ts: seq<Token>, pos: nat): (r: Result<Parsed<Statement>, ParseError>)
    requires pos <= |ts|
    ensures r.Ok? ==> pos < r.value.pos <= |ts|
    ensures r.Ok? ==>
              var header := ParseExpressionList(ts, NextAt(ts, pos).1);
              && header.Ok? && r.value.value.ActionsDeclarationStatement?
              && var n := |header.value.value| - 1;
              && n >= 0 && header.value.value[..n] == r.value.value.modifiers
              && header.value.value[n] == LiteralExpression(r.value.value.name)
              && ActionLines(ts, ProduceLine(ts, NextAt(ts, header.value.pos).1).1, []) == Ok(Parsed(r.value.value.actions, r.value.pos))
    decreases |ts| - pos, 10
  {
    var (t, p1) := NextAt(ts, pos);
    var _ :- Is(t, Actions);
    var header :- ParseExpressionList(ts, p1);
    var (open, p2) := NextAt(ts, header.pos);
    if open.kind != AccoladeOpen then Err(ExpectedToken(AccoladeOpen, open.kind))
    else
      var p3 := ProduceLine(ts, p2).1;
      var body :- ActionLines(ts, p3, []);
      if header.value == [] then Err(EmptyHeader)
      else
        var name :- AsLiteral(Some(header.value[|header.value| - 1]));
        Ok(Parsed(ActionsDeclarationStatement(name, header.value[..|header.value| - 1], body.value), body.pos))
  }

  /** The loop of `ParseActionsDeclarationStatement` over the lines of the body. */
  function ActionLines(ts: seq<Token>, pos: nat, acc: seq<string>): (r: Result<Parsed<seq<string>>, ParseError>)
    requires pos <= |ts|
    ensures r.Ok? ==> pos <= r.value.pos <= |ts|
    decreases |ts| - pos
  {
    var (line, p) := ProduceLine(ts, pos);
    if Trim(line) == "}" then Ok(Parsed(acc, p))
    else if p == pos then Err(Diverges)
    else ActionLines(ts, p, acc + [line])
  }

  /** `ParseRuleDeclarationStatement`: `rule name arguments body`. */
  function ParseRuleDeclarationStatement(ts: seq<Token>, pos: nat): (r: Result<Parsed<Statement>, ParseError>)
    requires pos <= |ts|
    ensures r.Ok? ==> pos < r.value.pos <= |ts|
    decreases |ts| - pos, 10
  {
    var (t, p1) := NextAt(ts, pos);
    var _ :- Is(t, Rule);
    var ruleName :- ParseExpression(ts, p1);
    var arguments :- ParseArgumentList(ts, ruleName.pos);
    var body :- ParseStatement(ts, arguments.pos);
    var name :- AsLiteral(ruleName.value);
    var argumentNames :- LiteralValues(Flatten(arguments.value));
    var block :- AsBlock(body.value);
    Ok(Parsed(RuleDeclarationStatement(name, argumentNames, block), body.pos))
  }

  /** `ParseBlockStatement`: `{`, then statements up to the matching `}`. */
  function ParseBlockStatement(ts: seq<Token>, pos: nat): (r: Result<Parsed<seq<Statement>>, ParseError>)
    requires pos <= |ts|
    ensures r.Ok? ==> pos < r.value.pos <= |ts|
    decreases |ts| - pos, 10
  {
    var (t, p1) := NextAt(ts, pos);
    var _ :- Is(t, AccoladeOpen);
    StatementsUntilClose(ts, p1, [])
  }

  /**
   * The loop of `ParseBlockStatement`. When `ParseStatement` returns null (on EOF or `case`)
   * the source adds the null and repeats the same iteration forever.
   */
  function StatementsUntilClose(ts: seq<Token>, pos: nat, acc: seq<Statement>): (r: Result<Parsed<seq<Statement>>, ParseError>)
    requires pos <= |ts|
    ensures r.Ok? ==> pos < r.value.pos <= |ts|
    decreases |ts| - pos, 12
  {
    if PeekAt(ts, pos, true).kind == AccoladeClose then Ok(Parsed(acc, NextAt(ts, pos).1))
    else
      var s :- ParseStatement(ts, pos);
      match s.value
      case None => Err(Diverges)
      case Some(statement) => StatementsUntilClose(ts, s.pos, acc + [statement])
  }

  /** `ParseIfStatement`: `if condition { body }`, optionally `else statement`. */
  function ParseIfStatement(ts: seq<Token>, pos: nat): (r: Result<Parsed<Statement>, ParseError>)
    requires pos <= |ts|
    ensures r.Ok? ==> pos < r.value.pos <= |ts|
    decreases |ts| - pos, 10
  {
    var (t, p1) := NextAt(ts, pos);
    var _ :- Is(t, If);
    var condition :- ParseCondition(ts, p1);
    var body :- ParseBlockStatement(ts, condition.pos);
    if PeekAt(ts, body.pos, true).kind == Else then
      var elseBranch :- ParseStatement(ts, NextAt(ts, body.pos).1);
      Ok(Parsed(IfStatement(condition.value, body.value, elseBranch.value), elseBranch.pos))
    else
      Ok(Parsed(IfStatement(condition.value, body.value, None), body.pos))
  }

  // ---------------------------------------------------------------------------
  // Expressions

  /**
   * `ParseExpression`: null without consuming anything on the kinds that end an expression;
   * a dereference, an invocation, or a literal possibly combined with what touches it.
   */
  function ParseExpression(ts: seq<Token>, pos: nat): (r: Result<Parsed<Option<Expression>>, ParseError>)
    requires pos <= |ts|
    ensures r.Ok? ==> pos <= r.value.pos <= |ts|
    ensures r.Ok? && r.value.value.None? ==> r.value.pos == pos && PeekAt(ts, pos, true).kind in ExpressionEnd
    ensures r.Ok? && r.value.value.Some? ==> pos < r.value.pos
    decreases |ts| - pos, 2
  {
    var kind := PeekAt(ts, pos, true).kind;
    if kind in ExpressionEnd then Ok(Parsed(None, pos))
    else if kind == VariableDereferencer then
      var e :- ParseVariableDereferenceExpression(ts, pos);
      Ok(Parsed(Some(e.value), e.pos))
    else if kind == BracketOpen then
      var e :- ParseInvocationExpression(ts, pos);
      Ok(Parsed(Some(e.value), e.pos))
    else
      var (t, p1) := NextAt(ts, pos);
      var e :- ScanForCombineExpression(ts, p1, LiteralExpression(t.literal));
      Ok(Parsed(Some(e.value), e.pos))
  }

  /** `ParseInvocationExpression`: `[ rule arguments ]`. */
  function ParseInvocationExpression(ts: seq<Token>, pos: nat): (r: Result<Parsed<Expression>, ParseError>)
    requires pos <= |ts|
    ensures r.Ok? ==> pos < r.value.pos <= |ts|
    decreases |ts| - pos, 1
  {
    var (open, p1) := NextAt(ts, pos);
    if open.kind != BracketOpen then Err(ExpectedToken(BracketOpen, open.kind))
    else
      var rule :- ParseExpression(ts, p1);
      var arguments :- ParseArgumentList(ts, rule.pos);
      var (close, p2) := NextAt(ts, arguments.pos);
      if close.kind != BracketClose then Err(ExpectedToken(BracketClose, close.kind))
      else
        var name :- AsLiteral(rule.value);
        Ok(Parsed(InvocationExpression(name, arguments.value), p2))
  }

  /**
   * `ParseVariableDereferenceExpression`: `$ ( variable [index] :modifiers )`, possibly
   * combined with what touches it.
   */
  function ParseVariableDereferenceExpression(ts: seq<Token>, pos: nat): (r: Result<Parsed<Expression>, ParseError>)
    requires pos <= |ts|
    ensures r.Ok? ==> pos < r.value.pos <= |ts|
    decreases |ts| - pos, 1
  {
    var (dollar, p1) := NextAt(ts, pos);
    if dollar.kind != VariableDereferencer then Err(ExpectedToken(VariableDereferencer, dollar.kind))
    else
      var (open, p2) := NextAt(ts, p1);
      if open.kind != ParenthesisOpen then Err(ExpectedToken(ParenthesisOpen, open.kind))
      else
        var variable :- ParseExpression(ts, p2);
        var (next, p3) := NextAt(ts, variable.pos);
        var indexed :- ParseIndexer(ts, next, p3);
        var modifiers :- if indexed.value.1.kind == Colon then ParseModifiers(ts, indexed.pos, [])
                         else var _ :- Is(indexed.value.1, ParenthesisClose); Ok(Parsed([], indexed.pos));
        ScanForCombineExpression(ts, modifiers.pos,
                                 VariableDereferenceExpression(variable.value, indexed.value.0, modifiers.value))
  }

  /**
   * The optional `[ index ]` of a dereference, given the token `next` after the variable and
   * the cursor after it: the index, and the token after it (and the cursor after that).
   */
  function ParseIndexer(ts: seq<Token>, next: Token, pos: nat): (r: Result<Parsed<(Option<Expression>, Token)>, ParseError>)
    requires pos <= |ts|
    ensures r.Ok? ==> pos <= r.value.pos <= |ts|
    ensures r.Ok? && next.kind != BracketOpen ==> r.value == Parsed((None, next), pos)
    decreases |ts| - pos, 3
  {
    if next.kind == BracketOpen then
      var index :- ParseExpression(ts, pos);
      var (close, p1) := NextAt(ts, index.pos);
      if close.kind != BracketClose then Err(ExpectedToken(BracketClose, close.kind))
      else
        var (after, p2) := NextAt(ts, p1);
        Ok(Parsed((index.value, after), p2))
    else Ok(Parsed((None, next), pos))
  }

  /** The modifier loop of `ParseVariableDereferenceExpression`, up to and including `)`. */
  function ParseModifiers(ts: seq<Token>, pos: nat, acc: seq<Modifier>): (r: Result<Parsed<seq<Modifier>>, ParseError>)
    requires pos <= |ts|
    ensures r.Ok? ==> pos < r.value.pos <= |ts|
    decreases |ts| - pos, 0
  {
    var (modifier, p1) := NextAt(ts, pos);
    if modifier.kind == Colon then ParseModifiers(ts, p1, acc)
    else if modifier.kind == ParenthesisClose then Ok(Parsed(acc, p1))
    else
      var _ :- Is(modifier, VariableExpansionModifier);
      var value :- if PeekAt(ts, p1, true).kind == Kind.Assignment then ParseExpression(ts, NextAt(ts, p1).1)
                   else Ok(Parsed(None, p1));
      if modifier.literal == [] then Err(EmptyModifier)
      else ParseModifiers(ts, value.pos, acc + [Modifier(modifier.literal[0], value.value)])
  }

  /**
   * `ScanForCombineExpression`: when the very next token (white space not skipped) is a literal
   * or a `$`, the expression after it is parsed and the two are combined, a combination being
   * spliced in rather than nested.
   */
  function ScanForCombineExpression(ts: seq<Token>, pos: nat, first: Expression): (r: Result<Parsed<Expression>, ParseError>)
    requires pos <= |ts|
    ensures r.Ok? ==> pos <= r.value.pos <= |ts|
    decreases |ts| - pos, 3
  {
    var peek := PeekAt(ts, pos, false);
    if peek.kind == EOF || (peek.kind != Literal && peek.kind != VariableDereferencer) then Ok(Parsed(first, pos))
    else
      var tail :- ParseExpression(ts, pos);
      match tail.value
      case Some(CombineExpression(elements)) => Ok(Parsed(CombineExpression([first] + elements), tail.pos))
      case Some(e) => Ok(Parsed(CombineExpression([first, e]), tail.pos))
  }

  /** `ParseExpressionList`: expressions until `ParseExpression` returns null. */
  function ParseExpressionList(ts: seq<Token>, pos: nat): (r: Result<Parsed<seq<Expression>>, ParseError>)
    requires pos <= |ts|
    ensures r.Ok? ==> pos <= r.value.pos <= |ts|
    decreases |ts| - pos, 5
  {
    ExpressionsUntilNull(ts, pos, [])
  }

  function ExpressionsUntilNull(ts: seq<Token>, pos: nat, acc: seq<Expression>): (r: Result<Parsed<seq<Expression>>, ParseError>)
    requires pos <= |ts|
    ensures r.Ok? ==> pos <= r.value.pos <= |ts|
    decreases |ts| - pos, 4
  {
    var e :- ParseExpression(ts, pos);
    match e.value
    case None => Ok(Parsed(acc, pos))
    case Some(x) => ExpressionsUntilNull(ts, e.pos, acc + [x])
  }

  /** `ParseArgumentList`: expression lists separated by `:`. */
  function ParseArgumentList(ts: seq<Token>, pos: nat): (r: Result<Parsed<seq<seq<Expression>>>, ParseError>)
    requires pos <= |ts|
    ensures r.Ok? ==> pos <= r.value.pos <= |ts|
    decreases |ts| - pos, 7
  {
    ArgumentListsFrom(ts, pos, [])
  }

  function ArgumentListsFrom(ts: seq<Token>, pos: nat, acc: seq<seq<Expression>>): (r: Result<Parsed<seq<seq<Expression>>>, ParseError>)
    requires pos <= |ts|
    ensures r.Ok? ==> pos <= r.value.pos <= |ts|
    decreases |ts| - pos, 6
  {
    var list :- ParseExpressionList(ts, pos);
    if PeekAt(ts, list.pos, true).kind == Colon then ArgumentListsFrom(ts, NextAt(ts, list.pos).1, acc + [list.value])
    else Ok(Parsed(acc + [list.value], list.pos))
  }

  /** `ParseCondition`: `[!] left`, or `left operator right-list` without the `!`. */
  function ParseCondition(ts: seq<Token>, pos: nat): (r: Result<Parsed<Condition>, ParseError>)
    requires pos <= |ts|
    ensures r.Ok? ==> pos <= r.value.pos <= |ts|
    decreases |ts| - pos, 8
  {
    var negated := PeekAt(ts, pos, true).kind == Not;
    var p1 := if negated then NextAt(ts, pos).1 else pos;
    var left :- ParseExpression(ts, p1);
    var peek := PeekAt(ts, left.pos, true);
    if peek.kind == AccoladeOpen || peek.kind == EOF then Ok(Parsed(Condition(negated, left.value, None, None), left.pos))
    else if negated then Err(NegatedComparison)
    else
      var p2 := NextAt(ts, left.pos).1;
      var operator :- OperatorFor(peek.kind);
      var right :- ParseExpressionList(ts, p2);
      Ok(Parsed(Condition(false, left.value, Some(operator), Some(right.value)), right.pos))
  }
}
