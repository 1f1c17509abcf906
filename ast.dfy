/**
 * The node shapes the parser builds. A `null` the parser stores in a node (a missing
 * expression, an absent `else`) is `None`; a node the parser only ever casts to
 * `LiteralExpression` and reads the value of is kept as that value.
 */
module JamAst {
  import opened Wrappers

  datatype Operator = Append | Assignment | Subtract | In | AssignmentIfEmpty | And | Or | NotEqual

  datatype Expression =
    | LiteralExpression(value: string)
    | VariableDereferenceExpression(variable: Option<Expression>, indexer: Option<Expression>,
                                    modifiers: seq<Modifier>)
    | InvocationExpression(rule: string, arguments: seq<seq<Expression>>)
    | CombineExpression(elements: seq<Expression>)
    | VariableOnTargetExpression(variable: Option<Expression>, targets: seq<Expression>)

  /** A `:X` or `:X=value` modifier of a variable dereference. */
  datatype Modifier = Modifier(command: char, value: Option<Expression>)

  /** `Condition`: `Operator` and `Right` are present together or not at all. */
  datatype Condition = Condition(negated: bool, left: Option<Expression>, operator: Option<Operator>,
                                 right: Option<seq<Expression>>)

  datatype SwitchCase = SwitchCase(caseExpression: string, statements: seq<Statement>)

  datatype Statement =
    | IfStatement(condition: Condition, body: seq<Statement>, elseBranch: Option<Statement>)
    | BlockStatement(statements: seq<Statement>)
    | RuleDeclarationStatement(name: string, arguments: seq<string>, ruleBody: Option<seq<Statement>>)
    | ActionsDeclarationStatement(name: string, modifiers: seq<Expression>, actions: seq<string>)
    | ReturnStatement(returnExpression: seq<Expression>)
    | AssignmentStatement(left: Option<Expression>, right: seq<Expression>, operator: Operator)
    | ExpressionStatement(expression: Expression)
    | OnStatement(target: Option<Expression>, onBody: Option<Statement>)
    | WhileStatement(condition: Condition, body: seq<Statement>)
    | ForStatement(loopVariable: string, list: seq<Expression>, body: seq<Statement>)
    | BreakStatement
    | ContinueStatement
    | SwitchStatement(variable: Option<Expression>, cases: seq<SwitchCase>)
    | LocalStatement(localVariable: string, value: seq<Expression>)
}
