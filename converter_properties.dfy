/**
 * What the emitter of JamToCSharpConverter.cs promises, stated on the functions of
 * `ConverterSpec` (which the methods of `JamConverter.JamToCSharpConverter` are proved to follow).
 */
module ConverterProperties {
  import opened Wrappers
  import opened ConverterSpec

  // ---------------------------------------------------------------------------
  // Expressions

  /** The translations of a sequence exist exactly when each element's does, and are those, in order. */
  lemma {:induction false} CSharpForEachElementwise(h: Helpers, es: seq<Node>)
    ensures CSharpForEach(h, es).Ok? <==> forall i | 0 <= i < |es| :: CSharpFor(h, es[i]).Ok?
    ensures CSharpForEach(h, es).Ok? ==>
              forall i | 0 <= i < |es| :: CSharpForEach(h, es).value[i] == CSharpFor(h, es[i]).value
    decreases es
  {
    if es != [] {
      CSharpForEachElementwise(h, es[1..]);
      assert forall i | 0 < i < |es| :: es[1..][i - 1] == es[i];
    }
  }

  /** The nodes `CSharpFor` translates: literals, dereferences of a literal, and combinations and lists of those. */
  predicate Translatable(e: Node)
    decreases e
  {
    match e
    case LiteralExpression(_) => true
    case VariableDereferenceExpression(variable) => variable.LiteralExpression?
    case CombineExpression(elements) => forall i | 0 <= i < |elements| :: Translatable(elements[i])
    case ExpressionListExpression(expressions) => forall i | 0 <= i < |expressions| :: Translatable(expressions[i])
    case _ => false
  }

  /**
   * `CSharpFor` succeeds exactly on translatable nodes. Otherwise it fails with an invalid cast
   * when some dereference is not of a literal, and with a `ParsingException` for any other node.
   */
  lemma {:induction false} CSharpForSucceedsIff(h: Helpers, e: Node)
    ensures CSharpFor(h, e).Ok? <==> Translatable(e)
    ensures CSharpFor(h, e).Err? ==> CSharpFor(h, e).error in {InvalidCast, ParsingException}
    decreases e
  {
    match e
    case CombineExpression(elements) =>
      CSharpForEachElementwise(h, elements);
      forall i | 0 <= i < |elements|
        ensures CSharpFor(h, elements[i]).Ok? <==> Translatable(elements[i])
        ensures CSharpFor(h, elements[i]).Err? ==> CSharpFor(h, elements[i]).error in {InvalidCast, ParsingException}
      {
        CSharpForSucceedsIff(h, elements[i]);
      }
      CSharpForEachFails(h, elements);
    case ExpressionListExpression(expressions) =>
      CSharpForEachElementwise(h, expressions);
      forall i | 0 <= i < |expressions|
        ensures CSharpFor(h, expressions[i]).Ok? <==> Translatable(expressions[i])
        ensures CSharpFor(h, expressions[i]).Err? ==> CSharpFor(h, expressions[i]).error in {InvalidCast, ParsingException}
      {
        CSharpForSucceedsIff(h, expressions[i]);
      }
      CSharpForEachFails(h, expressions);
    case _ =>
  }

  /** The exception of a sequence's translation is the exception of one of its elements. */
  lemma {:induction false} CSharpForEachFails(h: Helpers, es: seq<Node>)
    ensures CSharpForEach(h, es).Err? ==>
              exists i | 0 <= i < |es| :: CSharpFor(h, es[i]) == Err(CSharpForEach(h, es).error)
    decreases es
  {
    if es != [] && CSharpFor(h, es[0]).Ok? {
      CSharpForEachFails(h, es[1..]);
      if CSharpForEach(h, es).Err? {
        var i :| 0 <= i < |es[1..]| && CSharpFor(h, es[1..][i]) == Err(CSharpForEach(h, es).error);
        assert es[1..][i] == es[i + 1];
      }
    }
  }

  /** A combination is `JamList.Combine` of its elements' translations, in order. */
  lemma CombineTranslation(h: Helpers, elements: seq<Node>)
    requires CSharpFor(h, CombineExpression(elements)).Ok?
    ensures var parts := CSharpForEach(h, elements).value;
            && CSharpFor(h, CombineExpression(elements)).value == "JamList.Combine(" + h.seperateWithComma(parts) + ")"
            && |parts| == |elements|
            && forall i | 0 <= i < |elements| :: CSharpFor(h, elements[i]) == Ok(parts[i])
  {
    CSharpForEachElementwise(h, elements);
  }

  /** An expression list is a new list of its elements' translations, in order. */
  lemma ExpressionListTranslation(h: Helpers, expressions: seq<Node>)
    requires CSharpFor(h, ExpressionListExpression(expressions)).Ok?
    ensures var parts := CSharpForEach(h, expressions).value;
            && CSharpFor(h, ExpressionListExpression(expressions)).value == "new JamList(" + h.seperateWithComma(parts) + ")"
            && |parts| == |expressions|
            && forall i | 0 <= i < |expressions| :: CSharpFor(h, expressions[i]) == Ok(parts[i])
  {
    CSharpForEachElementwise(h, expressions);
  }

  // ---------------------------------------------------------------------------
  // Lines

  /** A result with `prefix` written in front of its lines. */
  function After(prefix: seq<string>, r: Result<Emission, ConversionError>): Result<Emission, ConversionError> {
    match r
    case Ok(out) => Ok(out.(lines := prefix + out.lines))
    case Err(e) => Err(e)
  }

  /**
   * What a node emits does not depend on the lines already written: they stay in front, and
   * an exception is the same exception.
   */
  lemma {:induction false} NodeIgnoresWrittenLines(h: Helpers, node: Node, lines: seq<string>, variables: seq<string>)
    ensures ProcessNode(h, node, Emission(lines, variables)) == After(lines, ProcessNode(h, node, Emission([], variables)))
    decreases node, 1
  {
    match node
    case IfStatement(condition, body) =>
      if condition.VariableDereferenceExpression? && condition.variableExpression.LiteralExpression? {
        var header := IfHeader(condition.variableExpression.value);
        assert Emission(lines, variables).(lines := lines + [header]) == Emission(lines + [header], variables);
        assert Emission([], variables).(lines := [] + [header]) == Emission([header], variables);
        NodesIgnoreWrittenLines(h, body, lines + [header], variables);
        NodesIgnoreWrittenLines(h, body, [header], variables);
        var inner := ProcessNodes(h, body, Emission([], variables));
        if inner.Ok? {
          assert lines + [header] + inner.value.lines + ["}"] == lines + ([header] + inner.value.lines + ["}"]);
        }
      }
    case ExpressionStatement(expression) =>
      EchoIgnoresWrittenLines(h, expression, lines, variables);
      var echo := ProcessEcho(h, expression, Emission([], variables));
      if echo.Ok? && expression.AssignmentExpression? {
        var left, right := expression.left, expression.right;
        if left.LiteralExpression? && right.ExpressionListExpression? && LiteralValues(right.expressions).Ok? {
          var line := AssignmentLine(h, left.value, LiteralValues(right.expressions).value);
          assert lines + echo.value.lines + [line] == lines + (echo.value.lines + [line]);
        }
      }
    case _ =>
      assert lines + [] == lines;
  }

  lemma EchoIgnoresWrittenLines(h: Helpers, expression: Node, lines: seq<string>, variables: seq<string>)
    ensures ProcessEcho(h, expression, Emission(lines, variables)) == After(lines, ProcessEcho(h, expression, Emission([], variables)))
  {
    assert lines + [] == lines;
    match expression
    case InvocationExpression(rule, arguments) =>
      if rule.LiteralExpression? && rule.value == "Echo" && |arguments| > 0 &&
         arguments[0].ExpressionListExpression? && CSharpFor(h, arguments[0]).Ok? {
        var list := CSharpFor(h, arguments[0]).value;
        var written := ["System.Console.Write(" + list + ");", "System.Console.WriteLine();"];
        assert [] + written == written;
      }
    case _ =>
  }

  lemma {:induction false} NodesIgnoreWrittenLines(h: Helpers, nodes: seq<Node>, lines: seq<string>, variables: seq<string>)
    ensures ProcessNodes(h, nodes, Emission(lines, variables)) == After(lines, ProcessNodes(h, nodes, Emission([], variables)))
    decreases nodes, 0
  {
    if nodes == [] {
      assert lines + [] == lines;
    } else {
      NodeIgnoresWrittenLines(h, nodes[0], lines, variables);
      var first := ProcessNode(h, nodes[0], Emission([], variables));
      if first.Ok? {
        var e := first.value;
        NodesIgnoreWrittenLines(h, nodes[1..], lines + e.lines, e.variables);
        NodesIgnoreWrittenLines(h, nodes[1..], e.lines, e.variables);
        var rest := ProcessNodes(h, nodes[1..], Emission([], e.variables));
        if rest.Ok? {
          assert lines + e.lines + rest.value.lines == lines + (e.lines + rest.value.lines);
        }
      }
    }
  }

  /** Nodes are processed in order: a sequence of nodes is its first part, then the rest. */
  lemma {:induction false} NodesInOrder(h: Helpers, a: seq<Node>, b: seq<Node>, out: Emission)
    ensures ProcessNodes(h, a + b, out) == match ProcessNodes(h, a, out)
                                           case Ok(middle) => ProcessNodes(h, b, middle)
                                           case Err(e) => Err(e)
    decreases |a|
  {
    if a == [] {
      assert a + b == b;
    } else {
      assert (a + b)[0] == a[0] && (a + b)[1..] == a[1..] + b;
      var first := ProcessNode(h, a[0], out);
      if first.Ok? {
        NodesInOrder(h, a[1..], b, first.value);
      }
    }
  }

  /** An empty expression emits nothing. */
  lemma EmptyEmitsNothing(h: Helpers, out: Emission)
    ensures ProcessNode(h, EmptyExpression, out) == Ok(out)
  {
  }

  /**
   * An `if` on a variable succeeds exactly when its body does, and then emits its header, what
   * its body emits on its own, and `}`.
   */
  lemma IfEmitsHeaderBodyClose(h: Helpers, variableName: string, body: seq<Node>, out: Emission)
    ensures var inner := ProcessNodes(h, body, Emission([], out.variables));
            var r := ProcessNode(h, IfStatement(VariableDereferenceExpression(LiteralExpression(variableName)), body), out);
            && (r.Ok? <==> inner.Ok?)
            && (r.Ok? ==> r.value.lines == out.lines + [IfHeader(variableName)] + inner.value.lines + ["}"]
                          && r.value.variables == inner.value.variables)
  {
    NodesIgnoreWrittenLines(h, body, out.lines + [IfHeader(variableName)], out.variables);
  }

  /** `Echo` of an expression list writes the list and then a newline. */
  lemma EchoEmitsWriteAndWriteLine(h: Helpers, expressions: seq<Node>, rest: seq<Node>, out: Emission)
    requires CSharpFor(h, ExpressionListExpression(expressions)).Ok?
    ensures var echo := ExpressionStatement(InvocationExpression(LiteralExpression("Echo"), [ExpressionListExpression(expressions)] + rest));
            var list := CSharpFor(h, ExpressionListExpression(expressions)).value;
            ProcessNode(h, echo, out) ==
              Ok(out.(lines := out.lines + ["System.Console.Write(" + list + ");", "System.Console.WriteLine();"]))
  {
  }

  /**
   * An assignment of an expression list of literals to a literal name emits one line that
   * assigns the name a new list of the quoted values, and collects the name once; any other
   * assignment is an invalid cast.
   */
  lemma AssignmentEmitsLine(h: Helpers, left: Node, right: Node, out: Emission)
    ensures var r := ProcessNode(h, ExpressionStatement(AssignmentExpression(left, right)), out);
            if left.LiteralExpression? && right.ExpressionListExpression? && LiteralValues(right.expressions).Ok? then
              r == Ok(Emission(out.lines + [AssignmentLine(h, left.value, LiteralValues(right.expressions).value)],
                               AddOnce(out.variables, left.value)))
            else
              r == Err(InvalidCast)
  {
  }

  /** An invocation of any other rule emits nothing. */
  lemma OtherInvocationEmitsNothing(h: Helpers, rule: string, arguments: seq<Node>, out: Emission)
    requires rule != "Echo"
    ensures ProcessNode(h, ExpressionStatement(InvocationExpression(LiteralExpression(rule), arguments)), out) == Ok(out)
  {
  }

  // ---------------------------------------------------------------------------
  // Variables

  /** The variables assigned in a node, in the order `ProcessNode` meets them. */
  function AssignedIn(node: Node): seq<string>
    decreases node, 1
  {
    match node
    case IfStatement(_, body) => AssignedInAll(body)
    case ExpressionStatement(AssignmentExpression(LiteralExpression(name), _)) => [name]
    case _ => []
  }

  function AssignedInAll(nodes: seq<Node>): seq<string>
    decreases nodes, 0
  {
    if nodes == [] then [] else AssignedIn(nodes[0]) + AssignedInAll(nodes[1..])
  }

  /** `names` added one after the other, each unless already present. */
  function AddAllOnce(variables: seq<string>, names: seq<string>): seq<string>
    decreases |names|
  {
    if names == [] then variables else AddAllOnce(AddOnce(variables, names[0]), names[1..])
  }

  predicate Distinct<T(==)>(s: seq<T>) {
    forall i, j | 0 <= i < j < |s| :: s[i] != s[j]
  }

  lemma {:induction false} AddAllOnceConcat(variables: seq<string>, a: seq<string>, b: seq<string>)
    ensures AddAllOnce(variables, a + b) == AddAllOnce(AddAllOnce(variables, a), b)
    decreases |a|
  {
    if a == [] {
      assert a + b == b;
    } else {
      assert (a + b)[0] == a[0] && (a + b)[1..] == a[1..] + b;
      AddAllOnceConcat(AddOnce(variables, a[0]), a[1..], b);
    }
  }

  /** Adding names once keeps the list free of duplicates, and adds exactly those names. */
  lemma {:induction false} AddAllOnceDistinct(variables: seq<string>, names: seq<string>)
    requires Distinct(variables)
    ensures Distinct(AddAllOnce(variables, names))
    ensures forall v :: v in AddAllOnce(variables, names) <==> v in variables || v in names
    ensures |AddAllOnce(variables, names)| >= |variables|
    ensures AddAllOnce(variables, names)[..|variables|] == variables
    decreases |names|
  {
    if names != [] {
      var next := AddOnce(variables, names[0]);
      assert Distinct(next);
      AddAllOnceDistinct(next, names[1..]);
      assert forall v :: v in names <==> v == names[0] || v in names[1..];
      assert next[..|variables|] == variables;
    }
  }

  /** The variables a node collects are the ones assigned in it, each added once. */
  lemma {:induction false} NodeCollectsAssigned(h: Helpers, node: Node, out: Emission)
    requires ProcessNode(h, node, out).Ok?
    ensures ProcessNode(h, node, out).value.variables == AddAllOnce(out.variables, AssignedIn(node))
    decreases node, 1
  {
    if node.IfStatement? {
      var header := IfHeader(node.condition.variableExpression.value);
      NodesCollectAssigned(h, node.body, out.(lines := out.lines + [header]));
    } else if node.ExpressionStatement? && node.expression.AssignmentExpression? {
      assert [node.expression.left.value][1..] == [];
    }
  }

  lemma {:induction false} NodesCollectAssigned(h: Helpers, nodes: seq<Node>, out: Emission)
    requires ProcessNodes(h, nodes, out).Ok?
    ensures ProcessNodes(h, nodes, out).value.variables == AddAllOnce(out.variables, AssignedInAll(nodes))
    decreases nodes, 0
  {
    if nodes != [] {
      var first := ProcessNode(h, nodes[0], out).value;
      NodeCollectsAssigned(h, nodes[0], out);
      NodesCollectAssigned(h, nodes[1..], first);
      AddAllOnceConcat(out.variables, AssignedIn(nodes[0]), AssignedInAll(nodes[1..]));
    }
  }

  lemma DeclarationInjective(a: string, b: string)
    ensures a != b ==> "JamList " + a + ";\n" != "JamList " + b + ";\n"
  {
    var s, t := "JamList " + a + ";\n", "JamList " + b + ";\n";
    if s == t {
      assert a == s[8..|s| - 2];
      assert b == t[8..|t| - 2];
    }
  }

  /** Two declarations differ when the names do. */
  lemma DeclarationsDistinct(variables: seq<string>)
    requires Distinct(variables)
    ensures Distinct(Declarations(variables))
  {
    var d := Declarations(variables);
    forall i, j | 0 <= i < j < |d| ensures d[i] != d[j] {
      DeclarationInjective(variables[i], variables[j]);
    }
  }

  /**
   * `Convert` declares every assigned variable exactly once, in the order of first assignment,
   * one declaration per collected name.
   */
  lemma ConvertDeclaresAssignedOnce(h: Helpers, nodes: seq<Node>)
    requires Convert(h, nodes).Ok?
    ensures var out := ProcessNodes(h, nodes, Emission([], [])).value;
            && Convert(h, nodes) == Ok(Program(h, out))
            && out.variables == AddAllOnce([], AssignedInAll(nodes))
            && Distinct(out.variables)
            && (forall v :: v in out.variables <==> v in AssignedInAll(nodes))
            && |Declarations(out.variables)| == |out.variables|
            && Distinct(Declarations(out.variables))
  {
    var out := ProcessNodes(h, nodes, Emission([], [])).value;
    NodesCollectAssigned(h, nodes, Emission([], []));
    AddAllOnceDistinct([], AssignedInAll(nodes));
    DeclarationsDistinct(out.variables);
  }
}
