/**
 * The emitter of JamToCSharpConverter.cs as objects: `ProcessNode` appends to a string builder
 * and a name list as the source does, and is proved to produce what `ConverterSpec` says.
 */
module JamConverter {
  import opened Wrappers
  import opened ConverterSpec

  /** `StringBuilder` as far as the emitter uses it: lines appended with `AppendLine`. */
  class StringBuilder {
    var lines: seq<string>

    constructor ()
      ensures lines == []
    {
      lines := [];
    }

    method AppendLine(line: string)
      modifies this
      ensures lines == old(lines) + [line]
    {
      lines := lines + [line];
    }
  }

  /** `List<string>` as far as the emitter uses it. */
  class StringList {
    var items: seq<string>

    constructor ()
      ensures items == []
    {
      items := [];
    }

    method Contains(s: string) returns (b: bool)
      ensures b <==> s in items
    {
      b := s in items;
    }

    method Add(s: string)
      modifies this
      ensures items == old(items) + [s]
    {
      items := items + [s];
    }
  }

  class JamToCSharpConverter {
    const helpers: Helpers

    constructor (helpers: Helpers)
      ensures this.helpers == helpers
    {
      this.helpers := helpers;
    }

    /** `Convert`, over the nodes the parser yields until it returns null. */
    method Convert(nodes: seq<Node>) returns (r: Result<string, ConversionError>)
      ensures r == ConverterSpec.Convert(helpers, nodes)
    {
      var csharpbody := new StringBuilder();
      var variables := new StringList();
      var i := 0;
      while i < |nodes|
        invariant 0 <= i <= |nodes|
        invariant ProcessNodes(helpers, nodes, Emission([], [])) ==
                  ProcessNodes(helpers, nodes[i..], Emission(csharpbody.lines, variables.items))
        decreases |nodes| - i
      {
        assert nodes[i..][1..] == nodes[i + 1..];
        var processed := ProcessNode(nodes[i], csharpbody, variables);
        if processed.Err? {
          return Err(processed.error);
        }
        i := i + 1;
      }
      assert nodes[i..] == [];
      return Ok(Program(helpers, Emission(csharpbody.lines, variables.items)));
    }

    /** `ProcessNode`, appending to `csharpbody` and `variables`. */
    method ProcessNode(node: Node, csharpbody: StringBuilder, variables: StringList) returns (r: Result<(), ConversionError>)
      modifies csharpbody, variables
      ensures match ConverterSpec.ProcessNode(helpers, node, old(Emission(csharpbody.lines, variables.items)))
              case Ok(out) => r.Ok? && csharpbody.lines == out.lines && variables.items == out.variables
              case Err(e) => r == Err(e)
      decreases node
    {
      if node.EmptyExpression? {
        return Ok(());
      }

      if node.IfStatement? {
        var condition := node.condition;
        if !condition.VariableDereferenceExpression? || !condition.variableExpression.LiteralExpression? {
          return Err(InvalidCast);
        }
        var variableName := condition.variableExpression.value;
        csharpbody.AppendLine(IfHeader(variableName));

        ghost var start := Emission(csharpbody.lines, variables.items);
        var i := 0;
        while i < |node.body|
          invariant 0 <= i <= |node.body|
          invariant ProcessNodes(helpers, node.body, start) ==
                    ProcessNodes(helpers, node.body[i..], Emission(csharpbody.lines, variables.items))
          decreases |node.body| - i
        {
          assert node.body[i..][1..] == node.body[i + 1..];
          var processed := ProcessNode(node.body[i], csharpbody, variables);
          if processed.Err? {
            return Err(processed.error);
          }
          i := i + 1;
        }
        assert node.body[i..] == [];
        csharpbody.AppendLine("}");
        return Ok(());
      }

      if !node.ExpressionStatement? {
        // `expressionStatement` is null here.
        return Err(NullReference);
      }
      var expression := node.expression;

      if expression.InvocationExpression? {
        var rule := expression.ruleExpression;
        if !rule.LiteralExpression? {
          return Err(NullReference);
        }
        if rule.value == "Echo" {
          if |expression.arguments| == 0 {
            return Err(IndexOutOfRange);
          }
          var argument := expression.arguments[0];
          if argument.ExpressionListExpression? {
            var list :- CSharpFor(helpers, argument);
            csharpbody.AppendLine("System.Console.Write(" + list + ");");
            csharpbody.AppendLine("System.Console.WriteLine();");
          }
        }
      }

      if expression.AssignmentExpression? {
        var left := expression.left;
        if !left.LiteralExpression? {
          return Err(InvalidCast);
        }
        var variableName := left.value;
        var known := variables.Contains(variableName);
        if !known {
          variables.Add(variableName);
        }
        if !expression.right.ExpressionListExpression? {
          return Err(InvalidCast);
        }
        var values :- LiteralValues(expression.right.expressions);
        csharpbody.AppendLine(AssignmentLine(helpers, variableName, values));
      }
      return Ok(());
    }
  }
}
