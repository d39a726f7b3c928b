/**
 * The syntax tree of the ast package. Every node class becomes one constructor of `Node`,
 * carrying the class's fields and the node's source position; a null child is the
 * `Missing` constructor. Nodes are values: the parser builds each node with its final position and
 * statement list instead of updating a node object after construction.
 */
module Ast {
  import opened Wrappers
  import opened Text

  /** Node.Position: a line and a column. */
  datatype Position = Position(line: int, column: int)

  /** The position every node has until setPosition is called. */
  const Origin := Position(0, 0)

  datatype Node =
    | Missing
    | Program(statements: seq<Node>, pos: Position)
    | BlockStatement(statements: seq<Node>, pos: Position)
    | ExpressionStatement(expression: Node, pos: Position)
    | VariableDeclaration(name: string, initializer: Node, pos: Position)
    | AssignmentStatement(name: string, value: Node, pos: Position)
    | IndexAssignmentStatement(target: Node, index: Node, value: Node, pos: Position)
    | FunctionDeclaration(name: string, parameters: seq<string>, body: Node, pos: Position)
    | IfStatement(condition: Node, consequence: Node, alternative: Node, pos: Position)
    | WhileStatement(condition: Node, body: Node, pos: Position)
    | ReturnStatement(value: Node, pos: Position)
    | Identifier(name: string, pos: Position)
    | NumberLiteral(number: real, pos: Position)
    | StringLiteral(text: string, pos: Position)
    | BooleanLiteral(truth: bool, pos: Position)
    | NullLiteral(pos: Position)
    | ArrayLiteral(elements: seq<Node>, pos: Position)
    | MapLiteral(pairs: seq<(Node, Node)>, pos: Position)
    | InfixExpression(left: Node, operator: string, right: Node, pos: Position)
    | PrefixExpression(operator: string, right: Node, pos: Position)
    | CallExpression(callee: Node, arguments: seq<Node>, pos: Position)
    | IndexExpression(target: Node, index: Node, pos: Position)

  /** Position.toString: the line, a colon, the column. */
  function PositionText(p: Position): (s: string)
    ensures IndexOf(s, ':') == |IntText(p.line)|
  {
    IntTextNoColon(p.line);
    var s := IntText(p.line) + ":" + IntText(p.column);
    assert s[|IntText(p.line)|] == ':';
    s
  }

  lemma IntTextNoColon(i: int)
    ensures ':' !in IntText(i) && ' ' !in IntText(i)
  {
    var n := if i < 0 then -i else i;
    assert IsDigits(NatText(n));
    if i < 0 {
      assert IntText(i) == "-" + NatText(n);
    }
  }

  /** Reads "line:column" back, splitting at the first colon. */
  function ParsePosition(s: string): Option<Position>
  {
    var k := IndexOf(s, ':');
    if k == |s| then None
    else match (IntValue(s[..k]), IntValue(s[k + 1..]))
      case (Some(l), Some(c)) => Some(Position(l, c))
      case _ => None
  }

  /** The rendering of a position determines it. */
  lemma PositionTextRoundTrip(p: Position)
    ensures ParsePosition(PositionText(p)) == Some(p)
  {
    var s := PositionText(p);
    var k := |IntText(p.line)|;
    assert s[..k] == IntText(p.line);
    assert s[k + 1..] == IntText(p.column);
    IntTextRoundTrip(p.line);
    IntTextRoundTrip(p.column);
  }

  /** setPosition: the node with its position replaced and every other field kept. */
  function SetPosition(n: Node, line: int, column: int): (r: Node)
    requires !n.Missing?
    ensures !r.Missing? && r.pos == Position(line, column)
    ensures r.(pos := n.pos) == n
  {
    n.(pos := Position(line, column))
  }

  /**
   * addStatement of Program and BlockStatement: a null statement is ignored, any other is
   * appended after the earlier ones.
   */
  function AddStatement(statements: seq<Node>, s: Node): (r: seq<Node>)
    ensures |r| == |statements| + (if s.Missing? then 0 else 1)
    ensures r[..|statements|] == statements
    ensures !s.Missing? ==> r[|statements|] == s
  {
    if s.Missing? then statements else statements + [s]
  }

  /** A list built by AddStatement alone never holds a null statement. */
  lemma {:induction false} AddStatementNeverAddsNull(statements: seq<Node>, s: Node)
    requires forall k :: 0 <= k < |statements| ==> !statements[k].Missing?
    ensures forall k :: 0 <= k < |AddStatement(statements, s)| ==> !AddStatement(statements, s)[k].Missing?
  {
    var r := AddStatement(statements, s);
    forall k | 0 <= k < |r|
      ensures !r[k].Missing?
    {
      if k < |statements| {
        assert r[k] == r[..|statements|][k];
      }
    }
  }

  /** The node classes that extend Statement; the others extend Expression. */
  predicate IsStatement(n: Node)
  {
    n.Program? || n.BlockStatement? || n.ExpressionStatement? || n.VariableDeclaration? ||
    n.AssignmentStatement? || n.IndexAssignmentStatement? || n.FunctionDeclaration? ||
    n.IfStatement? || n.WhileStatement? || n.ReturnStatement?
  }
}
