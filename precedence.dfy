/**
 * Operator precedence and associativity of the expression grammar, over a stream that
 * lists a few tokens and then returns EOF: of `a op1 b op2 c`, the stronger operator takes
 * the middle operand, and of two equally strong operators the left one does.
 */
module OperatorPrecedence {
  import opened Wrappers
  import opened Tokens
  import opened Ast
  import opened Grammar

  /** The tokens of `tokens`, then `eof` for every later call. */
  function Listed(tokens: seq<Token>, eof: Token): (s: Stream)
    requires eof.kind == EOF
    ensures Bounded(s) && forall k: nat :: k < |tokens| ==> s.at(k) == tokens[k]
  {
    Stream((k: nat) => if k < |tokens| then tokens[k] else eof, |tokens|)
  }

  /** A token that parseInfixExpression handles: a binary operator. */
  predicate BinaryOperator(t: Token)
  {
    InfixRuleOf(t.kind) == Some(InfixOperatorRule)
  }

  /** A binary operator binds more strongly than LOWEST, so the expression loop takes it. */
  lemma OperatorBinds(k: TokenType)
    requires InfixRuleOf(k) == Some(InfixOperatorRule)
    ensures Value(PrecedenceOf(k)) > Value(Lowest) && k != SEMICOLON
  {
  }

  /** The identifier a token names. */
  function Named(t: Token): Node
  {
    Identifier(t.literal, PositionOf(t))
  }

  /** The infix node that parseInfixExpression builds for `operator`. */
  function Infix(left: Node, operator: Token, right: Node): Node
  {
    InfixExpression(left, operator.literal, right, PositionOf(operator))
  }

  /** The tree of `a op1 b op2 c`: the stronger operator takes `b`; of equal ones, the left. */
  function Nested(a: Token, op1: Token, b: Token, op2: Token, c: Token): Node
  {
    if Value(PrecedenceOf(op1.kind)) < Value(PrecedenceOf(op2.kind))
    then Infix(Named(a), op1, Infix(Named(b), op2, Named(c)))
    else Infix(Infix(Named(a), op1, Named(b)), op2, Named(c))
  }

  /** A token that ends an expression: `;` or the end of input. */
  predicate Terminator(t: Token)
  {
    t.kind == SEMICOLON || t.kind == EOF
  }

  /**
   * `a op1 b op2 c` followed by `;` or the end, read as one expression from `a`: the tree
   * is Nested, the cursor ends on `c` and no error is recorded.
   */
  lemma {:induction false} ThreeOperands(a: Token, op1: Token, b: Token, op2: Token, c: Token, end: Token, eof: Token, errors: seq<ParseError>)
    requires a.kind == IDENTIFIER && b.kind == IDENTIFIER && c.kind == IDENTIFIER
    requires BinaryOperator(op1) && BinaryOperator(op2) && Terminator(end) && eof.kind == EOF
    ensures ReadExpression(Listed([a, op1, b, op2, c, end], eof), ParseState(2, errors), Lowest) ==
      Parsed(Nested(a, op1, b, op2, c), ParseState(6, errors))
  {
    var s := Listed([a, op1, b, op2, c, end], eof);
    var p1, p2 := PrecedenceOf(op1.kind), PrecedenceOf(op2.kind);
    OperatorBinds(op1.kind);
    OperatorBinds(op2.kind);
    assert s.at(0) == a && s.at(1) == op1 && s.at(2) == b && s.at(3) == op2 && s.at(4) == c && s.at(5) == end;
    var st2, st3, st4, st5, st6 := ParseState(2, errors), ParseState(3, errors), ParseState(4, errors), ParseState(5, errors), ParseState(6, errors);
    // `c` stands alone before the terminator at either strength.
    OperatorsExit(s, st6, p2, Named(c));
    assert ReadExpression(s, st6, p2) == Parsed(Named(c), st6);
    assert ReadInfix(s, st5, Named(b)) == Parsed(Infix(Named(b), op2, Named(c)), st6);
    if Value(p1) < Value(p2) {
      OperatorsExit(s, st6, p1, Infix(Named(b), op2, Named(c)));
      assert ReadOperators(s, st4, p1, Named(b)) == Parsed(Infix(Named(b), op2, Named(c)), st6);
      assert ReadExpression(s, st4, p1) == Parsed(Infix(Named(b), op2, Named(c)), st6);
      assert ReadInfix(s, st3, Named(a)) == Parsed(Infix(Named(a), op1, Infix(Named(b), op2, Named(c))), st6);
      OperatorsExit(s, st6, Lowest, Infix(Named(a), op1, Infix(Named(b), op2, Named(c))));
      assert ReadOperators(s, st2, Lowest, Named(a)) == Parsed(Infix(Named(a), op1, Infix(Named(b), op2, Named(c))), st6);
    } else {
      OperatorsExit(s, st4, p1, Named(b));
      assert ReadExpression(s, st4, p1) == Parsed(Named(b), st4);
      assert ReadInfix(s, st3, Named(a)) == Parsed(Infix(Named(a), op1, Named(b)), st4);
      assert ReadInfix(s, st5, Infix(Named(a), op1, Named(b))) == Parsed(Infix(Infix(Named(a), op1, Named(b)), op2, Named(c)), st6);
      OperatorsExit(s, st6, Lowest, Infix(Infix(Named(a), op1, Named(b)), op2, Named(c)));
      assert ReadOperators(s, st4, Lowest, Infix(Named(a), op1, Named(b))) == Parsed(Infix(Infix(Named(a), op1, Named(b)), op2, Named(c)), st6);
      assert ReadOperators(s, st2, Lowest, Named(a)) == Parsed(Infix(Infix(Named(a), op1, Named(b)), op2, Named(c)), st6);
    }
  }

  /** The same as a statement: one expression statement at `a`, with the `;` consumed. */
  lemma ThreeOperandStatement(a: Token, op1: Token, b: Token, op2: Token, c: Token, end: Token, eof: Token, errors: seq<ParseError>)
    requires a.kind == IDENTIFIER && b.kind == IDENTIFIER && c.kind == IDENTIFIER
    requires BinaryOperator(op1) && BinaryOperator(op2) && Terminator(end) && eof.kind == EOF
    ensures ReadExpressionStatement(Listed([a, op1, b, op2, c, end], eof), ParseState(2, errors)) ==
      Parsed(ExpressionStatement(Nested(a, op1, b, op2, c), PositionOf(a)),
             ParseState(if end.kind == SEMICOLON then 7 else 6, errors))
  {
    var s := Listed([a, op1, b, op2, c, end], eof);
    ThreeOperands(a, op1, b, op2, c, end, eof, errors);
    assert s.at(0) == a && s.at(5) == end;
  }

  /** `a + b * c;` is `a + (b * c)`. */
  lemma ProductBindsTighterThanSum(a: Token, plus: Token, b: Token, times: Token, c: Token, end: Token, eof: Token)
    requires a.kind == IDENTIFIER && b.kind == IDENTIFIER && c.kind == IDENTIFIER
    requires plus.kind == PLUS && times.kind == ASTERISK && end.kind == SEMICOLON && eof.kind == EOF
    ensures ReadExpressionStatement(Listed([a, plus, b, times, c, end], eof), ParseState(2, [])) ==
      Parsed(ExpressionStatement(Infix(Named(a), plus, Infix(Named(b), times, Named(c))), PositionOf(a)), ParseState(7, []))
  {
    ThreeOperandStatement(a, plus, b, times, c, end, eof, []);
  }

  /** `a || b && c;` is `a || (b && c)`. */
  lemma AndBindsTighterThanOr(a: Token, or: Token, b: Token, and: Token, c: Token, end: Token, eof: Token)
    requires a.kind == IDENTIFIER && b.kind == IDENTIFIER && c.kind == IDENTIFIER
    requires or.kind == OR && and.kind == AND && end.kind == SEMICOLON && eof.kind == EOF
    ensures ReadExpressionStatement(Listed([a, or, b, and, c, end], eof), ParseState(2, [])) ==
      Parsed(ExpressionStatement(Infix(Named(a), or, Infix(Named(b), and, Named(c))), PositionOf(a)), ParseState(7, []))
  {
    ThreeOperandStatement(a, or, b, and, c, end, eof, []);
  }

  /** `a - b - c;` is `(a - b) - c`: operators of one strength group to the left. */
  lemma EqualStrengthGroupsLeft(a: Token, op1: Token, b: Token, op2: Token, c: Token, end: Token, eof: Token)
    requires a.kind == IDENTIFIER && b.kind == IDENTIFIER && c.kind == IDENTIFIER
    requires BinaryOperator(op1) && PrecedenceOf(op1.kind) == PrecedenceOf(op2.kind)
    requires end.kind == SEMICOLON && eof.kind == EOF
    ensures ReadExpressionStatement(Listed([a, op1, b, op2, c, end], eof), ParseState(2, [])) ==
      Parsed(ExpressionStatement(Infix(Infix(Named(a), op1, Named(b)), op2, Named(c)), PositionOf(a)), ParseState(7, []))
  {
    OperatorBinds(op1.kind);
    BindingTokensHaveInfixRules(op2.kind);
    ThreeOperandStatement(a, op1, b, op2, c, end, eof, []);
  }
}
