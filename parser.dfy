/**
 * The parser of parser/Parser.java: recursive descent for statements and a precedence loop
 * for expressions, reading through a token buffer that only grows. The lexer is called only
 * when the cursor is at the end of the buffer, so a statement parse can be undone by moving
 * the cursor back (a rewind) and parsed again from the same tokens.
 *
 * A null subtree is `Missing`. Errors are collected in a list that only grows; a rule that
 * fails records its error and returns `Missing` instead of stopping the parse.
 */
module Parsing {
  import opened Wrappers
  import opened Text
  import opened Tokens
  import LexSpec
  import opened Lexing
  import opened Ast
  import opened Grammar

  class Parser {
    const lexer: Lexer
    var tokens: seq<Token>          // every token read from the lexer, in order
    var currentPosition: nat        // index in `tokens` just past the peek token
    var errors: seq<ParseError>
    var currentToken: Token
    var peekToken: Token
    ghost const start: nat          // the lexer's cursor when the parser was made
    ghost const src: Stream         // the tokens the lexer returns from there on
    ghost const cursor: nat -> nat  // where the lexer stands after so many of them
    ghost const source: LexSource   // the two above, with the lexer's input, as one value

    /**
     * The buffer invariant: the buffer holds the first tokens of the lexer's stream and the
     * lexer stands just after them, the cursor lies inside the buffer, and the current and
     * peek tokens are the two buffer entries before the cursor.
     */
    ghost predicate Valid()
      reads this, lexer
    {
      lexer.Valid() && source == Source(lexer.input, src, cursor) &&
      lexer.position == cursor(|tokens|) && Buffered(src, tokens) &&
      2 <= currentPosition <= |tokens| &&
      peekToken == Peek(src, State()) && currentToken == Current(src, State()) &&
      (currentToken.kind != EOF ==> currentPosition - 2 < |lexer.input|) &&
      (peekToken.kind != EOF ==> currentPosition - 1 < |lexer.input|)
    }


    /** The cursor and the errors, as the grammar sees them. */
    ghost function State(): ParseState
      reads this
    {
      ParseState(currentPosition, errors)
    }

    /** The error list does not shrink and the cursor does not move back. */
    twostate predicate Grew()
      reads this
    {
      |old(errors)| <= |errors| && old(currentPosition) <= currentPosition
    }

    /** Termination measure: how far the cursor may still move before it passes every token. */
    ghost function Measure(): nat
      reads this
    {
      if currentPosition <= |lexer.input| + 2 then |lexer.input| + 2 - currentPosition else 0
    }

    /** The expression loop's exit condition for the binding strength `p`. */
    predicate Stops(p: Precedence)
      reads this
    {
      peekToken.kind == SEMICOLON || Value(PrecedenceOf(peekToken.kind)) <= Value(p)
    }

    /** A parser over `lexer`, with the first two tokens read (the two nextToken calls). */
    constructor (lexer: Lexer)
      requires lexer.Valid()
      modifies lexer
      ensures Valid() && this.lexer == lexer && src == LexStream(lexer.input, old(lexer.position))
      ensures errors == [] && |tokens| == 2 && currentPosition == 2
    {
      this.lexer := lexer;
      var input, p := lexer.input, lexer.position;
      start := p;
      ghost var x := LexSourceAt(input, p);
      source, src, cursor := x, x.stream, x.cursor;
      errors := [];
      tokens, currentPosition := [], 2;
      currentToken, peekToken := Token(EOF, "", 0, 0), Token(EOF, "", 0, 0);
      new;
      Prime();
    }

    /** The constructor's two nextToken calls, which fill the buffer's first two places. */
    method Prime()
      requires lexer.Valid() && source == Source(lexer.input, src, cursor) && lexer.position == cursor(0) && tokens == []
      modifies this, lexer
      ensures Valid() && |tokens| == 2 && currentPosition == 2 && errors == old(errors)
    {
      var first := Pull();
      BufferSnoc(src, [], first);
      tokens := [first];
      var second := Pull();
      BufferSnoc(src, [first], second);
      tokens := [first, second];
      currentPosition := 2;
      currentToken := first;
      peekToken := second;
    }

    /** One call of the lexer's nextToken: the token of the stream after those in the buffer. */
    method Pull() returns (next: Token)
      requires lexer.Valid() && source == Source(lexer.input, src, cursor) && lexer.position == cursor(|tokens|)
      modifies lexer
      ensures lexer.Valid() && next == src.at(|tokens|) && lexer.position == cursor(|tokens| + 1)
    {
      ghost var n := |tokens|;
      assert Sourced(source.input, source.stream, source.cursor);
      assert LexStep(lexer.input, cursor(n)) == (src.at(n), cursor(n + 1));
      next := lexer.NextToken();
    }

    /**
     * Moves one token on: the peek token becomes current, and the new peek token comes from
     * the buffer if the cursor is inside it, from the lexer (appended to the buffer) if not.
     */
    method NextToken()
      requires Valid()
      modifies this, lexer
      ensures Valid() && Grew() && errors == old(errors) && State() == Advance(old(State()))
      ensures currentPosition == old(currentPosition) + 1 && currentToken == old(peekToken)
      ensures old(currentToken).kind != EOF || currentToken.kind != EOF ==> Measure() < old(Measure())
      ensures old(currentPosition) < old(|tokens|) ==>
                tokens == old(tokens) && lexer.position == old(lexer.position)
      ensures old(currentPosition) == old(|tokens|) ==>
                tokens == old(tokens) + [peekToken]
    {
      if currentPosition < |tokens| {
        Replay();
      } else {
        ReadAhead();
      }
    }

    /** nextToken when the token after the peek token is already in the buffer. */
    method Replay()
      requires Valid() && currentPosition < |tokens|
      modifies this
      ensures Valid() && errors == old(errors) && tokens == old(tokens)
      ensures currentPosition == old(currentPosition) + 1 && currentToken == old(peekToken)
    {
      BufferedAt(src, tokens, currentPosition);
      currentPosition, currentToken, peekToken := currentPosition + 1, peekToken, tokens[currentPosition];
    }

    /** nextToken when the buffer is used up: one more token from the lexer. */
    method ReadAhead()
      requires Valid() && currentPosition == |tokens|
      modifies this, lexer
      ensures Valid() && errors == old(errors) && tokens == old(tokens) + [peekToken]
      ensures currentPosition == old(currentPosition) + 1 && currentToken == old(peekToken)
    {
      var next := Pull();
      BufferSnoc(src, tokens, next);
      tokens, currentPosition, currentToken, peekToken := tokens + [next], currentPosition + 1, peekToken, next;
    }

    /** Moves the cursor back to a saved position; the buffer is kept. */
    method Rewind(saved: nat)
      requires Valid() && 2 <= saved <= |tokens|
      modifies this
      ensures Valid() && currentPosition == saved
      ensures tokens == old(tokens) && errors == old(errors)
    {
      BufferedAt(src, tokens, saved - 1);
      BufferedAt(src, tokens, saved - 2);
      currentPosition, currentToken, peekToken := saved, tokens[saved - 2], tokens[saved - 1];
    }

    /** Appends one error to the error list; nothing else changes. */
    method AddError(e: ParseError)
      requires Valid()
      modifies this
      ensures Valid() && errors == old(errors) + [e] && State() == Record(old(State()), e)
      ensures tokens == old(tokens) && currentPosition == old(currentPosition)
      ensures currentToken == old(currentToken) && peekToken == old(peekToken)
    {
      errors := errors + [e];
    }

    /** Records that the peek token is not of the expected kind. */
    method PeekError(expected: TokenType)
      requires Valid()
      modifies this
      ensures Valid() && errors == old(errors) + [UnexpectedPeek(expected, peekToken)]
      ensures tokens == old(tokens) && currentPosition == old(currentPosition)
      ensures currentToken == old(currentToken) && peekToken == old(peekToken)
    {
      AddError(UnexpectedPeek(expected, peekToken));
    }

    /**
     * Advances exactly one token if the peek token has the expected kind; otherwise records
     * the error at the peek token and does not move.
     */
    method ExpectPeek(expected: TokenType) returns (ok: bool)
      requires Valid()
      modifies this, lexer
      ensures Valid() && Grew()
      ensures ok <==> old(peekToken).kind == expected
      ensures ok ==> currentPosition == old(currentPosition) + 1 && currentToken == old(peekToken) &&
                     errors == old(errors)
      ensures !ok ==> currentPosition == old(currentPosition) && tokens == old(tokens) &&
                      currentToken == old(currentToken) && peekToken == old(peekToken) &&
                      errors == old(errors) + [UnexpectedPeek(expected, old(peekToken))]
      ensures Parsed(ok, State()) == Expect(src, old(State()), expected)
    {
      if peekToken.kind == expected {
        NextToken();
        ok := true;
      } else {
        PeekError(expected);
        ok := false;
      }
    }

    /**
     * Parses the whole input: one statement per round until the current token is EOF. Null
     * statements are left out.
     */
    method ParseProgram() returns (program: Node)
      requires Valid()
      modifies this, lexer
      ensures Valid() && Grew() && currentToken.kind == EOF
      ensures program.Program? && program.pos == Origin
      ensures forall k :: 0 <= k < |program.statements| ==> !program.statements[k].Missing?
      ensures Parsed(program, State()) == ReadProgram(src, old(State()))
    {
      var statements: seq<Node> := [];
      while currentToken.kind != EOF
        invariant Valid() && Grew()
        invariant ReadStatements(src, State(), statements) == ReadStatements(src, old(State()), [])
        invariant forall k :: 0 <= k < |statements| ==> !statements[k].Missing?
        decreases Measure()
      {
        ghost var st := State();
        var s := ParseStatement();
        AddStatementNeverAddsNull(statements, s);
        statements := AddStatement(statements, s);
        NextToken();
      }
      program := Program(statements, Origin);
    }

    /**
     * Parses one statement, chosen by the current token. An identifier followed by `[` is
     * parsed ahead as far as the closing `]`; the cursor is then rewound to the identifier
     * and the statement parsed again, as an index assignment when `=` follows the `]` and as
     * an expression statement otherwise. Errors recorded while parsing ahead are kept.
     */
    method ParseStatement() returns (r: Node)
      requires Valid()
      modifies this, lexer
      ensures Valid() && Grew()
      ensures StatementShape(old(currentToken), old(peekToken), r)
      ensures !r.Missing? && !(old(currentToken).kind == IDENTIFIER && old(peekToken).kind == LBRACKET) ==>
                r.pos == PositionOf(old(currentToken))
      decreases Measure(), 12
      ensures Parsed(r, State()) == ReadStatement(src, old(State()))
    {
      var kind := currentToken.kind;
      if kind == LET {
        r := ParseVariableDeclaration();
      } else if kind == DEF {
        r := ParseFunctionDeclaration();
      } else if kind == IF {
        r := ParseIfStatement();
      } else if kind == WHILE {
        r := ParseWhileStatement();
      } else if kind == RETURN {
        r := ParseReturnStatement();
      } else if kind == LBRACE {
        r := ParseBlockStatement();
      } else {
        r := ParseSimpleStatement();
      }
    }

    /**
     * The default case of parseStatement: an index assignment or an assignment when the
     * identifier is followed by `[` or `=`, an expression statement otherwise.
     */
    method ParseSimpleStatement() returns (r: Node)
      requires Valid()
      modifies this, lexer
      ensures Valid() && Grew()
      ensures if old(currentToken).kind == IDENTIFIER && old(peekToken).kind == LBRACKET then
                r.Missing? || r.IndexAssignmentStatement? || r.ExpressionStatement?
              else if old(currentToken).kind == IDENTIFIER && old(peekToken).kind == ASSIGN then
                r.AssignmentStatement? && r.name == old(currentToken).literal && r.pos == PositionOf(old(currentToken))
              else
                r.ExpressionStatement? && r.pos == PositionOf(old(currentToken))
      decreases Measure(), 11
      ensures Parsed(r, State()) == ReadSimpleStatement(src, old(State()))
    {
      if currentToken.kind == IDENTIFIER && peekToken.kind == LBRACKET {
        r := ParseIndexedStatement();
      } else if currentToken.kind == IDENTIFIER && peekToken.kind == ASSIGN {
        r := ParseAssignmentStatement();
      } else {
        r := ParseExpressionStatement();
      }
    }

    /**
     * The statement that starts with an identifier and `[`: parsed ahead as far as the
     * closing `]`, then rewound to the identifier and parsed again, as an index assignment
     * when `=` follows the `]` and as an expression statement otherwise.
     */
    method ParseIndexedStatement() returns (r: Node)
      requires Valid() && currentToken.kind == IDENTIFIER && peekToken.kind == LBRACKET
      modifies this, lexer
      ensures Valid() && Grew()
      ensures r.Missing? || r.IndexAssignmentStatement? || r.ExpressionStatement?
      decreases Measure(), 10
      ensures Parsed(r, State()) == ReadIndexedStatement(src, old(State()))
    {
      var savedPosition := currentPosition;
      NextToken();
      if currentToken.kind != LBRACKET {
        // The peek token was `[`, so after one step it is the current token.
        assert false;
      }
      NextToken();
      var index := ParseExpression(Lowest);
      var closed := ExpectPeek(RBRACKET);
      if !closed {
        Rewind(savedPosition);
        r := ParseExpressionStatement();
        return;
      }
      if peekToken.kind == ASSIGN {
        Rewind(savedPosition);
        r := ParseIndexAssignmentStatement();
      } else {
        Rewind(savedPosition);
        r := ParseExpressionStatement();
      }
    }

    /** `let name = expression`, with an optional `;`, positioned at `let`. */
    method ParseVariableDeclaration() returns (r: Node)
      requires Valid()
      modifies this, lexer
      ensures Valid() && Grew()
      ensures r.Missing? || (r.VariableDeclaration? && r.pos == PositionOf(old(currentToken)) &&
                             r.name == old(peekToken).literal)
      decreases Measure(), 9
      ensures Parsed(r, State()) == ReadDeclaration(src, old(State()))
    {
      var token := currentToken;
      var ok := ExpectPeek(IDENTIFIER);
      if !ok {
        return Missing;
      }
      var name := currentToken.literal;
      ok := ExpectPeek(ASSIGN);
      if !ok {
        return Missing;
      }
      var initializer := ParseAssignedValue();
      r := VariableDeclaration(name, initializer, PositionOf(token));
    }

    /**
     * The expression after the `=` of a declaration or an assignment, with the optional `;`
     * after it; the current token is the `=`.
     */
    method ParseAssignedValue() returns (value: Node)
      requires Valid()
      modifies this, lexer
      ensures Valid() && Grew() && currentPosition > old(currentPosition)
      decreases Measure(), 8
      ensures Parsed(value, State()) == ReadAssignedValue(src, old(State()))
    {
      NextToken();
      value := ParseExpression(Lowest);
      if peekToken.kind == SEMICOLON {
        NextToken();
      }
    }

    /** `def name(parameters) { body }`, positioned at `def`. */
    method ParseFunctionDeclaration() returns (r: Node)
      requires Valid()
      modifies this, lexer
      ensures Valid() && Grew()
      ensures r.Missing? || (r.FunctionDeclaration? && r.pos == PositionOf(old(currentToken)) &&
                             r.name == old(peekToken).literal)
      decreases Measure(), 9
      ensures Parsed(r, State()) == ReadFunctionDeclaration(src, old(State()))
    {
      var token := currentToken;
      var ok := ExpectPeek(IDENTIFIER);
      if !ok {
        return Missing;
      }
      var name := currentToken.literal;
      ok := ExpectPeek(LPAREN);
      if !ok {
        return Missing;
      }
      var parameters := ParseFunctionParameters();
      ok := ExpectPeek(LBRACE);
      if !ok {
        return Missing;
      }
      var body := ParseBlockStatement();
      // FunctionDeclaration's constructor turns a null parameter list into an empty one.
      r := FunctionDeclaration(name, if parameters.Some? then parameters.value else [], body, PositionOf(token));
    }

    /**
     * The parameter names after `(`: the literal of every other token, whatever its kind,
     * for as long as a comma follows, then `)`. None (null) when the `)` is missing.
     */
    method ParseFunctionParameters() returns (parameters: Option<seq<string>>)
      requires Valid()
      modifies this, lexer
      ensures Valid() && Grew()
      ensures errors == old(errors) ==> parameters.Some?
      ensures parameters.Some? ==> currentToken.kind == RPAREN
      ensures parameters.Some? ==>
                currentPosition == old(currentPosition) + 2 * |parameters.value| + (if parameters.value == [] then 1 else 0)
      ensures Parsed(parameters, State()) == ReadParameters(src, old(State()))
    {
      if peekToken.kind == RPAREN {
        NextToken();
        return Some([]);
      }
      NextToken();
      var names := ParseMoreNames([currentToken.literal]);
      var ok := ExpectPeek(RPAREN);
      if !ok {
        return None;
      }
      parameters := Some(names);
    }

    /** The loop of parseFunctionParameters: `, name` while the peek token is a comma. */
    method ParseMoreNames(names: seq<string>) returns (more: seq<string>)
      requires Valid()
      modifies this, lexer
      ensures Valid() && Grew() && errors == old(errors)
      ensures currentPosition == old(currentPosition) + 2 * (|more| - |names|)
      ensures Parsed(more, State()) == ReadNames(src, old(State()), names)
    {
      more := names;
      while peekToken.kind == COMMA
        invariant Valid() && Grew() && errors == old(errors)
        invariant ReadNames(src, State(), more) == ReadNames(src, old(State()), names)
        invariant currentPosition == old(currentPosition) + 2 * (|more| - |names|)
        decreases Measure()
      {
        NextToken();
        NextToken();
        more := more + [currentToken.literal];
      }
      NamesExit(src, State(), more);
    }

    /** `if (condition) { ... }` with an optional `else { ... }`, positioned at `if`. */
    method ParseIfStatement() returns (r: Node)
      requires Valid()
      modifies this, lexer
      ensures Valid() && Grew()
      ensures r.Missing? || (r.IfStatement? && r.pos == PositionOf(old(currentToken)))
      decreases Measure(), 9
      ensures Parsed(r, State()) == ReadIf(src, old(State()))
    {
      var token := currentToken;
      var ok := ExpectPeek(LPAREN);
      if !ok {
        return Missing;
      }
      NextToken();
      var condition := ParseExpression(Lowest);
      ok := ExpectPeek(RPAREN);
      if !ok {
        return Missing;
      }
      ok := ExpectPeek(LBRACE);
      if !ok {
        return Missing;
      }
      var consequence := ParseBlockStatement();
      r := ParseElseBranch(condition, consequence, token);
    }

    /** The rest of parseIfStatement: an optional `else { ... }`, positioned at the consequence's `}`. */
    method ParseElseBranch(condition: Node, consequence: Node, token: Token) returns (r: Node)
      requires Valid()
      modifies this, lexer
      ensures Valid() && Grew()
      ensures r.Missing? || (r.IfStatement? && r.pos == PositionOf(token))
      decreases Measure(), 9
      ensures Parsed(r, State()) == ReadElse(src, old(State()), condition, consequence, token)
    {
      if peekToken.kind == ELSE {
        r := ParseElseBlock(condition, consequence, token);
      } else {
        r := IfStatement(condition, consequence, Missing, PositionOf(token));
      }
    }

    /** The `else { ... }` of parseIfStatement, positioned at the consequence's `}` before `else`. */
    method ParseElseBlock(condition: Node, consequence: Node, token: Token) returns (r: Node)
      requires Valid() && peekToken.kind == ELSE
      modifies this, lexer
      ensures Valid() && Grew()
      ensures r.Missing? || (r.IfStatement? && r.pos == PositionOf(token))
      decreases Measure(), 8
      ensures Parsed(r, State()) == ReadElse(src, old(State()), condition, consequence, token)
    {
      NextToken();
      var ok := ExpectPeek(LBRACE);
      if !ok {
        return Missing;
      }
      var alternative := ParseBlockStatement();
      r := IfStatement(condition, consequence, alternative, PositionOf(token));
    }

    /**
     * `return`, then an expression unless the next token is `;`, then an optional `;`. The
     * value of a bare `return;` is null.
     */
    method ParseReturnStatement() returns (r: Node)
      requires Valid()
      modifies this, lexer
      ensures Valid() && Grew()
      ensures r.ReturnStatement? && r.pos == PositionOf(old(currentToken))
      ensures old(peekToken).kind == SEMICOLON ==> r.value == Missing
      decreases Measure(), 9
      ensures Parsed(r, State()) == ReadReturn(src, old(State()))
    {
      var token := currentToken;
      NextToken();
      var value := Missing;
      if currentToken.kind != SEMICOLON {
        value := ParseExpression(Lowest);
      }
      if peekToken.kind == SEMICOLON {
        NextToken();
      }
      r := ReturnStatement(value, PositionOf(token));
    }

    /** `while (condition) { ... }`, positioned at `while`. */
    method ParseWhileStatement() returns (r: Node)
      requires Valid()
      modifies this, lexer
      ensures Valid() && Grew()
      ensures r.Missing? || (r.WhileStatement? && r.pos == PositionOf(old(currentToken)))
      decreases Measure(), 9
      ensures Parsed(r, State()) == ReadWhile(src, old(State()))
    {
      var token := currentToken;
      var ok := ExpectPeek(LPAREN);
      if !ok {
        return Missing;
      }
      NextToken();
      var condition := ParseExpression(Lowest);
      ok := ExpectPeek(RPAREN);
      if !ok {
        return Missing;
      }
      ok := ExpectPeek(LBRACE);
      if !ok {
        return Missing;
      }
      var body := ParseBlockStatement();
      r := WhileStatement(condition, body, PositionOf(token));
    }

    /**
     * The statements after the current `{` up to the matching `}`. Reaching EOF first
     * records "Expected '}' ..." at the EOF token and yields null.
     */
    method ParseBlockStatement() returns (r: Node)
      requires Valid()
      modifies this, lexer
      ensures Valid() && Grew()
      ensures r.Missing? ==> currentToken.kind == EOF && |errors| > 0 &&
                             errors[|errors| - 1] == BlockError(currentToken)
      ensures !r.Missing? ==> currentToken.kind == RBRACE && r.BlockStatement? &&
                              r.pos == PositionOf(old(currentToken)) &&
                              forall k :: 0 <= k < |r.statements| ==> !r.statements[k].Missing?
      decreases Measure(), 9
      ensures Parsed(r, State()) == ReadBlock(src, old(State()))
    {
      var token := currentToken;
      NextToken();
      if currentToken.kind == EOF {
        // The loop's exit test before its first round: the block ends at EOF.
        AddError(BlockError(currentToken));
        return Missing;
      }
      r := ParseBlockStatements(token);
    }

    /**
     * The loop of parseBlockStatement: statements up to `}` or EOF, then the block that
     * `open` began, or the error at EOF.
     */
    method ParseBlockStatements(open: Token) returns (r: Node)
      requires Valid()
      modifies this, lexer
      ensures Valid() && Grew()
      ensures r.Missing? ==> currentToken.kind == EOF && |errors| > 0 &&
                             errors[|errors| - 1] == BlockError(currentToken)
      ensures !r.Missing? ==> currentToken.kind == RBRACE && r.BlockStatement? &&
                              r.pos == PositionOf(open) &&
                              forall k :: 0 <= k < |r.statements| ==> !r.statements[k].Missing?
      decreases Measure(), 14
      ensures Parsed(r, State()) == ReadBlockStatements(src, old(State()), [], open)
    {
      var statements: seq<Node> := [];
      while currentToken.kind != RBRACE && currentToken.kind != EOF
        invariant Valid() && Grew()
        invariant forall k :: 0 <= k < |statements| ==> !statements[k].Missing?
        invariant ReadBlockStatements(src, State(), statements, open) == ReadBlockStatements(src, old(State()), [], open)
        decreases Measure()
      {
        statements := ParseBlockRound(statements, open);
      }
      BlockExit(src, State(), statements, open);
      r := ParseBlockEnd(statements, open);
    }

    /** After the block loop: the block at `}`, an error at EOF. */
    method ParseBlockEnd(statements: seq<Node>, open: Token) returns (r: Node)
      requires Valid() && (currentToken.kind == RBRACE || currentToken.kind == EOF)
      modifies this
      ensures Valid() && Grew()
      ensures r.Missing? ==> currentToken.kind == EOF && |errors| > 0 &&
                             errors[|errors| - 1] == BlockError(currentToken)
      ensures !r.Missing? ==> currentToken.kind == RBRACE && r == BlockStatement(statements, PositionOf(open))
      ensures Parsed(r, State()) == BlockEnd(src, old(State()), statements, open)
    {
      if currentToken.kind != RBRACE {
        AddError(BlockError(currentToken));
        return Missing;
      }
      r := BlockStatement(statements, PositionOf(open));
    }

    /** One round of the block loop: a statement, kept unless null, then one token on. */
    method ParseBlockRound(statements: seq<Node>, open: Token) returns (more: seq<Node>)
      requires Valid() && currentToken.kind != RBRACE && currentToken.kind != EOF
      requires forall k :: 0 <= k < |statements| ==> !statements[k].Missing?
      modifies this, lexer
      ensures Valid() && Grew() && Measure() < old(Measure())
      ensures forall k :: 0 <= k < |more| ==> !more[k].Missing?
      decreases Measure(), 13
      ensures ReadBlockStatements(src, State(), more, open) == ReadBlockStatements(src, old(State()), statements, open)
    {
      BlockRound(src, State(), statements, open);
      var s := ParseStatement();
      AddStatementNeverAddsNull(statements, s);
      more := AddStatement(statements, s);
      NextToken();
    }

    /** An expression with an optional `;`, positioned at its first token. */
    method ParseExpressionStatement() returns (r: Node)
      requires Valid()
      modifies this, lexer
      ensures Valid() && Grew()
      ensures r.ExpressionStatement? && r.pos == PositionOf(old(currentToken))
      decreases Measure(), 9
      ensures Parsed(r, State()) == ReadExpressionStatement(src, old(State()))
    {
      var token := currentToken;
      var expression := ParseExpression(Lowest);
      if peekToken.kind == SEMICOLON {
        NextToken();
      }
      r := ExpressionStatement(expression, PositionOf(token));
    }

    /**
     * The precedence loop: a prefix rule for the current token, then, while the peek token
     * is not `;` and binds more strongly than `precedence`, the peek token's infix rule
     * applied to the expression so far. A token with no prefix rule is an error.
     *
     * On return the peek token does not bind more strongly than `precedence`. An infix
     * rule parses its right operand with the operator's own strength, so the next operator
     * of equal strength is left for this loop: operators associate to the left, and a
     * stronger operator is taken into the right operand.
     */
    method ParseExpression(precedence: Precedence) returns (r: Node)
      requires Valid()
      modifies this, lexer
      ensures Valid() && Grew()
      ensures PrefixRuleOf(old(currentToken).kind).None? ==>
                r == Missing && currentPosition == old(currentPosition) &&
                errors == old(errors) + [NoPrefixError(old(currentToken))]
      ensures PrefixRuleOf(old(currentToken).kind).Some? ==> Stops(precedence)
      decreases Measure(), 5
      ensures Parsed(r, State()) == ReadExpression(src, old(State()), precedence)
    {
      var prefix := PrefixRuleOf(currentToken.kind);
      if prefix.None? {
        AddError(NoPrefixError(currentToken));
        return Missing;
      }
      var left := ParsePrefix();
      r := ParseOperators(precedence, left);
    }

    /** The loop of parseExpression: infix rules while the peek token binds more strongly than `precedence`. */
    method ParseOperators(precedence: Precedence, left: Node) returns (r: Node)
      requires Valid()
      modifies this, lexer
      ensures Valid() && Grew() && Stops(precedence)
      decreases Measure(), 4
      ensures Parsed(r, State()) == ReadOperators(src, old(State()), precedence, left)
    {
      r := left;
      while peekToken.kind != SEMICOLON && Value(precedence) < Value(PrecedenceOf(peekToken.kind))
        invariant Valid() && Grew()
        invariant ReadOperators(src, State(), precedence, r) == ReadOperators(src, old(State()), precedence, left)
        decreases Measure()
      {
        r := ParseOperator(precedence, r);
      }
      OperatorsExit(src, State(), precedence, r);
    }

    /** One round of the expression loop: the peek token's infix rule applied to `left`. */
    method ParseOperator(precedence: Precedence, left: Node) returns (r: Node)
      requires Valid() && peekToken.kind != SEMICOLON && Value(precedence) < Value(PrecedenceOf(peekToken.kind))
      modifies this, lexer
      ensures Valid() && Grew() && Measure() < old(Measure())
      decreases Measure(), 3
      ensures ReadOperators(src, State(), precedence, r) == ReadOperators(src, old(State()), precedence, left)
    {
      var infix := InfixRuleOf(peekToken.kind);
      if infix.None? {
        BindingTokensHaveInfixRules(peekToken.kind);
        assert false;
      }
      NextToken();
      r := ParseInfix(left);
    }

    /** Applies the prefix rule registered for the current token. */
    method ParsePrefix() returns (r: Node)
      requires Valid() && PrefixRuleOf(currentToken.kind).Some?
      modifies this, lexer
      ensures Valid() && Grew()
      decreases Measure(), 4
      ensures Parsed(r, State()) == ReadPrefix(src, old(State()))
    {
      match PrefixRuleOf(currentToken.kind).value {
        case IdentifierRule => r := ParseIdentifier();
        case NumberRule => r := ParseNumberLiteral();
        case StringRule => r := ParseStringLiteral();
        case BooleanRule => r := ParseBooleanLiteral();
        case NullRule => r := ParseNullLiteral();
        case GroupedRule => r := ParseGroupedExpression();
        case PrefixOperatorRule => r := ParsePrefixExpression();
        case ArrayRule => r := ParseArrayLiteral();
      }
    }

    /** Applies the infix rule registered for the current token to `left`. */
    method ParseInfix(left: Node) returns (r: Node)
      requires Valid() && InfixRuleOf(currentToken.kind).Some?
      modifies this, lexer
      ensures Valid() && Grew()
      decreases Measure(), 4
      ensures Parsed(r, State()) == ReadInfix(src, old(State()), left)
    {
      match InfixRuleOf(currentToken.kind).value {
        case InfixOperatorRule => r := ParseInfixExpression(left);
        case CallRule => r := ParseCallExpression(left);
        case IndexRule => r := ParseIndexExpression(left);
      }
    }

    function ParseIdentifier(): (r: Node)
      reads this
      ensures r.Identifier? && r.name == currentToken.literal && r.pos == PositionOf(currentToken)
    {
      Identifier(currentToken.literal, PositionOf(currentToken))
    }

    /** The number's value, or an error when the literal is not number text. */
    method ParseNumberLiteral() returns (r: Node)
      requires Valid()
      modifies this
      ensures Valid() && tokens == old(tokens) && currentPosition == old(currentPosition)
      ensures currentToken == old(currentToken) && peekToken == old(peekToken)
      ensures DecimalValue(currentToken.literal).Some? ==>
                r == NumberLiteral(DecimalValue(currentToken.literal).value, PositionOf(currentToken)) &&
                errors == old(errors)
      ensures DecimalValue(currentToken.literal).None? ==>
                r == Missing && errors == old(errors) + [NumberError(currentToken)]
      ensures Parsed(r, State()) == ReadNumber(src, old(State()))
    {
      var value := DecimalValue(currentToken.literal);
      if value.None? {
        AddError(NumberError(currentToken));
        return Missing;
      }
      r := NumberLiteral(value.value, PositionOf(currentToken));
    }

    function ParseStringLiteral(): (r: Node)
      reads this
      ensures r.StringLiteral? && r.text == currentToken.literal && r.pos == PositionOf(currentToken)
    {
      StringLiteral(currentToken.literal, PositionOf(currentToken))
    }

    /** True exactly when the token is TRUE. */
    function ParseBooleanLiteral(): (r: Node)
      reads this
      ensures r.BooleanLiteral? && (r.truth <==> currentToken.kind == TRUE) && r.pos == PositionOf(currentToken)
    {
      BooleanLiteral(currentToken.kind == TRUE, PositionOf(currentToken))
    }

    function ParseNullLiteral(): (r: Node)
      reads this
      ensures r.NullLiteral? && r.pos == PositionOf(currentToken)
    {
      NullLiteral(PositionOf(currentToken))
    }

    /** `( expression )`: the inner expression itself, or null when the `)` is missing. */
    method ParseGroupedExpression() returns (r: Node)
      requires Valid() && currentToken.kind != EOF
      modifies this, lexer
      ensures Valid() && Grew()
      ensures !r.Missing? ==> currentToken.kind == RPAREN
      decreases Measure(), 3
      ensures Parsed(r, State()) == ReadGrouped(src, old(State()))
    {
      NextToken();
      var expression := ParseExpression(Lowest);
      var ok := ExpectPeek(RPAREN);
      if !ok {
        return Missing;
      }
      r := expression;
    }

    /** `-` or `!` applied to an operand parsed at PREFIX strength. */
    method ParsePrefixExpression() returns (r: Node)
      requires Valid() && currentToken.kind != EOF
      modifies this, lexer
      ensures Valid() && Grew()
      ensures r.PrefixExpression? && r.operator == old(currentToken).literal &&
              r.pos == PositionOf(old(currentToken))
      ensures errors == old(errors) ==> Stops(Prefix)
      decreases Measure(), 3
      ensures Parsed(r, State()) == ReadPrefixExpression(src, old(State()))
    {
      var token := currentToken;
      NextToken();
      var right := ParseExpression(Prefix);
      r := PrefixExpression(token.literal, right, PositionOf(token));
    }

    /**
     * The operator, then the right operand parsed at the operator's own strength: on return
     * the peek token binds no more strongly than the operator.
     */
    method ParseInfixExpression(left: Node) returns (r: Node)
      requires Valid() && currentToken.kind != EOF
      modifies this, lexer
      ensures Valid() && Grew()
      ensures r.InfixExpression? && r.left == left && r.operator == old(currentToken).literal &&
              r.pos == PositionOf(old(currentToken))
      ensures errors == old(errors) ==> Stops(PrecedenceOf(old(currentToken).kind))
      decreases Measure(), 3
      ensures Parsed(r, State()) == ReadInfixExpression(src, old(State()), left)
    {
      var token := currentToken;
      var precedence := PrecedenceOf(currentToken.kind);
      NextToken();
      var right := ParseExpression(precedence);
      r := InfixExpression(left, token.literal, right, PositionOf(token));
    }

    /** A call of `callee` with the arguments after `(`; a missing `)` leaves none. */
    method ParseCallExpression(callee: Node) returns (r: Node)
      requires Valid() && currentToken.kind != EOF
      modifies this, lexer
      ensures Valid() && Grew()
      ensures r.CallExpression? && r.callee == callee && r.pos == PositionOf(old(currentToken))
      decreases Measure(), 3
      ensures Parsed(r, State()) == ReadCall(src, old(State()), callee)
    {
      var token := currentToken;
      var arguments := ParseList(RPAREN);
      // CallExpression's constructor turns a null argument list into an empty one.
      r := CallExpression(callee, if arguments.Some? then arguments.value else [], PositionOf(token));
    }


    /** `[ elements ]`, positioned at `[`; a missing `]` leaves no elements. */
    method ParseArrayLiteral() returns (r: Node)
      requires Valid() && currentToken.kind != EOF
      modifies this, lexer
      ensures Valid() && Grew()
      ensures r.ArrayLiteral? && r.pos == PositionOf(old(currentToken))
      decreases Measure(), 3
      ensures Parsed(r, State()) == ReadArray(src, old(State()))
    {
      var token := currentToken;
      var elements := ParseList(RBRACKET);
      // ArrayLiteral's constructor turns a null element list into an empty one.
      r := ArrayLiteral(if elements.Some? then elements.value else [], PositionOf(token));
    }


    /**
     * The loop shared by parseCallArguments and parseArrayElements: an immediate `close`
     * gives the empty list; otherwise expressions separated by commas, then `close`.
     */
    method ParseList(close: TokenType) returns (items: Option<seq<Node>>)
      requires Valid() && currentToken.kind != EOF
      modifies this, lexer
      ensures Valid() && Grew()
      ensures items.Some? ==> currentToken.kind == close
      ensures errors == old(errors) ==> items.Some?
      decreases Measure(), 2
      ensures Parsed(items, State()) == ReadList(src, old(State()), close)
    {
      if peekToken.kind == close {
        NextToken();
        return Some([]);
      }
      NextToken();
      var first := ParseExpression(Lowest);
      var list := ParseMoreItems([first]);
      var ok := ExpectPeek(close);
      if !ok {
        return None;
      }
      items := Some(list);
    }

    /** The `, item` repetitions of a list, appended to `list`; stops before the first token that is not a comma. */
    method ParseMoreItems(list: seq<Node>) returns (items: seq<Node>)
      requires Valid()
      modifies this, lexer
      ensures Valid() && Grew() && |items| >= |list|
      ensures peekToken.kind != COMMA
      decreases Measure(), 1
      ensures Parsed(items, State()) == ReadMoreItems(src, old(State()), list)
    {
      items := list;
      while peekToken.kind == COMMA
        invariant Valid() && Grew() && |items| >= |list|
        invariant ReadMoreItems(src, State(), items) == ReadMoreItems(src, old(State()), list)
        decreases Measure()
      {
        items := ParseItem(items);
      }
      MoreItemsExit(src, State(), items);
    }

    /** One round of the list loop: the comma, then the next item appended. */
    method ParseItem(items: seq<Node>) returns (more: seq<Node>)
      requires Valid() && peekToken.kind == COMMA
      modifies this, lexer
      ensures Valid() && Grew() && Measure() < old(Measure()) && |more| == |items| + 1
      decreases Measure(), 0
      ensures ReadMoreItems(src, State(), more) == ReadMoreItems(src, old(State()), items)
    {
      NextToken();
      NextToken();
      var next := ParseExpression(Lowest);
      more := items + [next];
    }

    /** `target[index]`, positioned at `[`; null when the `]` is missing. */
    method ParseIndexExpression(target: Node) returns (r: Node)
      requires Valid() && currentToken.kind != EOF
      modifies this, lexer
      ensures Valid() && Grew()
      ensures r.Missing? || (r.IndexExpression? && r.target == target && r.pos == PositionOf(old(currentToken)))
      ensures errors == old(errors) ==> !r.Missing?
      decreases Measure(), 3
      ensures Parsed(r, State()) == ReadIndex(src, old(State()), target)
    {
      var token := currentToken;
      NextToken();
      var index := ParseExpression(Lowest);
      var ok := ExpectPeek(RBRACKET);
      if !ok {
        return Missing;
      }
      r := IndexExpression(target, index, PositionOf(token));
    }

    /** `name = expression` with an optional `;`, positioned at the name. */
    method ParseAssignmentStatement() returns (r: Node)
      requires Valid()
      modifies this, lexer
      ensures Valid() && Grew()
      ensures r.Missing? || (r.AssignmentStatement? && r.name == old(currentToken).literal &&
                             r.pos == PositionOf(old(currentToken)))
      ensures old(peekToken).kind == ASSIGN ==> r.AssignmentStatement?
      decreases Measure(), 9
      ensures Parsed(r, State()) == ReadAssignment(src, old(State()))
    {
      var token := currentToken;
      var name := currentToken.literal;
      var ok := ExpectPeek(ASSIGN);
      if !ok {
        return Missing;
      }
      var value := ParseAssignedValue();
      r := AssignmentStatement(name, value, PositionOf(token));
    }

    /**
     * `name[index] = value` with an optional `;`, positioned at the name; the target is an
     * Identifier node at the same position.
     */
    method ParseIndexAssignmentStatement() returns (r: Node)
      requires Valid()
      modifies this, lexer
      ensures Valid() && Grew()
      ensures r.Missing? ||
              (r.IndexAssignmentStatement? && r.pos == PositionOf(old(currentToken)) &&
               r.target == Identifier(old(currentToken).literal, PositionOf(old(currentToken))))
      decreases Measure(), 9
      ensures Parsed(r, State()) == ReadIndexAssignment(src, old(State()))
    {
      var token := currentToken;
      var target := Identifier(token.literal, PositionOf(token));
      r := Missing;
      NextToken();
      if currentToken.kind != LBRACKET {
        AddError(BracketError(currentToken));
      } else {
        NextToken();
        var index := ParseExpression(Lowest);
        var ok := ExpectPeek(RBRACKET);
        if ok {
          ok := ExpectPeek(ASSIGN);
        }
        if ok {
          var value := ParseAssignedValue();
          r := IndexAssignmentStatement(target, index, value, PositionOf(token));
        }
      }
    }
  }
}
