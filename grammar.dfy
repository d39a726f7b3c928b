/**
 * The grammar of parser/Parser.java as functions. A rule maps the parse state (a cursor
 * into the stream of tokens the lexer returns, and the errors recorded so far) to what
 * the rule returns and the state it leaves. The class in parser.dfy is proved to compute
 * exactly these functions, so what is proved here holds of the parser.
 */
module Grammar {
  import opened Wrappers
  import opened Text
  import opened Tokens
  import LexSpec
  import opened Ast

  /** The binding strengths, weakest first. */
  datatype Precedence = Lowest | Or | And | Equals | Compare | Sum | Product | Prefix | Call

  function Value(p: Precedence): int
  {
    match p
    case Lowest => 1
    case Or => 2
    case And => 3
    case Equals => 4
    case Compare => 5
    case Sum => 6
    case Product => 7
    case Prefix => 8
    case Call => 9
  }

  /** The precedence table: the strength of a token as an infix operator, LOWEST if none. */
  function PrecedenceOf(k: TokenType): Precedence
  {
    match k
    case OR => Or
    case AND => And
    case EQ => Equals
    case NOT_EQ => Equals
    case LT => Compare
    case GT => Compare
    case LT_EQ => Compare
    case GT_EQ => Compare
    case PLUS => Sum
    case MINUS => Sum
    case ASTERISK => Product
    case SLASH => Product
    case PERCENT => Product
    case LPAREN => Call
    case LBRACKET => Call
    case _ => Lowest
  }

  /** The registered prefix parse functions. */
  datatype PrefixRule =
    | IdentifierRule | NumberRule | StringRule | BooleanRule | NullRule
    | GroupedRule | PrefixOperatorRule | ArrayRule

  function PrefixRuleOf(k: TokenType): Option<PrefixRule>
  {
    match k
    case IDENTIFIER => Some(IdentifierRule)
    case NUMBER => Some(NumberRule)
    case STRING => Some(StringRule)
    case TRUE => Some(BooleanRule)
    case FALSE => Some(BooleanRule)
    case NULL => Some(NullRule)
    case LPAREN => Some(GroupedRule)
    case MINUS => Some(PrefixOperatorRule)
    case NOT => Some(PrefixOperatorRule)
    case LBRACKET => Some(ArrayRule)
    case _ => None
  }

  /** The registered infix parse functions. */
  datatype InfixRule = InfixOperatorRule | CallRule | IndexRule

  function InfixRuleOf(k: TokenType): Option<InfixRule>
  {
    match k
    case PLUS => Some(InfixOperatorRule)
    case MINUS => Some(InfixOperatorRule)
    case ASTERISK => Some(InfixOperatorRule)
    case SLASH => Some(InfixOperatorRule)
    case PERCENT => Some(InfixOperatorRule)
    case EQ => Some(InfixOperatorRule)
    case NOT_EQ => Some(InfixOperatorRule)
    case LT => Some(InfixOperatorRule)
    case GT => Some(InfixOperatorRule)
    case LT_EQ => Some(InfixOperatorRule)
    case GT_EQ => Some(InfixOperatorRule)
    case AND => Some(InfixOperatorRule)
    case OR => Some(InfixOperatorRule)
    case LPAREN => Some(CallRule)
    case LBRACKET => Some(IndexRule)
    case _ => None
  }

  /**
   * The two tables agree: a token binds more strongly than LOWEST exactly when it has an
   * infix rule. So the expression loop never meets an operator without one.
   */
  lemma BindingTokensHaveInfixRules(k: TokenType)
    ensures Value(PrecedenceOf(k)) > Value(Lowest) <==> InfixRuleOf(k).Some?
  {
  }

  /** Parser.Error: a message and the line and column it refers to. */
  /**
   * What went wrong. The parser records the cause; `Message` renders the text the parser's
   * error list holds for it.
   */
  datatype ErrorCause =
    | UnexpectedToken(expected: TokenType, got: TokenType)
    | NoPrefixParse(kind: TokenType, literal: string)
    | BadNumber(literal: string)
    | UnclosedBlock
    | MissingBracket

  /** Parser.Error: a message and the position of the token it is about. */
  datatype ParseError = ParseError(cause: ErrorCause, line: int, column: int)

  function Message(c: ErrorCause): string
  {
    match c
    case UnexpectedToken(expected, got) =>
      "Expected next token to be " + Name(expected) + ", got " + Name(got) + " instead"
    case NoPrefixParse(kind, literal) =>
      "No prefix parse function for " + Name(kind) + " (" + literal + ")"
    case BadNumber(literal) => "Could not parse '" + literal + "' as a number"
    case UnclosedBlock => "Expected '}' at the end of block statement"
    case MissingBracket => "Expected '[' in index expression"
  }

  /** The error peekError records for an unexpected peek token, at the peek token. */
  function UnexpectedPeek(expected: TokenType, peek: Token): ParseError
  {
    ParseError(UnexpectedToken(expected, peek.kind), peek.line, peek.column)
  }

  function NoPrefixError(t: Token): ParseError
  {
    ParseError(NoPrefixParse(t.kind, t.literal), t.line, t.column)
  }

  function NumberError(t: Token): ParseError
  {
    ParseError(BadNumber(t.literal), t.line, t.column)
  }

  function BlockError(t: Token): ParseError
  {
    ParseError(UnclosedBlock, t.line, t.column)
  }

  function BracketError(t: Token): ParseError
  {
    ParseError(MissingBracket, t.line, t.column)
  }

  function PositionOf(t: Token): Position
  {
    Position(t.line, t.column)
  }

  /**
   * The node kinds parseStatement can return, decided by the first two tokens of the
   * statement. Only `return` always yields a node; `IDENT =` always yields an assignment.
   */
  predicate StatementShape(first: Token, second: Token, r: Node)
  {
    match first.kind
    case LET => r.Missing? || r.VariableDeclaration?
    case DEF => r.Missing? || r.FunctionDeclaration?
    case IF => r.Missing? || r.IfStatement?
    case WHILE => r.Missing? || r.WhileStatement?
    case RETURN => r.ReturnStatement?
    case LBRACE => r.Missing? || r.BlockStatement?
    case IDENTIFIER =>
      if second.kind == LBRACKET then r.Missing? || r.IndexAssignmentStatement? || r.ExpressionStatement?
      else if second.kind == ASSIGN then r.AssignmentStatement? && r.name == first.literal
      else r.ExpressionStatement?
    case _ => r.ExpressionStatement?
  }

  // ----- The token stream -----

  /** Where the lexer's cursor is after `k` calls of nextToken from cursor `p`. */
  function LexCursor(input: string, p: nat, k: nat): (q: nat)
    ensures q >= p + k
  {
    if k == 0 then p else LexSpec.NextToken(input, LexCursor(input, p, k - 1)).1
  }

  /** The token the call of nextToken after `k` earlier ones returns, from cursor `p`. */
  function LexToken(input: string, p: nat, k: nat): Token
  {
    LexSpec.NextToken(input, LexCursor(input, p, k)).0
  }

  /** The tokens a parse reads, by index, and a bound that every token other than EOF lies below. */
  datatype Stream = Stream(at: nat -> Token, bound: nat)

  ghost predicate Bounded(s: Stream)
  {
    forall k: nat :: s.at(k).kind != EOF ==> k < s.bound
  }

  /** The tokens a lexer over `input` returns call after call from cursor `p`. */
  function LexStream(input: string, p: nat): Stream
  {
    Stream((k: nat) => LexToken(input, p, k), |input|)
  }

  /** The k-th token from the lexer other than EOF starts inside the input, after k earlier ones. */
  lemma LexStreamBounded(input: string, p: nat)
    ensures Bounded(LexStream(input, p))
  {
    forall k: nat | LexStream(input, p).at(k).kind != EOF
      ensures k < |input|
    {
      assert LexStream(input, p).at(k) == LexToken(input, p, k);
    }
  }

  /**
   * A stream and a cursor function that follow the lexer over `input`: the call of nextToken
   * from the k-th cursor returns the k-th token and leaves the lexer at the next cursor; no
   * token but EOF lies past the input.
   */
  ghost predicate Sourced(input: string, s: Stream, cursor: nat -> nat)
  {
    Bounded(s) && s.bound == |input| &&
    forall k: nat {:trigger LexStep(input, cursor(k))} ::
      LexStep(input, cursor(k)) == (s.at(k), cursor(k + 1))
  }

  /** A lexer's input with the stream of its tokens and the cursor after each of them. */
  datatype Source = Source(input: string, stream: Stream, cursor: nat -> nat)

  /** A source whose stream and cursors are those of the lexer over its input. */
  type LexSource = x: Source | Sourced(x.input, x.stream, x.cursor)
    ghost witness LexSourceAt("", 0)

  /** The source of a lexer over `input` whose cursor starts at `p`. */
  ghost function LexSourceAt(input: string, p: nat): (x: Source)
    ensures x.input == input && x.stream == LexStream(input, p) && x.cursor(0) == p
    ensures Sourced(x.input, x.stream, x.cursor)
  {
    var x := Source(input, LexStream(input, p), (k: nat) => LexCursor(input, p, k));
    LexSourced(x, p);
    x
  }

  /** A stream and cursor function built from the lexer's definitions follow the lexer. */
  lemma LexSourced(x: Source, p: nat)
    requires x.stream == LexStream(x.input, p)
    requires forall k: nat :: x.cursor(k) == LexCursor(x.input, p, k)
    ensures Sourced(x.input, x.stream, x.cursor)
  {
    LexStreamBounded(x.input, p);
    forall k: nat
      ensures LexStep(x.input, x.cursor(k)) == (x.stream.at(k), x.cursor(k + 1))
    {
      LexStreamStep(x.input, p, k);
    }
  }

  /** One call of nextToken from cursor `p`: the token and the cursor after it. */
  function LexStep(input: string, p: nat): (Token, nat)
  {
    LexSpec.NextToken(input, p)
  }

  /** The k-th call of nextToken returns the k-th token of the stream and moves to the next cursor. */
  lemma LexStreamStep(input: string, p: nat, k: nat)
    ensures LexSpec.NextToken(input, LexCursor(input, p, k)) == (LexStream(input, p).at(k), LexCursor(input, p, k + 1))
  {
  }

  /** `buffer` holds the first tokens of the stream, in order. */
  ghost predicate Buffered(s: Stream, buffer: seq<Token>)
    decreases |buffer|
  {
    buffer == [] ||
    (Buffered(s, buffer[..|buffer| - 1]) && buffer[|buffer| - 1] == s.at(|buffer| - 1))
  }

  /** Every entry of a buffered prefix is the stream's token at that index. */
  lemma {:induction false} BufferedAt(s: Stream, buffer: seq<Token>, k: nat)
    requires Buffered(s, buffer) && k < |buffer|
    ensures buffer[k] == s.at(k)
    decreases |buffer|
  {
    if k < |buffer| - 1 {
      BufferedAt(s, buffer[..|buffer| - 1], k);
    }
  }

  /** A buffer holding the first tokens of a stream, extended by the next one. */
  lemma BufferSnoc(s: Stream, buffer: seq<Token>, next: Token)
    requires Buffered(s, buffer) && next == s.at(|buffer|)
    ensures Buffered(s, buffer + [next])
  {
    assert (buffer + [next])[..|buffer|] == buffer;
  }

  lemma NotEof(s: Stream, k: nat)
    requires Bounded(s) && s.at(k).kind != EOF
    ensures k < s.bound
  {
  }

  // ----- The parse state -----

  /**
   * Where a parse stands: the cursor, one past the index of the peek token (the current
   * token is the one before it), and the errors recorded so far.
   */
  datatype ParseState = ParseState(position: nat, errors: seq<ParseError>)

  /** What a rule returns, and the state it leaves. */
  datatype Parsed<T> = Parsed(value: T, after: ParseState)

  /** A parse over a bounded stream, with the current and the peek token read. */
  ghost predicate Ready(s: Stream, st: ParseState)
  {
    Bounded(s) && st.position >= 2
  }

  function Current(s: Stream, st: ParseState): Token
    requires st.position >= 2
  {
    s.at(st.position - 2)
  }

  function Peek(s: Stream, st: ParseState): Token
    requires st.position >= 2
  {
    s.at(st.position - 1)
  }

  /** nextToken: one token on. */
  function Advance(st: ParseState): ParseState
  {
    st.(position := st.position + 1)
  }

  function Record(st: ParseState, e: ParseError): ParseState
  {
    st.(errors := st.errors + [e])
  }

  /** How far the cursor may still move before every token it passes is EOF. */
  function Remaining(s: Stream, st: ParseState): nat
  {
    if st.position <= s.bound + 2 then s.bound + 2 - st.position else 0
  }

  /** A parse moves forward: the cursor does not move back and no error is dropped. */
  predicate Follows(st: ParseState, next: ParseState)
  {
    st.position <= next.position && st.errors <= next.errors
  }

  // ----- The rules -----

  /** expectPeek: one token on when the peek token has the expected kind, an error at it otherwise. */
  function Expect(s: Stream, st: ParseState, kind: TokenType): Parsed<bool>
    requires st.position >= 2
  {
    if Peek(s, st).kind == kind then Parsed(true, Advance(st))
    else Parsed(false, Record(st, UnexpectedPeek(kind, Peek(s, st))))
  }

  /** parseProgram: statements up to EOF, null ones left out, in a program at 0:0. */
  function ReadProgram(s: Stream, st: ParseState): (r: Parsed<Node>)
    requires Ready(s, st)
    ensures Follows(st, r.after) && Current(s, r.after).kind == EOF
    ensures r.value.Program? && r.value.pos == Origin
  {
    var body := ReadStatements(s, st, []);
    Parsed(Program(body.value, Origin), body.after)
  }

  /**
   * What parse makes of a source: a lexer from its first character, a parser that has read
   * two tokens and recorded no error, then parseProgram. The program ends at the stream's
   * first EOF that the loop reaches.
   */
  function ParseSource(source: string): (r: Parsed<Node>)
    ensures r.value.Program? && r.value.pos == Origin
    ensures r.after.position >= 2 && LexStream(source, 0).at(r.after.position - 2).kind == EOF
  {
    LexStreamBounded(source, 0);
    ReadProgram(LexStream(source, 0), ParseState(2, []))
  }

  /** The loop of parseProgram, with the statements parsed so far. */
  function ReadStatements(s: Stream, st: ParseState, statements: seq<Node>): (r: Parsed<seq<Node>>)
    requires Ready(s, st)
    ensures Follows(st, r.after) && r.after.position >= 2 && Current(s, r.after).kind == EOF
    decreases Remaining(s, st)
  {
    if Current(s, st).kind == EOF then Parsed(statements, st)
    else
      NotEof(s, st.position - 2);
      var one := ReadStatement(s, st);
      ReadStatements(s, Advance(one.after), AddStatement(statements, one.value))
  }

  /** parseStatement: the rule the current token selects. */
  function ReadStatement(s: Stream, st: ParseState): (r: Parsed<Node>)
    requires Ready(s, st)
    ensures Follows(st, r.after)
    decreases Remaining(s, st), 12
  {
    var kind := Current(s, st).kind;
    if kind == LET then ReadDeclaration(s, st)
    else if kind == DEF then ReadFunctionDeclaration(s, st)
    else if kind == IF then ReadIf(s, st)
    else if kind == WHILE then ReadWhile(s, st)
    else if kind == RETURN then ReadReturn(s, st)
    else if kind == LBRACE then ReadBlock(s, st)
    else ReadSimpleStatement(s, st)
  }

  /** The default case of parseStatement. */
  function ReadSimpleStatement(s: Stream, st: ParseState): (r: Parsed<Node>)
    requires Ready(s, st)
    ensures Follows(st, r.after)
    decreases Remaining(s, st), 11
  {
    if Current(s, st).kind == IDENTIFIER && Peek(s, st).kind == LBRACKET then ReadIndexedStatement(s, st)
    else if Current(s, st).kind == IDENTIFIER && Peek(s, st).kind == ASSIGN then ReadAssignment(s, st)
    else ReadExpressionStatement(s, st)
  }

  /**
   * `IDENT [`: the index is parsed ahead up to `]`, then the parse starts again at the
   * identifier with the errors of the look-ahead kept.
   */
  function ReadIndexedStatement(s: Stream, st: ParseState): (r: Parsed<Node>)
    requires Ready(s, st)
    ensures Follows(st, r.after)
    decreases Remaining(s, st), 10
  {
    var index := ReadExpression(s, Advance(Advance(st)), Lowest);
    var closed := Expect(s, index.after, RBRACKET);
    var back := ParseState(st.position, closed.after.errors);
    if closed.value && Peek(s, closed.after).kind == ASSIGN then ReadIndexAssignment(s, back)
    else ReadExpressionStatement(s, back)
  }

  /** `let name = value`. */
  function ReadDeclaration(s: Stream, st: ParseState): (r: Parsed<Node>)
    requires Ready(s, st)
    ensures Follows(st, r.after)
    decreases Remaining(s, st), 9
  {
    var name := Expect(s, st, IDENTIFIER);
    if !name.value then Parsed(Missing, name.after)
    else
      var assign := Expect(s, name.after, ASSIGN);
      if !assign.value then Parsed(Missing, assign.after)
      else
        var value := ReadAssignedValue(s, assign.after);
        Parsed(VariableDeclaration(Current(s, name.after).literal, value.value, PositionOf(Current(s, st))), value.after)
  }

  /** The expression after `=`, and an optional `;`. */
  function ReadAssignedValue(s: Stream, st: ParseState): (r: Parsed<Node>)
    requires Ready(s, st)
    ensures Follows(st, r.after) && r.after.position > st.position
    decreases Remaining(s, st), 8
  {
    var value := ReadExpression(s, Advance(st), Lowest);
    if Peek(s, value.after).kind == SEMICOLON then Parsed(value.value, Advance(value.after)) else value
  }

  /** `def name(parameters) { body }`. */
  function ReadFunctionDeclaration(s: Stream, st: ParseState): (r: Parsed<Node>)
    requires Ready(s, st)
    ensures Follows(st, r.after)
    decreases Remaining(s, st), 9
  {
    var name := Expect(s, st, IDENTIFIER);
    if !name.value then Parsed(Missing, name.after)
    else
      var open := Expect(s, name.after, LPAREN);
      if !open.value then Parsed(Missing, open.after)
      else
        var parameters := ReadParameters(s, open.after);
        var brace := Expect(s, parameters.after, LBRACE);
        if !brace.value then Parsed(Missing, brace.after)
        else
          NotEof(s, st.position - 1);
          var body := ReadBlock(s, brace.after);
          var names := if parameters.value.Some? then parameters.value.value else [];
          Parsed(FunctionDeclaration(Current(s, name.after).literal, names, body.value, PositionOf(Current(s, st))), body.after)
  }

  /** The parameter names after `(`, up to `)`; None when the `)` is missing. */
  function ReadParameters(s: Stream, st: ParseState): (r: Parsed<Option<seq<string>>>)
    requires Ready(s, st)
    ensures Follows(st, r.after)
  {
    if Peek(s, st).kind == RPAREN then Parsed(Some([]), Advance(st))
    else
      var first := Advance(st);
      var names := ReadNames(s, first, [Current(s, first).literal]);
      var close := Expect(s, names.after, RPAREN);
      Parsed(if close.value then Some(names.value) else None, close.after)
  }

  /** The `, name` repetitions of a parameter list. */
  function ReadNames(s: Stream, st: ParseState, names: seq<string>): (r: Parsed<seq<string>>)
    requires Ready(s, st)
    ensures Follows(st, r.after) && r.after.errors == st.errors
    decreases Remaining(s, st)
  {
    if Peek(s, st).kind == COMMA then
      NotEof(s, st.position - 1);
      var next := Advance(Advance(st));
      ReadNames(s, next, names + [Current(s, next).literal])
    else Parsed(names, st)
  }

  /** The parameter loop stops before a token that is not a comma. */
  lemma NamesExit(s: Stream, st: ParseState, names: seq<string>)
    requires Ready(s, st) && Peek(s, st).kind != COMMA
    ensures ReadNames(s, st, names) == Parsed(names, st)
  {
  }

  /** `if (condition) { ... }` with an optional `else { ... }`. */
  function ReadIf(s: Stream, st: ParseState): (r: Parsed<Node>)
    requires Ready(s, st)
    ensures Follows(st, r.after)
    decreases Remaining(s, st), 9
  {
    var open := Expect(s, st, LPAREN);
    if !open.value then Parsed(Missing, open.after)
    else
      var condition := ReadExpression(s, Advance(open.after), Lowest);
      var close := Expect(s, condition.after, RPAREN);
      if !close.value then Parsed(Missing, close.after)
      else
        var brace := Expect(s, close.after, LBRACE);
        if !brace.value then Parsed(Missing, brace.after)
        else
          NotEof(s, st.position - 1);
          var consequence := ReadBlock(s, brace.after);
          ReadElse(s, consequence.after, condition.value, consequence.value, Current(s, st))
  }

  /** `return`, an expression unless `;` follows, and an optional `;`. */
  function ReadReturn(s: Stream, st: ParseState): (r: Parsed<Node>)
    requires Ready(s, st)
    ensures Follows(st, r.after)
    decreases Remaining(s, st), 9
  {
    var next := Advance(st);
    var value := if Current(s, next).kind != SEMICOLON then ReadExpression(s, next, Lowest) else Parsed(Missing, next);
    var after := if Peek(s, value.after).kind == SEMICOLON then Advance(value.after) else value.after;
    Parsed(ReturnStatement(value.value, PositionOf(Current(s, st))), after)
  }

  /** The optional `else { ... }` of an if statement whose condition and consequence are parsed. */
  function ReadElse(s: Stream, st: ParseState, condition: Node, consequence: Node, token: Token): (r: Parsed<Node>)
    requires Ready(s, st)
    ensures Follows(st, r.after)
    decreases Remaining(s, st), 9
  {
    if Peek(s, st).kind == ELSE then
      NotEof(s, st.position - 1);
      var elseBrace := Expect(s, Advance(st), LBRACE);
      if !elseBrace.value then Parsed(Missing, elseBrace.after)
      else
        var alternative := ReadBlock(s, elseBrace.after);
        Parsed(IfStatement(condition, consequence, alternative.value, PositionOf(token)), alternative.after)
    else
      Parsed(IfStatement(condition, consequence, Missing, PositionOf(token)), st)
  }

  /** `while (condition) { ... }`. */
  function ReadWhile(s: Stream, st: ParseState): (r: Parsed<Node>)
    requires Ready(s, st)
    ensures Follows(st, r.after)
    decreases Remaining(s, st), 9
  {
    var open := Expect(s, st, LPAREN);
    if !open.value then Parsed(Missing, open.after)
    else
      var condition := ReadExpression(s, Advance(open.after), Lowest);
      var close := Expect(s, condition.after, RPAREN);
      if !close.value then Parsed(Missing, close.after)
      else
        var brace := Expect(s, close.after, LBRACE);
        if !brace.value then Parsed(Missing, brace.after)
        else
          NotEof(s, st.position - 1);
          var body := ReadBlock(s, brace.after);
          Parsed(WhileStatement(condition.value, body.value, PositionOf(Current(s, st))), body.after)
  }

  /** The statements after `{` up to `}`; at EOF an error and null. */
  function ReadBlock(s: Stream, st: ParseState): (r: Parsed<Node>)
    requires Ready(s, st)
    ensures Follows(st, r.after)
    decreases Remaining(s, st), 9
  {
    var first := Advance(st);
    if Current(s, first).kind == EOF then BlockEnd(s, first, [], Current(s, st))
    else
      NotEof(s, first.position - 2);
      ReadBlockStatements(s, first, [], Current(s, st))
  }

  /** The loop of parseBlockStatement, with the statements parsed so far and the opening brace. */
  function ReadBlockStatements(s: Stream, st: ParseState, statements: seq<Node>, open: Token): (r: Parsed<Node>)
    requires Ready(s, st)
    ensures Follows(st, r.after)
    decreases Remaining(s, st), 13
  {
    if Current(s, st).kind == RBRACE || Current(s, st).kind == EOF then BlockEnd(s, st, statements, open)
    else
      NotEof(s, st.position - 2);
      var one := ReadStatement(s, st);
      ReadBlockStatements(s, Advance(one.after), AddStatement(statements, one.value), open)
  }

  /** One round of the block loop: a statement, then the loop from the token after it. */
  lemma BlockRound(s: Stream, st: ParseState, statements: seq<Node>, open: Token)
    requires Ready(s, st) && Current(s, st).kind != RBRACE && Current(s, st).kind != EOF
    ensures var one := ReadStatement(s, st);
      ReadBlockStatements(s, st, statements, open) ==
      ReadBlockStatements(s, Advance(one.after), AddStatement(statements, one.value), open)
  {
  }

  /** The block loop at `}` or EOF is the block's end. */
  lemma BlockExit(s: Stream, st: ParseState, statements: seq<Node>, open: Token)
    requires Ready(s, st) && (Current(s, st).kind == RBRACE || Current(s, st).kind == EOF)
    ensures ReadBlockStatements(s, st, statements, open) == BlockEnd(s, st, statements, open)
  {
  }

  /** The end of a block: the block at `}`, an error at anything else. */
  function BlockEnd(s: Stream, st: ParseState, statements: seq<Node>, open: Token): Parsed<Node>
    requires st.position >= 2
  {
    if Current(s, st).kind != RBRACE then Parsed(Missing, Record(st, BlockError(Current(s, st))))
    else Parsed(BlockStatement(statements, PositionOf(open)), st)
  }

  /** An expression and an optional `;`. */
  function ReadExpressionStatement(s: Stream, st: ParseState): (r: Parsed<Node>)
    requires Ready(s, st)
    ensures Follows(st, r.after)
    decreases Remaining(s, st), 9
  {
    var e := ReadExpression(s, st, Lowest);
    var after := if Peek(s, e.after).kind == SEMICOLON then Advance(e.after) else e.after;
    Parsed(ExpressionStatement(e.value, PositionOf(Current(s, st))), after)
  }

  /** parseExpression: the prefix rule, then the operators that bind more strongly than `precedence`. */
  function ReadExpression(s: Stream, st: ParseState, precedence: Precedence): (r: Parsed<Node>)
    requires Ready(s, st)
    ensures Follows(st, r.after)
    decreases Remaining(s, st), 5
  {
    if PrefixRuleOf(Current(s, st).kind).None? then Parsed(Missing, Record(st, NoPrefixError(Current(s, st))))
    else
      var left := ReadPrefix(s, st);
      ReadOperators(s, left.after, precedence, left.value)
  }

  /** The loop of parseExpression, with the expression so far. */
  function ReadOperators(s: Stream, st: ParseState, precedence: Precedence, left: Node): (r: Parsed<Node>)
    requires Ready(s, st)
    ensures Follows(st, r.after)
    decreases Remaining(s, st), 4
  {
    var peek := Peek(s, st).kind;
    if peek != SEMICOLON && Value(precedence) < Value(PrecedenceOf(peek)) then
      BindingTokensHaveInfixRules(peek);
      NotEof(s, st.position - 1);
      var right := ReadInfix(s, Advance(st), left);
      ReadOperators(s, right.after, precedence, right.value)
    else Parsed(left, st)
  }

  /** The expression loop stops at `;` and before a token that does not bind more strongly. */
  lemma OperatorsExit(s: Stream, st: ParseState, precedence: Precedence, left: Node)
    requires Ready(s, st)
    requires Peek(s, st).kind == SEMICOLON || Value(PrecedenceOf(Peek(s, st).kind)) <= Value(precedence)
    ensures ReadOperators(s, st, precedence, left) == Parsed(left, st)
  {
  }

  /** The prefix rule registered for the current token. */
  function ReadPrefix(s: Stream, st: ParseState): (r: Parsed<Node>)
    requires Ready(s, st) && PrefixRuleOf(Current(s, st).kind).Some?
    ensures Follows(st, r.after)
    decreases Remaining(s, st), 4
  {
    var t := Current(s, st);
    match PrefixRuleOf(t.kind).value
    case IdentifierRule => Parsed(Identifier(t.literal, PositionOf(t)), st)
    case NumberRule => ReadNumber(s, st)
    case StringRule => Parsed(StringLiteral(t.literal, PositionOf(t)), st)
    case BooleanRule => Parsed(BooleanLiteral(t.kind == TRUE, PositionOf(t)), st)
    case NullRule => Parsed(NullLiteral(PositionOf(t)), st)
    case GroupedRule => ReadGrouped(s, st)
    case PrefixOperatorRule => ReadPrefixExpression(s, st)
    case ArrayRule => ReadArray(s, st)
  }

  /** A number literal, or an error and null when the text is not a number. */
  function ReadNumber(s: Stream, st: ParseState): Parsed<Node>
    requires st.position >= 2
  {
    var t := Current(s, st);
    var value := DecimalValue(t.literal);
    if value.None? then Parsed(Missing, Record(st, NumberError(t)))
    else Parsed(NumberLiteral(value.value, PositionOf(t)), st)
  }

  /** The infix rule registered for the current token, applied to `left`. */
  function ReadInfix(s: Stream, st: ParseState, left: Node): (r: Parsed<Node>)
    requires Ready(s, st) && InfixRuleOf(Current(s, st).kind).Some?
    ensures Follows(st, r.after)
    decreases Remaining(s, st), 4
  {
    match InfixRuleOf(Current(s, st).kind).value
    case InfixOperatorRule => ReadInfixExpression(s, st, left)
    case CallRule => ReadCall(s, st, left)
    case IndexRule => ReadIndex(s, st, left)
  }

  /** `( expression )`: the inner expression, or null when the `)` is missing. */
  function ReadGrouped(s: Stream, st: ParseState): (r: Parsed<Node>)
    requires Ready(s, st) && Current(s, st).kind != EOF
    ensures Follows(st, r.after)
    decreases Remaining(s, st), 3
  {
    NotEof(s, st.position - 2);
    var e := ReadExpression(s, Advance(st), Lowest);
    var close := Expect(s, e.after, RPAREN);
    Parsed(if close.value then e.value else Missing, close.after)
  }

  /** `-` or `!` and an operand parsed at PREFIX strength. */
  function ReadPrefixExpression(s: Stream, st: ParseState): (r: Parsed<Node>)
    requires Ready(s, st) && Current(s, st).kind != EOF
    ensures Follows(st, r.after)
    decreases Remaining(s, st), 3
  {
    NotEof(s, st.position - 2);
    var t := Current(s, st);
    var right := ReadExpression(s, Advance(st), Prefix);
    Parsed(PrefixExpression(t.literal, right.value, PositionOf(t)), right.after)
  }

  /** The operator and the right operand parsed at the operator's own strength. */
  function ReadInfixExpression(s: Stream, st: ParseState, left: Node): (r: Parsed<Node>)
    requires Ready(s, st) && Current(s, st).kind != EOF
    ensures Follows(st, r.after)
    decreases Remaining(s, st), 3
  {
    NotEof(s, st.position - 2);
    var t := Current(s, st);
    var right := ReadExpression(s, Advance(st), PrecedenceOf(t.kind));
    Parsed(InfixExpression(left, t.literal, right.value, PositionOf(t)), right.after)
  }

  /** A call of `callee`; a missing `)` leaves no arguments. */
  function ReadCall(s: Stream, st: ParseState, callee: Node): (r: Parsed<Node>)
    requires Ready(s, st) && Current(s, st).kind != EOF
    ensures Follows(st, r.after)
    decreases Remaining(s, st), 3
  {
    var arguments := ReadList(s, st, RPAREN);
    var items := if arguments.value.Some? then arguments.value.value else [];
    Parsed(CallExpression(callee, items, PositionOf(Current(s, st))), arguments.after)
  }

  /** `[ elements ]`; a missing `]` leaves no elements. */
  function ReadArray(s: Stream, st: ParseState): (r: Parsed<Node>)
    requires Ready(s, st) && Current(s, st).kind != EOF
    ensures Follows(st, r.after)
    decreases Remaining(s, st), 3
  {
    var elements := ReadList(s, st, RBRACKET);
    var items := if elements.value.Some? then elements.value.value else [];
    Parsed(ArrayLiteral(items, PositionOf(Current(s, st))), elements.after)
  }

  /** Expressions separated by commas up to `close`; None when `close` is missing. */
  function ReadList(s: Stream, st: ParseState, close: TokenType): (r: Parsed<Option<seq<Node>>>)
    requires Ready(s, st) && Current(s, st).kind != EOF
    ensures Follows(st, r.after)
    decreases Remaining(s, st), 2
  {
    if Peek(s, st).kind == close then Parsed(Some([]), Advance(st))
    else
      NotEof(s, st.position - 2);
      var first := ReadExpression(s, Advance(st), Lowest);
      var items := ReadMoreItems(s, first.after, [first.value]);
      var end := Expect(s, items.after, close);
      Parsed(if end.value then Some(items.value) else None, end.after)
  }

  /** The `, item` repetitions of a list. */
  function ReadMoreItems(s: Stream, st: ParseState, items: seq<Node>): (r: Parsed<seq<Node>>)
    requires Ready(s, st)
    ensures Follows(st, r.after)
    decreases Remaining(s, st), 1
  {
    if Peek(s, st).kind == COMMA then
      NotEof(s, st.position - 1);
      var next := ReadExpression(s, Advance(Advance(st)), Lowest);
      ReadMoreItems(s, next.after, items + [next.value])
    else Parsed(items, st)
  }

  /** The list loop stops before a token that is not a comma. */
  lemma MoreItemsExit(s: Stream, st: ParseState, items: seq<Node>)
    requires Ready(s, st) && Peek(s, st).kind != COMMA
    ensures ReadMoreItems(s, st, items) == Parsed(items, st)
  {
  }

  /** `target[index]`; null when the `]` is missing. */
  function ReadIndex(s: Stream, st: ParseState, target: Node): (r: Parsed<Node>)
    requires Ready(s, st) && Current(s, st).kind != EOF
    ensures Follows(st, r.after)
    decreases Remaining(s, st), 3
  {
    NotEof(s, st.position - 2);
    var t := Current(s, st);
    var index := ReadExpression(s, Advance(st), Lowest);
    var close := Expect(s, index.after, RBRACKET);
    Parsed(if close.value then IndexExpression(target, index.value, PositionOf(t)) else Missing, close.after)
  }

  /** `name = value`. */
  function ReadAssignment(s: Stream, st: ParseState): (r: Parsed<Node>)
    requires Ready(s, st)
    ensures Follows(st, r.after)
    decreases Remaining(s, st), 9
  {
    var t := Current(s, st);
    var assign := Expect(s, st, ASSIGN);
    if !assign.value then Parsed(Missing, assign.after)
    else
      var value := ReadAssignedValue(s, assign.after);
      Parsed(AssignmentStatement(t.literal, value.value, PositionOf(t)), value.after)
  }

  /** `name[index] = value`, its target an identifier at the name. */
  function ReadIndexAssignment(s: Stream, st: ParseState): (r: Parsed<Node>)
    requires Ready(s, st)
    ensures Follows(st, r.after)
    decreases Remaining(s, st), 9
  {
    var t := Current(s, st);
    var next := Advance(st);
    if Current(s, next).kind != LBRACKET then Parsed(Missing, Record(next, BracketError(Current(s, next))))
    else
      var index := ReadExpression(s, Advance(next), Lowest);
      var close := Expect(s, index.after, RBRACKET);
      if !close.value then Parsed(Missing, close.after)
      else
        var assign := Expect(s, close.after, ASSIGN);
        if !assign.value then Parsed(Missing, assign.after)
        else
          var value := ReadAssignedValue(s, assign.after);
          Parsed(IndexAssignmentStatement(Identifier(t.literal, PositionOf(t)), index.value, value.value, PositionOf(t)), value.after)
  }
}
