/**
 * Token kinds and tokens produced by the lexer (lexer/TokenType.java, lexer/Token.java).
 */
module Tokens {
  import opened Wrappers

  /** The token kinds, in the order the enumeration declares them. */
  datatype TokenType =
    | EOF | ILLEGAL
    | IDENTIFIER | NUMBER | STRING
    | DEF | LET | IF | ELSE | WHILE | RETURN | TRUE | FALSE | NULL
    | PLUS | MINUS | ASTERISK | SLASH | PERCENT
    | EQ | NOT_EQ | LT | GT | LT_EQ | GT_EQ
    | AND | OR | NOT
    | ASSIGN
    | COMMA | SEMICOLON | LPAREN | RPAREN | LBRACE | RBRACE | LBRACKET | RBRACKET

  /** A token: its kind, the source text it stands for, and where it was reported. */
  datatype Token = Token(kind: TokenType, literal: string, line: int, column: int)

  /** The enumeration constant's name, which is what `%s` prints for a token kind. */
  function Name(t: TokenType): (s: string)
    ensures |s| > 0
  {
    match t
    case EOF => "EOF"
    case ILLEGAL => "ILLEGAL"
    case IDENTIFIER => "IDENTIFIER"
    case NUMBER => "NUMBER"
    case STRING => "STRING"
    case DEF => "DEF"
    case LET => "LET"
    case IF => "IF"
    case ELSE => "ELSE"
    case WHILE => "WHILE"
    case RETURN => "RETURN"
    case TRUE => "TRUE"
    case FALSE => "FALSE"
    case NULL => "NULL"
    case PLUS => "PLUS"
    case MINUS => "MINUS"
    case ASTERISK => "ASTERISK"
    case SLASH => "SLASH"
    case PERCENT => "PERCENT"
    case EQ => "EQ"
    case NOT_EQ => "NOT_EQ"
    case LT => "LT"
    case GT => "GT"
    case LT_EQ => "LT_EQ"
    case GT_EQ => "GT_EQ"
    case AND => "AND"
    case OR => "OR"
    case NOT => "NOT"
    case ASSIGN => "ASSIGN"
    case COMMA => "COMMA"
    case SEMICOLON => "SEMICOLON"
    case LPAREN => "LPAREN"
    case RPAREN => "RPAREN"
    case LBRACE => "LBRACE"
    case RBRACE => "RBRACE"
    case LBRACKET => "LBRACKET"
    case RBRACKET => "RBRACKET"
  }

  /** TokenType.valueOf: the kind with the given constant name, if there is one. */
  function KindNamed(s: string): Option<TokenType>
  {
    if |s| == 2 then
      if s == "IF" then Some(IF)
      else if s == "EQ" then Some(EQ)
      else if s == "LT" then Some(LT)
      else if s == "GT" then Some(GT)
      else if s == "OR" then Some(OR)
      else None
    else if |s| == 3 then
      if s == "EOF" then Some(EOF)
      else if s == "DEF" then Some(DEF)
      else if s == "LET" then Some(LET)
      else if s == "AND" then Some(AND)
      else if s == "NOT" then Some(NOT)
      else None
    else if |s| == 4 then
      if s == "ELSE" then Some(ELSE)
      else if s == "TRUE" then Some(TRUE)
      else if s == "NULL" then Some(NULL)
      else if s == "PLUS" then Some(PLUS)
      else None
    else if |s| == 5 then
      if s == "WHILE" then Some(WHILE)
      else if s == "FALSE" then Some(FALSE)
      else if s == "MINUS" then Some(MINUS)
      else if s == "SLASH" then Some(SLASH)
      else if s == "LT_EQ" then Some(LT_EQ)
      else if s == "GT_EQ" then Some(GT_EQ)
      else if s == "COMMA" then Some(COMMA)
      else None
    else if |s| == 6 then
      if s == "NUMBER" then Some(NUMBER)
      else if s == "STRING" then Some(STRING)
      else if s == "RETURN" then Some(RETURN)
      else if s == "NOT_EQ" then Some(NOT_EQ)
      else if s == "ASSIGN" then Some(ASSIGN)
      else if s == "LPAREN" then Some(LPAREN)
      else if s == "RPAREN" then Some(RPAREN)
      else if s == "LBRACE" then Some(LBRACE)
      else if s == "RBRACE" then Some(RBRACE)
      else None
    else if |s| == 7 then
      if s == "ILLEGAL" then Some(ILLEGAL)
      else if s == "PERCENT" then Some(PERCENT)
      else None
    else if |s| == 8 then
      if s == "ASTERISK" then Some(ASTERISK)
      else if s == "LBRACKET" then Some(LBRACKET)
      else if s == "RBRACKET" then Some(RBRACKET)
      else None
    else if |s| == 9 then
      if s == "SEMICOLON" then Some(SEMICOLON)
      else None
    else if |s| == 10 then
      if s == "IDENTIFIER" then Some(IDENTIFIER)
      else None
    else None
  }

  /** Every kind is found again from its name. */
  lemma NameRoundTrip(t: TokenType)
    ensures KindNamed(Name(t)) == Some(t)
  {
  }

  /** No two kinds print the same name. */
  lemma NameInjective(t: TokenType, u: TokenType)
    ensures Name(t) == Name(u) ==> t == u
  {
    NameRoundTrip(t);
    NameRoundTrip(u);
  }
}
