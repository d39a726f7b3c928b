/**
 * The scanning rules of lexer/Lexer.java as functions of the input text and a cursor
 * position. The cursor is the index of the current character; every index past the end
 * of the input reads as the NUL character, which is how the lexer sees the end of input.
 * The class in lexer.dfy is proved to compute exactly these functions.
 */
module LexSpec {
  import opened Wrappers
  import opened Text
  import opened Tokens
  import Keywords

  /** The character under the cursor, NUL once the input is exhausted. */
  function At(input: string, i: nat): char
  {
    if i < |input| then input[i] else '\0'
  }

  predicate IsLetter(c: char) { ('a' <= c <= 'z') || ('A' <= c <= 'Z') || c == '_' }

  predicate IsWhitespace(c: char) { c == ' ' || c == '\t' || c == '\n' || c == '\r' }

  // ----------------------------------------------------------------------------------
  // Line and column bookkeeping
  // ----------------------------------------------------------------------------------

  /** The line counter after `n` characters have been read (each read NUL included). */
  function LineAfter(input: string, n: nat): (l: int)
    ensures l >= 1
  {
    if n == 0 then 1
    else LineAfter(input, n - 1) + (if At(input, n - 1) == '\n' then 1 else 0)
  }

  /** The column counter after `n` characters have been read. */
  function ColumnAfter(input: string, n: nat): (c: int)
    ensures 0 <= c <= n
  {
    if n == 0 then 0
    else if At(input, n - 1) == '\n' then 0
    else ColumnAfter(input, n - 1) + 1
  }

  function Min(a: nat, b: nat): nat { if a <= b then a else b }

  /** The line is one more than the number of newlines read so far. */
  lemma {:induction false} LineCountsNewlines(input: string, n: nat)
    ensures LineAfter(input, n) == 1 + multiset(input[..Min(n, |input|)])['\n']
  {
    if n > 0 {
      LineCountsNewlines(input, n - 1);
      if n - 1 < |input| {
        assert input[..n] == input[..n - 1] + [input[n - 1]];
      } else {
        assert Min(n, |input|) == Min(n - 1, |input|);
      }
    }
  }

  /**
   * The column is the number of characters read since the last newline: none of the
   * last `column` characters is a newline, and the one before them is.
   */
  lemma {:induction false} ColumnCountsSinceNewline(input: string, n: nat)
    ensures forall k :: n - ColumnAfter(input, n) <= k < n ==> At(input, k) != '\n'
    ensures ColumnAfter(input, n) < n ==> At(input, n - ColumnAfter(input, n) - 1) == '\n'
  {
    if n > 0 && At(input, n - 1) != '\n' {
      ColumnCountsSinceNewline(input, n - 1);
    }
  }

  /** The character right after a newline is reported in column 1. */
  lemma FirstColumnOfLine(input: string, s: nat)
    requires s == 0 || At(input, s - 1) == '\n'
    requires At(input, s) != '\n'
    ensures ColumnAfter(input, s + 1) == 1
  {
  }

  // ----------------------------------------------------------------------------------
  // Skipping whitespace and comments
  // ----------------------------------------------------------------------------------

  /** Where skipWhitespace leaves the cursor: the first non-whitespace position. */
  function SkipWhitespace(input: string, p: nat): (q: nat)
    ensures p <= q && (q == p || q <= |input|)
    ensures !IsWhitespace(At(input, q))
    ensures forall k :: p <= k < q ==> IsWhitespace(At(input, k))
    decreases |input| - p
  {
    if IsWhitespace(At(input, p)) then SkipWhitespace(input, p + 1) else p
  }

  /** The first position at or after `p` holding a newline or NUL. */
  function LineEnd(input: string, p: nat): (q: nat)
    ensures p <= q && (q == p || q <= |input|)
    ensures At(input, q) == '\0' || At(input, q) == '\n'
    ensures forall k :: p <= k < q ==> At(input, k) != '\0' && At(input, k) != '\n'
    decreases |input| - p
  {
    if At(input, p) == '\0' || At(input, p) == '\n' then p else LineEnd(input, p + 1)
  }

  /** Where a `//` or `#` comment starting at `p` ends: past its newline, or at NUL. */
  function SkipLineComment(input: string, p: nat): (q: nat)
  {
    var e := LineEnd(input, p);
    if At(input, e) != '\0' then e + 1 else e
  }

  /**
   * Where the body of a block comment starting at `p` (just after the opening slash and star)
   * ends: just past the first star followed by a slash, or at the first NUL, whichever comes first.
   */
  function BlockCommentEnd(input: string, p: nat): (q: nat)
    ensures p <= q && (q == p || q <= |input|)
    decreases |input| - p
  {
    if At(input, p) == '\0' then p
    else if At(input, p) == '*' && At(input, p + 1) == '/' then p + 2
    else BlockCommentEnd(input, p + 1)
  }

  /** Where skipComments leaves the cursor; it skips at most one comment. */
  function SkipComments(input: string, p: nat): (q: nat)
    ensures p <= q && (q == p || q <= |input|)
  {
    if At(input, p) == '/' then
      if At(input, p + 1) == '/' then SkipLineComment(input, p)
      else if At(input, p + 1) == '*' then BlockCommentEnd(input, p + 2)
      else p
    else if At(input, p) == '#' then SkipLineComment(input, p)
    else p
  }

  /** True when a comment starts at `p`. */
  predicate CommentStart(input: string, p: nat)
  {
    At(input, p) == '#' || (At(input, p) == '/' && (At(input, p + 1) == '/' || At(input, p + 1) == '*'))
  }

  /** A position where a token may start: no whitespace and no comment there. */
  predicate AtTokenStart(input: string, s: nat)
  {
    !IsWhitespace(At(input, s)) && !CommentStart(input, s)
  }

  /**
   * Where the skip loop at the head of nextToken leaves the cursor: whitespace and
   * comments are skipped, round after round, until a round advances nothing.
   */
  function SkipTrivia(input: string, p: nat): (s: nat)
    ensures p <= s && (s == p || s <= |input|)
    ensures AtTokenStart(input, s)
    decreases |input| - p
  {
    var r := SkipComments(input, SkipWhitespace(input, p));
    if r > p then SkipTrivia(input, r)
    else
      assert SkipWhitespace(input, p) == p;
      assert At(input, p) == '#' || At(input, p) == '/' ==> At(input, LineEnd(input, p)) != At(input, p);
      p
  }

  // ----------------------------------------------------------------------------------
  // Scanning identifiers, numbers and strings
  // ----------------------------------------------------------------------------------

  /** The end of the maximal run of letters and digits starting at `p`. */
  function IdentEnd(input: string, p: nat): (q: nat)
    ensures p <= q && (q == p || q <= |input|)
    ensures !IsLetter(At(input, q)) && !IsDigit(At(input, q))
    ensures forall k :: p <= k < q ==> IsLetter(At(input, k)) || IsDigit(At(input, k))
    decreases |input| - p
  {
    if IsLetter(At(input, p)) || IsDigit(At(input, p)) then IdentEnd(input, p + 1) else p
  }

  /** The end of the number that continues at `p`; `hasDot` says whether a `.` was already taken. */
  function NumberEnd(input: string, p: nat, hasDot: bool): (q: nat)
    ensures p <= q && (q == p || q <= |input|)
    decreases |input| - p
  {
    var c := At(input, p);
    if IsDigit(c) || (c == '.' && !hasDot) then NumberEnd(input, p + 1, hasDot || c == '.') else p
  }

  /**
   * A number scan takes only digits and dots, never a second dot, and stops at a
   * character that could not continue the number.
   */
  lemma {:induction false} NumberBody(input: string, p: nat, hasDot: bool)
    ensures var q := NumberEnd(input, p, hasDot);
      (forall k :: p <= k < q ==> IsDigit(At(input, k)) || At(input, k) == '.') &&
      (hasDot ==> forall k :: p <= k < q ==> At(input, k) != '.') &&
      (forall i, j :: p <= i < j < q ==> !(At(input, i) == '.' && At(input, j) == '.')) &&
      !IsDigit(At(input, q)) &&
      (At(input, q) == '.' ==> hasDot || exists k :: p <= k < q && At(input, k) == '.')
    decreases |input| - p
  {
    var c := At(input, p);
    if IsDigit(c) || (c == '.' && !hasDot) {
      NumberBody(input, p + 1, hasDot || c == '.');
    }
  }

  /**
   * The position of the quote that closes a string whose text starts at `p`, or of the
   * NUL that ends an unterminated one. A backslash followed by the quote skips both.
   */
  function StringEnd(input: string, p: nat, quote: char): (q: nat)
    requires quote == '"' || quote == '\''
    ensures p <= q && (q == p || q <= |input|)
    ensures At(input, q) == '\0' || At(input, q) == quote
    decreases |input| - p
  {
    var c := At(input, p);
    if c == '\0' || c == quote then p
    else if c == '\\' && At(input, p + 1) == quote then StringEnd(input, p + 2, quote)
    else StringEnd(input, p + 1, quote)
  }

  /**
   * No NUL is scanned inside a string, and every quote of the string's own kind that is
   * scanned over follows a backslash.
   */
  lemma {:induction false} StringBody(input: string, p: nat, quote: char)
    requires quote == '"' || quote == '\''
    ensures var q := StringEnd(input, p, quote);
      (forall k :: p <= k < q ==> At(input, k) != '\0') &&
      (forall k :: p <= k < q && At(input, k) == quote ==> p < k && At(input, k - 1) == '\\')
    decreases |input| - p
  {
    var c := At(input, p);
    if c == '\0' || c == quote {
    } else if c == '\\' && At(input, p + 1) == quote {
      StringBody(input, p + 2, quote);
    } else {
      StringBody(input, p + 1, quote);
    }
  }

  // ----------------------------------------------------------------------------------
  // One token
  // ----------------------------------------------------------------------------------

  /** The kind of a two-character operator whose first character is `c`, if `c` starts one. */
  function TwoCharKind(c: char): (k: Option<TokenType>)
  {
    match c
    case '=' => Some(EQ)
    case '!' => Some(NOT_EQ)
    case '<' => Some(LT_EQ)
    case '>' => Some(GT_EQ)
    case '&' => Some(AND)
    case '|' => Some(OR)
    case _ => None
  }

  /** The second character of the two-character operator that `c` starts. */
  function TwoCharSecond(c: char): char
  {
    if c == '&' || c == '|' then c else '='
  }

  /** The kind of a token made of the single character `c` alone, if there is a rule for it. */
  function SingleKind(c: char): (k: Option<TokenType>)
  {
    match c
    case '=' => Some(ASSIGN)
    case '+' => Some(PLUS)
    case '-' => Some(MINUS)
    case '*' => Some(ASTERISK)
    case '/' => Some(SLASH)
    case '%' => Some(PERCENT)
    case '!' => Some(NOT)
    case '<' => Some(LT)
    case '>' => Some(GT)
    case ',' => Some(COMMA)
    case ';' => Some(SEMICOLON)
    case '(' => Some(LPAREN)
    case ')' => Some(RPAREN)
    case '{' => Some(LBRACE)
    case '}' => Some(RBRACE)
    case _ => None
  }

  /**
   * The token that starts at `s` and the cursor after it. Line and column are those of
   * the counters at the moment the source builds the token: after the whole token for
   * identifiers, numbers and strings (line), at the first character otherwise.
   */
  function Scan(input: string, s: nat): (r: (Token, nat))
    requires AtTokenStart(input, s)
  {
    var c := At(input, s);
    if TwoCharKind(c).Some? && At(input, s + 1) == TwoCharSecond(c) then
      (Token(TwoCharKind(c).value, [c, At(input, s + 1)], LineAfter(input, s + 2), ColumnAfter(input, s + 2) - 1), s + 2)
    else if SingleKind(c).Some? then
      (Token(SingleKind(c).value, [c], LineAfter(input, s + 1), ColumnAfter(input, s + 1)), s + 1)
    else if c == '"' || c == '\'' then
      var e := StringEnd(input, s + 1, c);
      var next := if At(input, e) == '\0' then e else e + 1;
      (Token(STRING, input[s + 1..e], LineAfter(input, next + 1), ColumnAfter(input, s + 1)), next)
    else if c == '\0' then
      (Token(EOF, "", LineAfter(input, s + 1), ColumnAfter(input, s + 1)), s + 1)
    else if IsLetter(c) then
      var e := IdentEnd(input, s);
      var text := input[s..e];
      (Token(Keywords.Lookup(text), text, LineAfter(input, e + 1), ColumnAfter(input, s + 1)), e)
    else if IsDigit(c) then
      var e := NumberEnd(input, s, false);
      (Token(NUMBER, input[s..e], LineAfter(input, e + 1), ColumnAfter(input, s + 1)), e)
    else
      (Token(ILLEGAL, [c], LineAfter(input, s + 1), ColumnAfter(input, s + 1)), s + 1)
  }

  /**
   * What nextToken returns from cursor `p`, and where it leaves the cursor. A token other
   * than EOF starts inside the input, and the cursor always advances.
   */
  function NextToken(input: string, p: nat): (r: (Token, nat))
    ensures p < r.1
    ensures r.0.kind != EOF ==> p < |input| && r.1 <= |input|
  {
    var s := SkipTrivia(input, p);
    var r := Scan(input, s);
    assert r.0.kind != EOF ==> s < |input| by {
      if s >= |input| { assert At(input, s) == '\0'; }
    }
    r
  }

  /** What tokenize returns from cursor `p`: tokens up to and including the first EOF. */
  function Tokenize(input: string, p: nat): (ts: seq<Token>)
    ensures |ts| >= 1 && ts[|ts| - 1].kind == EOF
    decreases if p <= |input| then |input| + 1 - p else 0
  {
    var (tok, next) := NextToken(input, p);
    if tok.kind == EOF then [tok] else [tok] + Tokenize(input, next)
  }

  /** The EOF token that ends the list is the only one in it. */
  lemma {:induction false} TokenizeSingleEof(input: string, p: nat)
    ensures forall i :: 0 <= i < |Tokenize(input, p)| - 1 ==> Tokenize(input, p)[i].kind != EOF
    decreases if p <= |input| then |input| + 1 - p else 0
  {
    var r := NextToken(input, p);
    if r.0.kind != EOF {
      TokenizeSingleEof(input, r.1);
      var rest := Tokenize(input, r.1);
      assert Tokenize(input, p) == [r.0] + rest;
    }
  }


  // ----------------------------------------------------------------------------------
  // Properties of the scanner
  // ----------------------------------------------------------------------------------

  /**
   * Once the input is exhausted the lexer returns EOF with an empty literal, moves the
   * cursor by one, and so returns EOF again on every later call.
   */
  lemma EofForever(input: string, p: nat)
    requires p >= |input|
    ensures NextToken(input, p) ==
      (Token(EOF, "", LineAfter(input, p + 1), ColumnAfter(input, p + 1)), p + 1)
    ensures Tokenize(input, p) == [NextToken(input, p).0]
  {
    assert SkipWhitespace(input, p) == p;
    assert SkipComments(input, p) == p;
  }

  /** The string a block comment leaves unterminated: no star-slash and no NUL after `p`. */
  predicate Unclosed(input: string, p: nat)
  {
    forall k :: p <= k < |input| ==> input[k] != '\0' && !(input[k] == '*' && At(input, k + 1) == '/')
  }

  lemma {:induction false} BlockCommentToEnd(input: string, p: nat)
    requires p <= |input| && Unclosed(input, p)
    ensures BlockCommentEnd(input, p) == |input|
    decreases |input| - p
  {
    if p < |input| {
      BlockCommentToEnd(input, p + 1);
    }
  }

  /** An unterminated block comment silently consumes the rest of the input: the next token is EOF. */
  lemma UnterminatedBlockComment(input: string, p: nat)
    requires p + 1 < |input| && input[p] == '/' && input[p + 1] == '*'
    requires Unclosed(input, p + 2)
    ensures NextToken(input, p).0.kind == EOF
    ensures NextToken(input, p).0.literal == ""
  {
    BlockCommentToEnd(input, p + 2);
    assert SkipWhitespace(input, p) == p;
    assert SkipComments(input, p) == |input|;
    assert SkipTrivia(input, |input|) == |input| by {
      assert SkipWhitespace(input, |input|) == |input|;
    }
  }

  /**
   * `==`, `!=`, `<=`, `>=`, `&&` and `||` each lex as one token with the two characters
   * as its literal, reported at the column of the first character.
   */
  lemma TwoCharOperator(input: string, s: nat)
    requires AtTokenStart(input, s)
    requires TwoCharKind(At(input, s)).Some? && At(input, s + 1) == TwoCharSecond(At(input, s))
    ensures Scan(input, s).1 == s + 2
    ensures Scan(input, s).0 == Token(TwoCharKind(At(input, s)).value, [At(input, s), TwoCharSecond(At(input, s))],
                                      LineAfter(input, s + 1), ColumnAfter(input, s + 1))
  {
  }

  /** The characters that some rule of nextToken accepts as the start of a token. */
  predicate HasRule(c: char)
  {
    SingleKind(c).Some? || c == '"' || c == '\'' || c == '\0' || IsLetter(c) || IsDigit(c)
  }

  /**
   * A character with no rule, or a lone `&` or `|`, becomes a one-character ILLEGAL token
   * and the cursor moves past it. This covers `@`, `[` and `]`.
   */
  lemma IllegalCharacter(input: string, s: nat)
    requires AtTokenStart(input, s)
    requires (!HasRule(At(input, s)) && At(input, s) != '&' && At(input, s) != '|') ||
             ((At(input, s) == '&' || At(input, s) == '|') && At(input, s + 1) != At(input, s))
    ensures Scan(input, s) == (Token(ILLEGAL, [At(input, s)], LineAfter(input, s + 1), ColumnAfter(input, s + 1)), s + 1)
  {
  }

  /** Brackets have no lexer rule. */
  lemma BracketsAreIllegal(input: string, s: nat)
    requires At(input, s) == '[' || At(input, s) == ']'
    ensures AtTokenStart(input, s) && Scan(input, s).0.kind == ILLEGAL
  {
    IllegalCharacter(input, s);
  }

  /** So no token the lexer returns is a bracket. */
  lemma NoBracketTokens(input: string, p: nat)
    ensures NextToken(input, p).0.kind != LBRACKET && NextToken(input, p).0.kind != RBRACKET
  {
    var s := SkipTrivia(input, p);
    if At(input, s) == '[' || At(input, s) == ']' {
      BracketsAreIllegal(input, s);
    }
  }

  /**
   * An identifier is the maximal run of letters, digits and underscores starting with a
   * letter or underscore, classified by the keyword table.
   */
  lemma IdentifierToken(input: string, s: nat)
    requires AtTokenStart(input, s) && IsLetter(At(input, s))
    ensures var (tok, e) := Scan(input, s);
      s < e <= |input| && tok.literal == input[s..e] &&
      tok.kind == Keywords.Lookup(tok.literal) &&
      (forall k :: s <= k < e ==> IsLetter(input[k]) || IsDigit(input[k])) &&
      !IsLetter(At(input, e)) && !IsDigit(At(input, e))
  {
    var e := IdentEnd(input, s);
    assert forall k :: s <= k < e ==> At(input, k) == input[k];
  }

  /** A number is the maximal digit run with at most one dot. */
  lemma NumberToken(input: string, s: nat)
    requires AtTokenStart(input, s) && IsDigit(At(input, s))
    ensures var (tok, e) := Scan(input, s);
      s < e <= |input| && tok.kind == NUMBER && tok.literal == input[s..e] &&
      IsNumberText(tok.literal) &&
      !IsDigit(At(input, e)) && (At(input, e) == '.' ==> '.' in tok.literal)
  {
    var e := NumberEnd(input, s, false);
    NumberBody(input, s, false);
    var t := input[s..e];
    assert forall k :: 0 <= k < |t| ==> t[k] == At(input, s + k);
    if At(input, e) == '.' {
      var k :| s <= k < e && At(input, k) == '.';
      assert t[k - s] == '.';
    }
  }

  /** Hence every NUMBER token the lexer returns has a decimal value. */
  lemma NumberTokensHaveValue(input: string, p: nat)
    ensures NextToken(input, p).0.kind == NUMBER ==> DecimalValue(NextToken(input, p).0.literal).Some?
  {
    var s := SkipTrivia(input, p);
    if IsDigit(At(input, s)) {
      NumberToken(input, s);
    }
  }

  /**
   * A string literal's text is exactly the source between its quotes, backslashes kept;
   * every quote of the same kind inside it follows a backslash. An unterminated string
   * takes everything up to the end of the input (or a NUL). The token carries the column
   * of the opening quote and the line on which scanning ended.
   */
  lemma StringToken(input: string, s: nat)
    requires AtTokenStart(input, s) && (At(input, s) == '"' || At(input, s) == '\'')
    ensures var (tok, next) := Scan(input, s);
      var q := At(input, s);
      var e := StringEnd(input, s + 1, q);
      tok.kind == STRING && tok.literal == input[s + 1..e] &&
      (forall k :: 0 <= k < |tok.literal| && tok.literal[k] == q ==> 0 < k && tok.literal[k - 1] == '\\') &&
      '\0' !in tok.literal &&
      (if At(input, e) == q then next == e + 1 else next == e && At(input, e) == '\0') &&
      tok.column == ColumnAfter(input, s + 1) && tok.line == LineAfter(input, next + 1)
  {
    var q := At(input, s);
    var e := StringEnd(input, s + 1, q);
    assert TwoCharKind(q).None? && SingleKind(q).None?;
    var next := if At(input, e) == '\0' then e else e + 1;
    assert Scan(input, s) == (Token(STRING, input[s + 1..e], LineAfter(input, next + 1), ColumnAfter(input, s + 1)), next);
    StringBody(input, s + 1, q);
    var t := input[s + 1..e];
    assert forall k :: 0 <= k < |t| ==> t[k] == At(input, s + 1 + k);
  }
}
