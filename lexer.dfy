/**
 * The lexer of lexer/Lexer.java: a character cursor over the input that is advanced one
 * character at a time by ReadChar and keeps the line and column counters. Every method is
 * proved to leave the cursor where the scanning functions of LexSpec say, so the
 * properties proved there are properties of this class.
 */
module Lexing {
  import opened Tokens
  import opened LexSpec
  import opened Text
  import Keywords

  class Lexer {
    const input: string
    var position: nat      // index of the current character
    var readPosition: nat  // index of the next character
    var ch: char           // the current character, NUL past the end
    var line: int
    var column: int

    /** The counters agree with the first `readPosition` characters read. */
    ghost predicate Counters()
      reads this
    {
      line == LineAfter(input, readPosition) && column == ColumnAfter(input, readPosition)
    }

    /** The cursor invariant that every public operation keeps. */
    ghost predicate Valid()
      reads this
    {
      readPosition == position + 1 && ch == At(input, position) && Counters()
    }

    /** A lexer over `input`, positioned on its first character at line 1. */
    constructor (input: string)
      ensures Valid() && this.input == input && position == 0
      ensures line == LineAfter(input, 1) && column == ColumnAfter(input, 1)
    {
      this.input := input;
      position := 0;
      readPosition := 0;
      ch := '\0';
      line := 1;
      column := 0;
      new;
      ReadChar();
    }

    /**
     * Advances to the next character: the column grows by one, and reading a newline moves
     * to the next line at column 0.
     */
    method ReadChar()
      requires Counters()
      modifies this
      ensures Valid() && position == old(readPosition)
      ensures line == old(line) + (if ch == '\n' then 1 else 0)
      ensures column == (if ch == '\n' then 0 else old(column) + 1)
    {
      if readPosition >= |input| {
        ch := '\0';
      } else {
        ch := input[readPosition];
      }
      position := readPosition;
      readPosition := readPosition + 1;
      column := column + 1;
      if ch == '\n' {
        line := line + 1;
        column := 0;
      }
    }

    /** The character after the current one, NUL past the end; the cursor does not move. */
    function PeekChar(): (c: char)
      reads this
      requires Valid()
      ensures c == At(input, position + 1)
    {
      if readPosition >= |input| then '\0' else input[readPosition]
    }

    /** Skips spaces, tabs, newlines and carriage returns. */
    method SkipWhitespace()
      requires Valid()
      modifies this
      ensures Valid() && position == LexSpec.SkipWhitespace(input, old(position))
    {
      while IsWhitespace(ch)
        invariant Valid()
        invariant LexSpec.SkipWhitespace(input, position) == LexSpec.SkipWhitespace(input, old(position))
        decreases |input| - position
      {
        ReadChar();
      }
    }

    /** Reads up to the end of the line, then past the newline unless the input ended. */
    method SkipLineComment()
      requires Valid()
      modifies this
      ensures Valid() && position == LexSpec.SkipLineComment(input, old(position))
    {
      while ch != '\0' && ch != '\n'
        invariant Valid()
        invariant LineEnd(input, position) == LineEnd(input, old(position))
        decreases |input| - position
      {
        ReadChar();
      }
      if ch != '\0' {
        ReadChar();
      }
    }

    /** Skips one `//`, `#` or block comment starting at the cursor, if there is one. */
    method SkipComments()
      requires Valid()
      modifies this
      ensures Valid() && position == LexSpec.SkipComments(input, old(position))
    {
      if ch == '/' {
        if PeekChar() == '/' {
          SkipLineComment();
        } else if PeekChar() == '*' {
          ReadChar();
          ReadChar();
          var ended := false;
          while !ended && ch != '\0'
            invariant Valid()
            invariant !ended ==> BlockCommentEnd(input, position) == BlockCommentEnd(input, old(position) + 2)
            invariant ended ==> position == BlockCommentEnd(input, old(position) + 2)
            decreases !ended, |input| - position
          {
            if ch == '*' && PeekChar() == '/' {
              ended := true;
              ReadChar();
              ReadChar();
            } else {
              ReadChar();
            }
          }
        }
      } else if ch == '#' {
        SkipLineComment();
      }
    }

    /** Reads the maximal run of letters and digits at the cursor and returns its text. */
    method ReadIdentifier() returns (text: string)
      requires Valid() && IsLetter(ch)
      modifies this
      ensures Valid() && position == IdentEnd(input, old(position))
      ensures old(position) < position <= |input| && text == input[old(position)..position]
    {
      var start := position;
      while IsLetter(ch) || IsDigit(ch)
        invariant Valid() && start <= position
        invariant IdentEnd(input, position) == IdentEnd(input, start)
        decreases |input| - position
      {
        ReadChar();
      }
      text := input[start..position];
    }

    /** Reads digits and at most one dot at the cursor and returns their text. */
    method ReadNumber() returns (text: string)
      requires Valid() && IsDigit(ch)
      modifies this
      ensures Valid() && position == NumberEnd(input, old(position), false)
      ensures old(position) < position <= |input| && text == input[old(position)..position]
    {
      var start := position;
      var hasDot := false;
      while IsDigit(ch) || (ch == '.' && !hasDot)
        invariant Valid() && start <= position
        invariant NumberEnd(input, position, hasDot) == NumberEnd(input, start, false)
        decreases |input| - position
      {
        if ch == '.' {
          hasDot := true;
        }
        ReadChar();
      }
      text := input[start..position];
    }

    /**
     * Reads a string literal opened by `quote` at the cursor. The text between the quotes is
     * returned verbatim; a backslash followed by the quote does not close the string, and an
     * unterminated string returns everything up to the end without an error.
     */
    method ReadString(quote: char) returns (text: string)
      requires Valid() && ch == quote && (quote == '"' || quote == '\'')
      modifies this
      ensures Valid()
      ensures var e := StringEnd(input, old(position) + 1, quote);
        text == input[old(position) + 1..e] &&
        position == (if At(input, e) == '\0' then e else e + 1)
    {
      ReadChar();
      var start := position;
      while ch != '\0' && ch != quote
        invariant Valid() && start <= position
        invariant StringEnd(input, position, quote) == StringEnd(input, start, quote)
        decreases |input| - position
      {
        if ch == '\\' && PeekChar() == quote {
          ReadChar();
        }
        ReadChar();
      }
      if ch == '\0' {
        text := input[start..position];
        return;
      }
      text := input[start..position];
      ReadChar();
    }

    /**
     * Returns the next token: first skips whitespace and comments, round after round until
     * a round advances nothing, then applies the rule for the character under the cursor.
     */
    method NextToken() returns (tok: Token)
      requires Valid()
      modifies this
      ensures Valid() && (tok, position) == LexSpec.NextToken(input, old(position))
    {
      var skipped := true;
      while skipped
        invariant Valid()
        invariant skipped ==> SkipTrivia(input, position) == SkipTrivia(input, old(position))
        invariant !skipped ==> position == SkipTrivia(input, old(position))
        decreases skipped, |input| - position
      {
        var before := position;
        SkipWhitespace();
        SkipComments();
        skipped := position > before;
      }
      tok := ScanToken();
    }

    /** The switch of nextToken: the token that starts at the cursor, which is not on whitespace or a comment. */
    method ScanToken() returns (tok: Token)
      requires Valid() && AtTokenStart(input, position)
      modifies this
      ensures Valid() && (tok, position) == Scan(input, old(position))
    {
      if TwoCharKind(ch).Some? && PeekChar() == TwoCharSecond(ch) {
        var first := ch;
        ReadChar();
        tok := Token(TwoCharKind(first).value, [first, ch], line, column - 1);
      } else if ch == '#' {
        // The skip loop has already consumed every comment, so a token never starts on '#'.
        assert false;
      } else if ch == '/' && (PeekChar() == '/' || PeekChar() == '*') {
        // Likewise for the two comment openers that start with a slash.
        assert false;
      } else if SingleKind(ch).Some? {
        tok := Token(SingleKind(ch).value, [ch], line, column);
      } else if ch == '"' || ch == '\'' {
        var startColumn := column;
        var text := ReadString(ch);
        tok := Token(STRING, text, line, startColumn);
        return;
      } else if ch == '\0' {
        tok := Token(EOF, "", line, column);
      } else if IsLetter(ch) {
        var startColumn := column;
        var text := ReadIdentifier();
        tok := Token(Keywords.Lookup(text), text, line, startColumn);
        return;
      } else if IsDigit(ch) {
        var startColumn := column;
        var text := ReadNumber();
        tok := Token(NUMBER, text, line, startColumn);
        return;
      } else {
        tok := Token(ILLEGAL, [ch], line, column);
      }
      ReadChar();
    }

    /** Returns the tokens from the cursor on, up to and including the first EOF token. */
    method Tokenize() returns (tokens: seq<Token>)
      requires Valid()
      modifies this
      ensures Valid() && tokens == LexSpec.Tokenize(input, old(position))
    {
      var tok := NextToken();
      tokens := [tok];
      while tok.kind != EOF
        invariant Valid()
        invariant tok.kind != EOF ==>
                    position <= |input| &&
                    tokens + LexSpec.Tokenize(input, position) == LexSpec.Tokenize(input, old(position))
        invariant tok.kind == EOF ==> tokens == LexSpec.Tokenize(input, old(position))
        decreases if tok.kind == EOF then 0 else |input| + 1 - position
      {
        tok := NextToken();
        tokens := tokens + [tok];
      }
    }
  }
}
