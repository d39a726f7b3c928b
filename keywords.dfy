/**
 * The reserved words of the language and their classification (lexer/Keywords.java).
 */
module Keywords {
  import opened Tokens

  /** The keyword table: each reserved word and the kind it lexes as. */
  const KEYWORDS: map<string, TokenType> := map[
    "def" := DEF, "let" := LET, "if" := IF, "else" := ELSE, "while" := WHILE,
    "return" := RETURN, "true" := TRUE, "false" := FALSE, "null" := NULL]

  /** The nine kinds a reserved word can have. */
  predicate IsKeywordKind(k: TokenType) {
    k in {DEF, LET, IF, ELSE, WHILE, RETURN, TRUE, FALSE, NULL}
  }

  /** The spelling of a keyword kind: the inverse direction of the table. */
  function Spelling(k: TokenType): (s: string)
    requires IsKeywordKind(k)
  {
    match k
    case DEF => "def"
    case LET => "let"
    case IF => "if"
    case ELSE => "else"
    case WHILE => "while"
    case RETURN => "return"
    case TRUE => "true"
    case FALSE => "false"
    case NULL => "null"
  }

  /** Classifies a scanned identifier: a keyword kind when the text is reserved, IDENTIFIER otherwise. */
  function Lookup(identifier: string): (k: TokenType)
    ensures k == IDENTIFIER || IsKeywordKind(k)
    ensures k != IDENTIFIER ==> Spelling(k) == identifier
  {
    if identifier in KEYWORDS then KEYWORDS[identifier] else IDENTIFIER
  }

  /** Every keyword kind is reached by exactly its own spelling. */
  lemma LookupSpelling(k: TokenType)
    requires IsKeywordKind(k)
    ensures Lookup(Spelling(k)) == k
  {
  }

  /** Lookup gives IDENTIFIER exactly for the texts that are not one of the nine spellings. */
  lemma LookupIdentifier(identifier: string)
    ensures Lookup(identifier) == IDENTIFIER <==>
      forall k :: IsKeywordKind(k) ==> Spelling(k) != identifier
  {
    if Lookup(identifier) == IDENTIFIER {
      forall k | IsKeywordKind(k) ensures Spelling(k) != identifier {
        LookupSpelling(k);
      }
    }
  }

  /** Matching is exact and case-sensitive. */
  lemma LookupCaseSensitive()
    ensures Lookup("Let") == IDENTIFIER && Lookup("NULL") == IDENTIFIER
    ensures Lookup("nulls") == IDENTIFIER && Lookup("iff") == IDENTIFIER
    ensures Lookup("let") == LET && Lookup("null") == NULL
  {
  }
}
