# A verified model of the interpreterj core

interpreterj is a small sandboxed interpreter for a dynamically typed scripting language,
written in Java. Source text flows through a character-cursor lexer, a recursive-descent
parser with a precedence-climbing expression loop and a rewindable token buffer, and a
tree-walking evaluator over a chain of scopes. A driver (`Interpreter`) wraps the parse and
evaluation results and registers a library of native functions. Two string helpers of the
HTTP front end escape JSON text and read request bodies.

This project models that core in Dafny and proves what the code promises:

- **Lexer** (`lexspec.dfy`, `lexer.dfy`, `tokens.dfy`, `keywords.dfy`, `text.dfy`). `LexSpec`
  states, as functions of the input and the cursor, where each skip and scan loop stops and
  which token `nextToken` returns; the class `Lexing.Lexer` has the Java fields (`position`,
  `readPosition`, `ch`, `line`, `column`) and each of its methods is proved to do exactly
  what `LexSpec` says. Lemmas cover the line and column bookkeeping, the skip loop, EOF
  forever, unterminated comments and strings, two-character operators, ILLEGAL characters,
  and the shape of identifiers, numbers and strings.
- **Parser** (`grammar.dfy`, `parser.dfy`, `precedence.dfy`, `ast.dfy`). `Grammar` states
  each parse rule as a function over the lexer's token stream and a parse state (the
  cursor and the error list); the precedence and rule tables are Java's. The class
  `Parsing.Parser` keeps the append-only token buffer, the cursor and the error list. Its
  invariant is that the buffer holds the first tokens of the lexer's stream, with
  `2 <= currentPosition <= |tokens|`, `peekToken == tokens[currentPosition - 1]` and
  `currentToken == tokens[currentPosition - 2]`, so every rewind index is in range. Each
  parse method is proved to return the tree, cursor and errors of its `Grammar` rule, and
  `Driver.Interpreter.Parse` stores `Grammar.ParseSource` of the source text.
  `OperatorPrecedence` proves what the tables mean for trees: `a + b * c;` is
  `a + (b * c)`, `a || b && c;` is `a || (b && c)`, and operators of one strength group to
  the left. Termination is proved, without fuel.
- **Evaluator** (`values.dfy`, `operators.dfy`, `semantics.dfy`, `interp.dfy`, `laws.dfy`).
  - Lists, maps, scopes and closures live in a heap and are referred to by index, so
    aliasing is the Java aliasing.
  - `Semantics.Eval` is the evaluate method of every node class, as a function. The class
    `Interp.Runtime` holds the heap as fields and evaluates imperatively, with the Java
    loops. Each of its methods is proved equal to `Eval`.
  - `Laws` proves the properties the node classes promise: sequencing, return
    propagation, step tracking, scoping, loop iterations, closure declarations and calls,
    index reads and writes.
- **Governor data** (`quota.dfy`): the quota record with its defaults and the limit kinds
  with their descriptions.
- **Driver and library** (`builtins.dfy`, `driver.dfy`): the natives of the list, map,
  string and type libraries; `parse`, `evaluate` and `formatErrors`.
- **HTTP helpers** (`javastrings.dfy`, `jsonescape.dfy`, `formdata.dfy`): `escapeJson`,
  which is also the body of `StringLiteral.escapeJsonString`, and `parseFormData`. Both are
  built on models of Java's `String.replace` and `String.split`.

The platform behaviour the sources leave undefined is a field of the `Values.Host` record,
and every result holds for every host. These fields are:

- double division and remainder;
- the text of a double;
- the `toString` of lists, maps and lambdas;
- the class name of a lambda;
- the message of a NullPointerException;
- the step ledger behind `trackEvaluationStep`.

Script numbers are `real`. A Java `int` is the subset type `Quota.Int32`, and `intValue`
truncates toward zero and clamps, as Java does.

Evaluation is bounded by fuel: each closure call and each loop iteration costs one unit.
Running out gives the outcome `OutOfFuel`, which the Java program does not have. Every
outcome other than `OutOfFuel` and `Unsupported` is computed as the Java code computes
it; no lemma states that more fuel never changes such an outcome.

Where the code and the documented behaviour of the language disagree, the model follows
the code. These places are:

- brackets lex as ILLEGAL;
- no prefix rule builds a map literal;
- indexing rejects maps;
- a call checks its arity strictly;
- blocks open no scope;
- list `+` list is null.

The lemmas `LexSpec.BracketsAreIllegal`, `Laws.ArityChecked` and
`Operators.UnsupportedPairsAreNull` state three of them.

## Model

| member | source | states |
|---|---|---|
| `Tokens.Name` | src/main/java/interpreter/lexer/TokenType.java:6-58 | every token kind has its constant's non-empty name, the text `%s` prints in the parser's messages; `Tokens.NameRoundTrip` reads it back |
| `Tokens.NameRoundTrip` | src/main/java/interpreter/lexer/TokenType.java:6-58 | every kind is found again from its name |
| `Tokens.NameInjective` | src/main/java/interpreter/lexer/TokenType.java:6-58 | no two kinds print the same name, so a parser message names the kind unambiguously |
| `Keywords.Lookup` | src/main/java/interpreter/lexer/Keywords.java:27-29 | the result is IDENTIFIER or one of the nine keyword kinds, and a keyword kind is returned only for its own spelling |
| `Keywords.LookupSpelling` | src/main/java/interpreter/lexer/Keywords.java:12-22 | each of `def let if else while return true false null` maps to its kind |
| `Keywords.LookupIdentifier` | src/main/java/interpreter/lexer/Keywords.java:27-29 | IDENTIFIER is returned exactly for the texts that are none of the nine spellings |
| `Keywords.LookupCaseSensitive` | src/main/java/interpreter/lexer/Keywords.java:28 | matching is exact and case-sensitive: "Let", "NULL", "nulls" and "iff" are identifiers |
| `Text.NatText` | src/main/java/interpreter/ast/Node.java:37-39 | the decimal text of a natural number is a digit run without leading zeros |
| `Text.IntText` | src/main/java/interpreter/ast/Node.java:37-39 | the text of an int starts with '-' exactly when the int is negative |
| `Text.NatTextValue` | src/main/java/interpreter/ast/Node.java:37-39 | the digits of a natural number read back as that number |
| `Text.IntTextRoundTrip` | src/main/java/interpreter/ast/Node.java:37-39 | reading the text of an int gives the int back |
| `Text.IntTextInjective` | src/main/java/interpreter/ast/Node.java:37-39 | distinct ints have distinct texts |
| `Text.DecimalValue` | src/main/java/interpreter/parser/Parser.java:636-650 | the literal has a value exactly when it is number text (a digit, then digits and at most one dot) |
| `Text.DecimalOfNatText` | src/main/java/interpreter/parser/Parser.java:636-650 | integer text reads as the integer it renders |
| `Text.DecimalExamples` | src/main/java/interpreter/parser/Parser.java:636-650 | "12.5" is 12.5, "7." is 7, and "1.2.3" is no number |
| `Ast.PositionText` | src/main/java/interpreter/ast/Node.java:37-39 | Position.toString puts the first colon right after the line's digits |
| `Ast.IntTextNoColon` | src/main/java/interpreter/ast/Node.java:37-39 | the text of an int holds no colon |
| `Ast.PositionTextRoundTrip` | src/main/java/interpreter/ast/Node.java:37-39 | "line:column" determines the position: reading it back gives the position |
| `Ast.SetPosition` | src/main/java/interpreter/ast/Node.java:45-47 | the position becomes exactly (line, column) and every other field of the node is kept |
| `Ast.AddStatement` | src/main/java/interpreter/ast/Program.java:25-29 | a null statement is ignored; any other is appended after the earlier ones, which keep their order |
| `Ast.AddStatementNeverAddsNull` | src/main/java/interpreter/ast/BlockStatement.java:27-31 | a statement list built by addStatement never holds a null statement |
| `Quota.QuotaWithDefaultStringLength` | src/main/java/interpreter/runtime/ResourceQuota.java:85-89 | the four-argument constructor keeps the four limits it is given and sets the default string length |
| `Quota.DefaultQuota` | src/main/java/interpreter/runtime/ResourceQuota.java:52-56 | the no-argument constructor gives 500, 10000, 1000, 100000 and 1000000 |
| `Quota.Description` | src/main/java/interpreter/runtime/ResourceExhaustionError.java:29-53 | every limit kind's description reads "Maximum ... exceeded" |
| `Quota.DescriptionInjective` | src/main/java/interpreter/runtime/ResourceExhaustionError.java:29-46 | distinct limit kinds have distinct descriptions |
| `LexSpec.LineAfter` | src/main/java/interpreter/lexer/Lexer.java:32-48 | the line counter starts at 1 and never falls below it |
| `LexSpec.ColumnAfter` | src/main/java/interpreter/lexer/Lexer.java:32-48 | the column counter never exceeds the number of characters read |
| `LexSpec.LineCountsNewlines` | src/main/java/interpreter/lexer/Lexer.java:32-48 | the line is one more than the number of newlines read |
| `LexSpec.ColumnCountsSinceNewline` | src/main/java/interpreter/lexer/Lexer.java:32-48 | the column counts the characters read since the last newline |
| `LexSpec.FirstColumnOfLine` | src/main/java/interpreter/lexer/Lexer.java:32-48 | the first character of a line is reported in column 1 |
| `LexSpec.SkipWhitespace` | src/main/java/interpreter/lexer/Lexer.java:262-266 | the cursor stops on the first character that is not a space, tab, newline or carriage return |
| `LexSpec.LineEnd` | src/main/java/interpreter/lexer/Lexer.java:274-283 | a line comment runs to the first newline or to the end of the input |
| `LexSpec.BlockCommentEnd` | src/main/java/interpreter/lexer/Lexer.java:284-297 | the block comment loop never moves the cursor back or past the end of the input |
| `LexSpec.SkipComments` | src/main/java/interpreter/lexer/Lexer.java:272-309 | skipComments never moves the cursor back or past the end of the input |
| `LexSpec.SkipTrivia` | src/main/java/interpreter/lexer/Lexer.java:68-75 | the skip loop leaves the cursor where no whitespace and no comment starts |
| `LexSpec.IdentEnd` | src/main/java/interpreter/lexer/Lexer.java:210-216 | an identifier scan takes the maximal run of letters, digits and underscores |
| `LexSpec.NumberEnd` | src/main/java/interpreter/lexer/Lexer.java:221-233 | a number scan never moves the cursor back or past the end of the input |
| `LexSpec.NumberBody` | src/main/java/interpreter/lexer/Lexer.java:221-233 | a number scan takes only digits and dots, never a second dot, and stops at a character that cannot continue it |
| `LexSpec.StringEnd` | src/main/java/interpreter/lexer/Lexer.java:238-257 | a string scan stops at the closing quote or at the end of the input |
| `LexSpec.StringBody` | src/main/java/interpreter/lexer/Lexer.java:238-257 | inside a string there is no NUL, and every quote of its own kind follows a backslash |
| `LexSpec.NextToken` | src/main/java/interpreter/lexer/Lexer.java:64-205 | every call advances the cursor, and a token other than EOF starts inside the input |
| `LexSpec.Tokenize` | src/main/java/interpreter/lexer/Lexer.java:328-338 | tokenize's list is non-empty and ends with EOF |
| `LexSpec.TokenizeSingleEof` | src/main/java/interpreter/lexer/Lexer.java:328-338 | the EOF that ends the list is the only EOF in it |
| `LexSpec.EofForever` | src/main/java/interpreter/lexer/Lexer.java:185-187 | once the input is exhausted, nextToken returns EOF with an empty literal and then EOF again on every call |
| `LexSpec.BlockCommentToEnd` | src/main/java/interpreter/lexer/Lexer.java:284-297 | an unclosed block comment runs to the end of the input |
| `LexSpec.UnterminatedBlockComment` | src/main/java/interpreter/lexer/Lexer.java:284-297 | an unterminated `/*` silently swallows the rest of the input: the next token is EOF with an empty literal |
| `LexSpec.TwoCharOperator` | src/main/java/interpreter/lexer/Lexer.java:79-161 | `==`, `!=`, `<=`, `>=`, `&&` and `||` are one token each, with both characters as the literal, at the first character's column |
| `LexSpec.IllegalCharacter` | src/main/java/interpreter/lexer/Lexer.java:188-204 | a character without a rule, or a lone `&` or `|`, is a one-character ILLEGAL token, and the cursor moves past it |
| `LexSpec.BracketsAreIllegal` | src/main/java/interpreter/lexer/Lexer.java:188-204 | `[` and `]` have no rule and lex as ILLEGAL |
| `LexSpec.NoBracketTokens` | src/main/java/interpreter/lexer/Lexer.java:64-205 | the lexer never returns an LBRACKET or RBRACKET token |
| `LexSpec.IdentifierToken` | src/main/java/interpreter/lexer/Lexer.java:210-216 | an identifier is the maximal letter and digit run starting with a letter, and lookup classifies it |
| `LexSpec.NumberToken` | src/main/java/interpreter/lexer/Lexer.java:221-233 | a number is the maximal digit run with at most one dot, with no sign and no exponent |
| `LexSpec.NumberTokensHaveValue` | src/main/java/interpreter/lexer/Lexer.java:221-233 | every NUMBER token's literal is number text, so reading it as a number never fails |
| `LexSpec.StringToken` | src/main/java/interpreter/lexer/Lexer.java:238-257 | the literal is the source between the quotes, backslashes kept; an unterminated string takes the rest of the input; the column is the start's and the line is the end's |
| `Lexing.Lexer.constructor` | src/main/java/interpreter/lexer/Lexer.java:18-27 | a new lexer is on the input's first character, with the counters of one read |
| `Lexing.Lexer.ReadChar` | src/main/java/interpreter/lexer/Lexer.java:32-48 | the column grows by one; a newline moves to the next line, column 0 |
| `Lexing.Lexer.PeekChar` | src/main/java/interpreter/lexer/Lexer.java:53-59 | the character after the current one, NUL past the end |
| `Lexing.Lexer.SkipWhitespace` | src/main/java/interpreter/lexer/Lexer.java:262-266 | the loop stops where `LexSpec.SkipWhitespace` says |
| `Lexing.Lexer.SkipLineComment` | src/main/java/interpreter/lexer/Lexer.java:274-283 | the line comment loop stops past the newline, or at the end of the input |
| `Lexing.Lexer.SkipComments` | src/main/java/interpreter/lexer/Lexer.java:272-309 | one comment is skipped, ending where `LexSpec.SkipComments` says |
| `Lexing.Lexer.ReadIdentifier` | src/main/java/interpreter/lexer/Lexer.java:210-216 | returns exactly the input from the start to the end of the identifier run |
| `Lexing.Lexer.ReadNumber` | src/main/java/interpreter/lexer/Lexer.java:221-233 | returns exactly the input from the start to the end of the number run |
| `Lexing.Lexer.ReadString` | src/main/java/interpreter/lexer/Lexer.java:238-257 | returns the text between the quotes, and the cursor is past the closing quote or at the end |
| `Lexing.Lexer.NextToken` | src/main/java/interpreter/lexer/Lexer.java:64-205 | the token and the new cursor are those of `LexSpec.NextToken` |
| `Lexing.Lexer.ScanToken` | src/main/java/interpreter/lexer/Lexer.java:77-204 | the switch gives the token and cursor of `LexSpec.Scan` |
| `Lexing.Lexer.Tokenize` | src/main/java/interpreter/lexer/Lexer.java:328-338 | the tokens are exactly `LexSpec.Tokenize`, up to and including the first EOF |
| `Grammar.BindingTokensHaveInfixRules` | src/main/java/interpreter/parser/Parser.java:119-166 | a token binds more strongly than LOWEST exactly when it has an infix rule, so the expression loop always finds one |
| `Grammar.ParseSource` | src/main/java/interpreter/main/Interpreter.java:163-171 | parse of a source: a lexer from the first character, two tokens read, then parseProgram; the tree is a program at 0:0 and the cursor ends on an EOF of the lexer's stream |
| `Grammar.ReadProgram` | src/main/java/interpreter/parser/Parser.java:193-205 | the statement loop ends on EOF with a program at 0:0 |
| `Grammar.ReadStatements` | src/main/java/interpreter/parser/Parser.java:196-202 | the program loop stops only on an EOF token and never drops an error |
| `Grammar.ReadAssignedValue` | src/main/java/interpreter/parser/Parser.java:371-377 | the value after `=` always consumes at least one token |
| `Grammar.ReadNames` | src/main/java/interpreter/parser/Parser.java:432-438 | the `, name` loop records no error |
| `Grammar.BlockRound` | src/main/java/interpreter/parser/Parser.java:549-557 | one round of the block loop is parseStatement, addStatement and nextToken |
| `Grammar.BlockExit` | src/main/java/interpreter/parser/Parser.java:549-568 | the block loop ends at `}` or EOF, with the block or the "Expected '}'" error |
| `Grammar.OperatorsExit` | src/main/java/interpreter/parser/Parser.java:608-609 | the expression loop stops at `;` and before a token that binds no more strongly than the bound |
| `Grammar.MoreItemsExit` | src/main/java/interpreter/parser/Parser.java:764-769 | the list loop stops before a token that is not a comma |
| `Grammar.NamesExit` | src/main/java/interpreter/parser/Parser.java:432-438 | the parameter loop stops before a token that is not a comma |
| `OperatorPrecedence.ThreeOperands` | src/main/java/interpreter/parser/Parser.java:591-622 | `a op1 b op2 c` parses as `a op1 (b op2 c)` when op2 binds more strongly, and as `(a op1 b) op2 c` otherwise, with no error and the cursor on `c` |
| `OperatorPrecedence.ThreeOperandStatement` | src/main/java/interpreter/parser/Parser.java:574-586 | the same as an expression statement at `a`, the trailing `;` consumed |
| `OperatorPrecedence.ProductBindsTighterThanSum` | src/test/java/interpreter/parser/ParserTest.java:249-281 | `a + b * c;` is the statement `a + (b * c)` |
| `OperatorPrecedence.AndBindsTighterThanOr` | src/test/java/interpreter/parser/ParserTest.java:283-317 | `a || b && c;` is the statement `a || (b && c)` |
| `OperatorPrecedence.EqualStrengthGroupsLeft` | src/main/java/interpreter/parser/Parser.java:608-619 | two operators of one strength group to the left: `a - b - c;` is `(a - b) - c` |
| `Parsing.Parser.constructor` | src/main/java/interpreter/parser/Parser.java:108-167 | the parser starts with two tokens of the lexer's stream read, no errors and the cursor at 2 |
| `Parsing.Parser.Prime` | src/main/java/interpreter/parser/Parser.java:136-137 | the constructor's two nextToken calls fill the buffer with the stream's first two tokens |
| `Parsing.Parser.Pull` | src/main/java/interpreter/parser/Parser.java:289-294 | one lexer call returns the stream's next token and moves the lexer to the next cursor |
| `Parsing.Parser.NextToken` | src/main/java/interpreter/parser/Parser.java:283-295 | the peek token becomes current and the cursor moves by one; the lexer is called only at the end of the buffer, whose new token is appended |
| `Parsing.Parser.Replay` | src/main/java/interpreter/parser/Parser.java:285-288 | inside the buffer the next token comes from the buffer, which is unchanged |
| `Parsing.Parser.ReadAhead` | src/main/java/interpreter/parser/Parser.java:289-294 | at the end of the buffer, the lexer's token is appended and becomes the peek token |
| `Parsing.Parser.Rewind` | src/main/java/interpreter/parser/Parser.java:259-262 | a rewind puts the cursor on the saved position, restores the current and peek tokens from the buffer, and keeps the buffer and the errors |
| `Parsing.Parser.AddError` | src/main/java/interpreter/parser/Parser.java:560-564 | appends one error and changes nothing else |
| `Parsing.Parser.PeekError` | src/main/java/interpreter/parser/Parser.java:327-333 | records "Expected next token to be X, got Y instead" at the peek token, and nothing else changes |
| `Parsing.Parser.ExpectPeek` | src/main/java/interpreter/parser/Parser.java:314-322 | advances exactly one token when the peek token has the expected kind; otherwise records the error at the peek token and does not move; this is `Grammar.Expect` |
| `Parsing.Parser.ParseProgram` | src/main/java/interpreter/parser/Parser.java:193-205 | the program, cursor and errors are those of `Grammar.ReadProgram`: a program at 0:0 ending on EOF, with no null statement in it |
| `Parsing.Parser.ParseStatement` | src/main/java/interpreter/parser/Parser.java:210-278 | the statement, cursor and errors are those of `Grammar.ReadStatement`; the shape follows the first two tokens, and `IDENT =` is always an assignment |
| `Parsing.Parser.ParseSimpleStatement` | src/main/java/interpreter/parser/Parser.java:224-276 | as `Grammar.ReadSimpleStatement`: `IDENT [` gives an index assignment, an expression statement or null; `IDENT =` an assignment at the identifier; anything else an expression statement |
| `Parsing.Parser.ParseIndexedStatement` | src/main/java/interpreter/parser/Parser.java:228-268 | the parse ahead, the rewind and the second parse end as `Grammar.ReadIndexedStatement`, keeping the look-ahead's errors |
| `Parsing.Parser.ParseVariableDeclaration` | src/main/java/interpreter/parser/Parser.java:357-383 | as `Grammar.ReadDeclaration`: a declaration of the name after `let`, positioned at `let`, or null |
| `Parsing.Parser.ParseAssignedValue` | src/main/java/interpreter/parser/Parser.java:371-377 | as `Grammar.ReadAssignedValue`, consuming at least one token |
| `Parsing.Parser.ParseFunctionDeclaration` | src/main/java/interpreter/parser/Parser.java:388-413 | as `Grammar.ReadFunctionDeclaration`: a declaration of the name after `def`, positioned at `def`, or null |
| `Parsing.Parser.ParseFunctionParameters` | src/main/java/interpreter/parser/Parser.java:418-445 | the names, cursor and errors of `Grammar.ReadParameters`; without a new error the list exists and ends at `)` |
| `Parsing.Parser.ParseMoreNames` | src/main/java/interpreter/parser/Parser.java:432-438 | the comma loop gives the names of `Grammar.ReadNames`, two tokens per name, with no new error |
| `Parsing.Parser.ParseIfStatement` | src/main/java/interpreter/parser/Parser.java:450-485 | as `Grammar.ReadIf`: an if statement positioned at `if`, or null |
| `Parsing.Parser.ParseElseBranch` | src/main/java/interpreter/parser/Parser.java:470-484 | as `Grammar.ReadElse`: the if statement with or without an alternative |
| `Parsing.Parser.ParseElseBlock` | src/main/java/interpreter/parser/Parser.java:471-478 | the `else { ... }` as `Grammar.ReadElse` |
| `Parsing.Parser.ParseReturnStatement` | src/main/java/interpreter/parser/Parser.java:490-508 | as `Grammar.ReadReturn`: always a return statement at `return`, whose value is null right before `;` |
| `Parsing.Parser.ParseWhileStatement` | src/main/java/interpreter/parser/Parser.java:513-537 | as `Grammar.ReadWhile`: a while statement positioned at `while`, or null |
| `Parsing.Parser.ParseBlockStatement` | src/main/java/interpreter/parser/Parser.java:542-569 | as `Grammar.ReadBlock`: ends at `}` with no null statement, or at EOF with "Expected '}'" as the last error and a null result |
| `Parsing.Parser.ParseBlockStatements` | src/main/java/interpreter/parser/Parser.java:547-568 | the block loop as `Grammar.ReadBlockStatements` |
| `Parsing.Parser.ParseBlockRound` | src/main/java/interpreter/parser/Parser.java:549-557 | one round of the block loop, as `Grammar.BlockRound` gives it, keeping the statements non-null |
| `Parsing.Parser.ParseBlockEnd` | src/main/java/interpreter/parser/Parser.java:559-568 | the block at `}`, or the error at EOF, as `Grammar.BlockEnd` |
| `Parsing.Parser.ParseExpressionStatement` | src/main/java/interpreter/parser/Parser.java:574-586 | as `Grammar.ReadExpressionStatement`: always an expression statement at its first token |
| `Parsing.Parser.ParseExpression` | src/main/java/interpreter/parser/Parser.java:591-622 | as `Grammar.ReadExpression`: with no prefix rule, one error "No prefix parse function for ..." and null; otherwise stops at `;` or at a peek token binding no more strongly than the bound |
| `Parsing.Parser.ParseOperators` | src/main/java/interpreter/parser/Parser.java:608-619 | the precedence loop as `Grammar.ReadOperators`, stopping where `Grammar.OperatorsExit` says |
| `Parsing.Parser.ParseOperator` | src/main/java/interpreter/parser/Parser.java:611-618 | one round of the precedence loop, as `Grammar.ReadOperators` takes it |
| `Parsing.Parser.ParsePrefix` | src/main/java/interpreter/parser/Parser.java:593-604 | the registered prefix rule as `Grammar.ReadPrefix` |
| `Parsing.Parser.ParseInfix` | src/main/java/interpreter/parser/Parser.java:610-618 | the registered infix rule as `Grammar.ReadInfix` |
| `Parsing.Parser.ParseIdentifier` | src/main/java/interpreter/parser/Parser.java:627-631 | an identifier of the current token's text at its position |
| `Parsing.Parser.ParseNumberLiteral` | src/main/java/interpreter/parser/Parser.java:636-650 | as `Grammar.ReadNumber`: the literal's decimal value at the token's position, or an error and null when the text is not a number; the cursor does not move |
| `Parsing.Parser.ParseStringLiteral` | src/main/java/interpreter/parser/Parser.java:655-659 | a string literal of the token's text at its position |
| `Parsing.Parser.ParseBooleanLiteral` | src/main/java/interpreter/parser/Parser.java:664-670 | true exactly when the token is TRUE |
| `Parsing.Parser.ParseNullLiteral` | src/main/java/interpreter/parser/Parser.java:675-679 | a null literal at the token's position |
| `Parsing.Parser.ParseGroupedExpression` | src/main/java/interpreter/parser/Parser.java:684-694 | as `Grammar.ReadGrouped`: the inner expression ending at `)`, or null |
| `Parsing.Parser.ParsePrefixExpression` | src/main/java/interpreter/parser/Parser.java:699-711 | as `Grammar.ReadPrefixExpression`: the operator applied to an operand parsed at PREFIX strength |
| `Parsing.Parser.ParseInfixExpression` | src/main/java/interpreter/parser/Parser.java:716-729 | as `Grammar.ReadInfixExpression`: left operand kept, operator from the token, the right operand parsed at the operator's own strength |
| `Parsing.Parser.ParseCallExpression` | src/main/java/interpreter/parser/Parser.java:734-742 | as `Grammar.ReadCall`: a call of the given callee at `(` |
| `Parsing.Parser.ParseArrayLiteral` | src/main/java/interpreter/parser/Parser.java:804-812 | as `Grammar.ReadArray`: an array literal at `[` |
| `Parsing.Parser.ParseList` | src/main/java/interpreter/parser/Parser.java:747-774 | as `Grammar.ReadList`: the list ends at the closing token; without a new error it exists |
| `Parsing.Parser.ParseMoreItems` | src/main/java/interpreter/parser/Parser.java:764-769 | the comma loop as `Grammar.ReadMoreItems`, stopping before a token that is not a comma |
| `Parsing.Parser.ParseItem` | src/main/java/interpreter/parser/Parser.java:763-766 | one round of the comma loop adds exactly one item, as `Grammar.ReadMoreItems` takes it |
| `Parsing.Parser.ParseIndexExpression` | src/main/java/interpreter/parser/Parser.java:849-863 | as `Grammar.ReadIndex`: an index of the given target at `[`, null only together with a new error |
| `Parsing.Parser.ParseAssignmentStatement` | src/main/java/interpreter/parser/Parser.java:779-799 | as `Grammar.ReadAssignment`: an assignment to the identifier at its position; never null when `=` follows |
| `Parsing.Parser.ParseIndexAssignmentStatement` | src/main/java/interpreter/parser/Parser.java:868-909 | as `Grammar.ReadIndexAssignment`: an index assignment whose target is the identifier at its own position, or null |
| `Values.Exhausted` | src/main/java/interpreter/runtime/ResourceExhaustionError.java:63-66 | the error's message is its kind's description, at the given line and column |
| `Values.Track` | src/main/java/interpreter/ast/Node.java:62-64 | the step hook records the node's own position, or refuses it with EVALUATION_STEPS at that position and changes nothing |
| `Values.Extend` | src/main/java/interpreter/runtime/EvaluationContext.java:29-31 | a new scope with empty tables whose parent is the given one |
| `Values.Owner` | src/main/java/interpreter/runtime/EvaluationContext.java:71-81 | the scope found is at or below the starting one and binds the name itself |
| `Values.Define` | src/main/java/interpreter/runtime/EvaluationContext.java:36-39 | the name resolves to the new value in that scope |
| `Values.Assign` | src/main/java/interpreter/runtime/EvaluationContext.java:71-89 | succeeds exactly when a scope on the chain binds the name, and then overwrites that nearest binding |
| `Values.DefineOtherName` | src/main/java/interpreter/runtime/EvaluationContext.java:36-39 | define changes no other name, seen from any scope |
| `Values.DefineInvisibleBelow` | src/main/java/interpreter/runtime/EvaluationContext.java:36-39 | a binding is invisible from the scopes created before it, so outer scopes are unchanged |
| `Values.ExtendSeesParent` | src/main/java/interpreter/runtime/EvaluationContext.java:20-31 | extend changes no existing scope's view, and the child sees what its parent sees |
| `Values.ExtendParentStep` | src/main/java/interpreter/runtime/EvaluationContext.java:20-31 | the existing scopes resolve every name as before |
| `Values.OwnerIsVisible` | src/main/java/interpreter/runtime/EvaluationContext.java:44-58 | every name assign accepts is one get resolves |
| `Values.AssignThenLookup` | src/main/java/interpreter/runtime/EvaluationContext.java:71-81 | after assign, get gives the new value: no nearer binding hides it |
| `Values.NewList` | src/main/java/interpreter/ast/ArrayLiteral.java:31 | a fresh list that no earlier value refers to |
| `Values.NewDict` | src/main/java/interpreter/ast/MapLiteral.java:32 | a fresh map that no earlier value refers to |
| `Values.Find` | src/main/java/interpreter/ast/MapLiteral.java:46 | the entry found has the key, and no earlier entry does |
| `Values.Put` | src/main/java/interpreter/ast/MapLiteral.java:46 | after put the key maps to the value, the size grows only for a new key, other keys are unchanged and keys stay distinct |
| `Values.FindFirst` | src/main/java/interpreter/ast/MapLiteral.java:46 | the first entry with the key is the one found |
| `Values.FindUpdate` | src/main/java/interpreter/ast/MapLiteral.java:46 | replacing one entry's value moves no other key |
| `Values.FindSnoc` | src/main/java/interpreter/ast/MapLiteral.java:46 | a key put after the others is found last |
| `Values.FindSnocOther` | src/main/java/interpreter/ast/MapLiteral.java:46 | appending one key leaves every other key's entry as it was |
| `Values.RemoveKey` | src/main/java/interpreter/main/Interpreter.java:419-431 | removing an absent key changes nothing; a present one shrinks the map by one |
| `Values.KeyValue` | src/main/java/interpreter/ast/MapLiteral.java:37 | every key comes from a string or a number value |
| `Values.NumberIntValue` | src/main/java/interpreter/ast/IndexExpression.java:59 | intValue rounds toward zero, clamped to the int range |
| `Operators.FalsyValues` | src/main/java/interpreter/util/Evaluator.java:14-28 | exactly null, false, 0 and "" are falsy |
| `Operators.ApplyPrefix` | src/main/java/interpreter/util/Evaluator.java:37-53 | `!` is the negated truthiness, `-` negates numbers and gives null otherwise, any other operator gives null |
| `Operators.PrefixTwice` | src/main/java/interpreter/util/Evaluator.java:37-53 | `-` twice gives the number back, `-` of a non-number is null, and `!!` is the truthiness |
| `Operators.Equals` | src/main/java/interpreter/util/Evaluator.java:93-94 | Objects.equals: identical values are equal, equal values are of one kind, and scalars are equal exactly when identical |
| `Operators.ListEquals` | src/main/java/interpreter/util/Evaluator.java:93-94 | equal lists have the same length |
| `Operators.ListEqualsSame` | src/main/java/interpreter/util/Evaluator.java:93-94 | a list is equal to a list with the same elements |
| `Operators.ListEqualsLength` | src/main/java/interpreter/util/Evaluator.java:93-94 | lists of different lengths are unequal |
| `Operators.ApplyInfix` | src/main/java/interpreter/util/Evaluator.java:63-98 | `+` with a string concatenates the texts; on two numbers `+ - *` give the sum, difference and product, `/` and `%` the host's double operations, and the six comparisons the Boolean of the comparison; `&&` and `||` combine the truthiness |
| `Operators.NumberOperator` | src/main/java/interpreter/util/Evaluator.java:70-86 | the switch on two doubles: `+ - *` are exact, `/` and `%` are the host's double operations, and the six comparisons give the Boolean of the comparison |
| `Operators.NotEqualsNegates` | src/main/java/interpreter/util/Evaluator.java:93-94 | `!=` is the negation of `==` for every pair of operands |
| `Operators.NumberComparisons` | src/main/java/interpreter/util/Evaluator.java:70-86 | `<` and `>=` are complementary on numbers, and `>` is `<` with the operands swapped |
| `Operators.LogicCommutes` | src/main/java/interpreter/util/Evaluator.java:91-92 | `&&` and `||` are commutative, because both operands are computed |
| `Operators.UnsupportedPairsAreNull` | src/main/java/interpreter/util/Evaluator.java:97 | list + list and `<` on Booleans give null rather than an error |
| `Semantics.Eval` | src/main/java/interpreter/ast/Node.java:72 | evaluation only grows the heap: no scope, list, map or closure disappears |
| `Semantics.EvalProgram` | src/main/java/interpreter/ast/Program.java:39-55 | the program's result is never a ReturnValue wrapper |
| `Semantics.EvalStatements` | src/main/java/interpreter/ast/Program.java:43-53 | the statement loop only grows the heap |
| `Semantics.EvalDeclaration` | src/main/java/interpreter/ast/VariableDeclaration.java:28-31 | the declaration only grows the heap |
| `Semantics.EvalAssignment` | src/main/java/interpreter/ast/AssignmentStatement.java:28-31 | the assignment only grows the heap |
| `Semantics.EvalIndexAssignment` | src/main/java/interpreter/ast/IndexAssignmentStatement.java:36-75 | the index assignment only grows the heap; one step, target, index and value in that order, then `StoreElement`, is `Laws.IndexAssignmentApplies` |
| `Semantics.StoreElement` | src/main/java/interpreter/ast/IndexAssignmentStatement.java:44-74 | succeeds exactly for a list, a number index and a truncated index inside the list; then only that element changes and the value is the result; otherwise nothing changes and the RuntimeError at the node is "Cannot use index operator on non-array value", "Array index must be a number" or "Array index out of bounds: " and the index, in that order of checks |
| `Semantics.EvalFunctionDeclaration` | src/main/java/interpreter/ast/FunctionDeclaration.java:40-79 | succeeds exactly when the step is allowed; then the result is a new closure over the current context, with the declaration's name, parameters and body, and the name resolves to it in the current scope |
| `Semantics.EvalIf` | src/main/java/interpreter/ast/IfStatement.java:35-45 | the if statement only grows the heap; the branch choice is `Laws.IfChoosesBranch` |
| `Semantics.EvalWhile` | src/main/java/interpreter/ast/WhileStatement.java:30-43 | the loop only grows the heap; each iteration, with the last body result kept, is `Laws.WhileStep` |
| `Semantics.EvalReturn` | src/main/java/interpreter/ast/ReturnStatement.java:23-26 | a return gives a ReturnValue or a failure, never a plain value; the value carried is `Laws.ReturnWraps` |
| `Semantics.EvalEach` | src/main/java/interpreter/ast/CallExpression.java:46-49 | on success one value per operand, after the earlier ones; which value is `Laws.EachValues` |
| `Semantics.EvalArray` | src/main/java/interpreter/ast/ArrayLiteral.java:26-37 | on success a fresh list with one element per element node; the elements are `Laws.ArrayElements` |
| `Semantics.EvalPairs` | src/main/java/interpreter/ast/MapLiteral.java:33-47 | no more entries than pairs, and the keys stay distinct; the contents are `Laws.PairsContents` and the key check `Laws.BadKeyStops` |
| `Semantics.EvalMap` | src/main/java/interpreter/ast/MapLiteral.java:27-50 | on success a fresh map with distinct keys and at most one entry per pair; the contents are `Laws.MapContents` |
| `Semantics.EvalInfix` | src/main/java/interpreter/ast/InfixExpression.java:35-43 | the infix expression only grows the heap; its value is `Laws.InfixApplies` |
| `Semantics.EvalCall` | src/main/java/interpreter/ast/CallExpression.java:33-63 | the call only grows the heap |
| `Semantics.Apply` | src/main/java/interpreter/ast/CallExpression.java:52-62 | applying a callee only grows the heap; the dispatch is `Laws.CallDispatch` |
| `Semantics.BindParameters` | src/main/java/interpreter/ast/FunctionDeclaration.java:55-60 | binding the parameters creates no scope and changes nothing but scopes |
| `Semantics.CallFunction` | src/main/java/interpreter/ast/FunctionDeclaration.java:45-75 | a call never returns a ReturnValue wrapper, and no RuntimeError escapes: the body's is rethrown as a plain exception; the value and the message are `Laws.CallResult` |
| `Semantics.EvalIndex` | src/main/java/interpreter/ast/IndexExpression.java:30-72 | the index expression only grows the heap; one step, target then index, then `LoadElement`, is `Laws.IndexApplies` |
| `Semantics.LoadElement` | src/main/java/interpreter/ast/IndexExpression.java:40-71 | succeeds exactly for a list, a number index and a truncated index inside the list, with that element; otherwise the RuntimeError at the node is "Cannot use index operator on non-array value, got: " or "Array index must be a number, got: " with the class name, or "Array index out of bounds: " with the index and the array size, in that order of checks |
| `Builtins.Throw` | src/main/java/interpreter/main/Interpreter.java:329-352 | a native's exception leaves the heap as it was |
| `Builtins.RemoveAt` | src/main/java/interpreter/main/Interpreter.java:412-416 | ArrayList.remove: the later elements shift left by one |
| `Builtins.KeysOf` | src/main/java/interpreter/main/Interpreter.java:446-460 | one key per entry, in entry order |
| `Builtins.ValuesOf` | src/main/java/interpreter/main/Interpreter.java:463-477 | one value per entry, in entry order |
| `Builtins.LeadingSpace` | src/main/java/interpreter/main/Interpreter.java:642-656 | the leading run of characters up to the space |
| `Builtins.TrailingSpace` | src/main/java/interpreter/main/Interpreter.java:642-656 | the trailing run of characters up to the space |
| `Builtins.Trim` | src/main/java/interpreter/main/Interpreter.java:642-656 | the result is a slice of the input that neither starts nor ends with a character up to the space, and only such characters are cut off |
| `Builtins.TrimIdempotent` | src/main/java/interpreter/main/Interpreter.java:642-656 | trimming twice trims nothing more |
| `Builtins.StartsWithConcat` | src/main/java/interpreter/main/Interpreter.java:596-616 | startsWith holds exactly when some continuation completes the prefix |
| `Builtins.EndsWithConcat` | src/main/java/interpreter/main/Interpreter.java:619-639 | endsWith holds exactly when some beginning completes the suffix |
| `Builtins.AddInt32` | src/main/java/interpreter/main/Interpreter.java:590 | a Java int sum: exact within range, and 2^32 less when it overflows |
| `Builtins.SubstrOverflowExample` | src/main/java/interpreter/main/Interpreter.java:590-592 | `substr("hello", 1, 2147483647)` throws as written, where the intended result is "ello" |
| `Builtins.SubstrNativeOverflow` | src/main/java/interpreter/main/Interpreter.java:574-592 | the substr native as the interpreter runs it throws on `substr("hello", 1, 2147483647)`, with the wrapped end in the message |
| `Builtins.Substr` | src/main/java/interpreter/main/Interpreter.java:574-592 | a negative start, then a negative length, throws its own message; a start at or past the end gives ""; otherwise the characters from start to start + length, cut at the end, never longer than the length |
| `Builtins.SubstrAgreesWithoutOverflow` | src/main/java/interpreter/main/Interpreter.java:574-592 | without int overflow, the code as written and the intended substr agree |
| `Builtins.JoinSnoc` | src/main/java/interpreter/main/Interpreter.java:676-686 | joining one more element appends the delimiter and that element's text |
| `Builtins.JoinConcat` | src/main/java/interpreter/main/Interpreter.java:676-686 | joining two lists is joining each with one delimiter between them |
| `Builtins.Join` | src/main/java/interpreter/main/Interpreter.java:659-690 | the StringBuilder loop gives the texts with the delimiter between neighbours |
| `Builtins.TypeName` | src/main/java/interpreter/main/Interpreter.java:847-871 | typeof never answers "object" for a script value |
| `Builtins.IsKindAgreesWithTypeName` | src/main/java/interpreter/main/Interpreter.java:874-934 | each `is*` test holds exactly when typeof names the matching kind |
| `Builtins.CharOfCode` | src/main/java/interpreter/main/Interpreter.java:547-549 | `(char) code` keeps the low 16 bits |
| `Builtins.ApplyNative` | src/main/java/interpreter/main/Interpreter.java:254-935 | a native only grows the heap, and only push, pop, delete, keys and values change it |
| `Builtins.ArrayDispatch` | src/main/java/interpreter/main/Interpreter.java:325-437 | the list natives run the array library |
| `Builtins.MapDispatch` | src/main/java/interpreter/main/Interpreter.java:442-479 | keys and values run the map library |
| `Builtins.ApplyArray` | src/main/java/interpreter/main/Interpreter.java:325-437 | the list natives only grow the heap; len changes nothing and gives the size of a list, string or map and throws for any other value; pop on an empty list throws "Cannot pop from an empty array", otherwise removes and returns the last element; delete is `Builtins.Delete` |
| `Builtins.Delete` | src/main/java/interpreter/main/Interpreter.java:397-435 | delete only grows the heap |
| `Builtins.ListDelete` | src/main/java/interpreter/main/Interpreter.java:408-418 | succeeds exactly for a number index whose truncation lies inside the list, removing and returning that element; a non-number index and an index out of bounds throw their messages and change nothing |
| `Builtins.MapDelete` | src/main/java/interpreter/main/Interpreter.java:419-431 | delete on a map only grows the heap |
| `Builtins.ApplyMap` | src/main/java/interpreter/main/Interpreter.java:442-479 | keys and values only grow the heap |
| `Builtins.ApplyString` | src/main/java/interpreter/main/Interpreter.java:484-692 | the string natives leave the heap as it was |
| `Builtins.PushThenPop` | src/main/java/interpreter/main/Interpreter.java:355-394 | push appends the value in place and returns it; pop then takes it back, restoring the heap |
| `Builtins.PushGrowsLength` | src/main/java/interpreter/main/Interpreter.java:355-372 | after push, len reports one more element and every other list is unchanged |
| `Builtins.DeleteFromList` | src/main/java/interpreter/main/Interpreter.java:397-418 | delete removes exactly the element at the truncated index and returns it; the later ones shift left |
| `Builtins.DeleteFromMap` | src/main/java/interpreter/main/Interpreter.java:419-431 | an absent key gives null and changes nothing; a present key is removed and its value returned |
| `Builtins.OrdOfChar` | src/main/java/interpreter/main/Interpreter.java:488-533 | ord of the character picked by char is that character's code |
| `Builtins.ChrOfOrd` | src/main/java/interpreter/main/Interpreter.java:536-550 | chr inverts ord on the Basic Multilingual Plane |
| `Builtins.NoArgumentsFails` | src/main/java/interpreter/main/Interpreter.java:325-935 | every library native modelled here throws when called without arguments and changes nothing |
| `Interp.Runtime.constructor` | src/main/java/interpreter/runtime/EvaluationContext.java:16-18 | a runtime holding only the root context |
| `Interp.Runtime.Extend` | src/main/java/interpreter/runtime/EvaluationContext.java:29-31 | the new scope and heap are those of `Values.Extend` |
| `Interp.Runtime.Define` | src/main/java/interpreter/runtime/EvaluationContext.java:36-39 | the new heap is that of `Values.Define` |
| `Interp.Runtime.RegisterFunction` | src/main/java/interpreter/runtime/EvaluationContext.java:94-97 | the new heap is that of `Values.RegisterFunction` |
| `Interp.Runtime.Get` | src/main/java/interpreter/runtime/EvaluationContext.java:44-66 | the parent-chain walk returns `Values.Lookup` |
| `Interp.Runtime.Assign` | src/main/java/interpreter/runtime/EvaluationContext.java:71-89 | succeeds exactly as `Values.Assign` does, with its heap; a failure changes nothing |
| `Interp.Runtime.TrackStep` | src/main/java/interpreter/ast/Node.java:62-64 | the ledger call is `Values.Track` |
| `Interp.Runtime.NewList` | src/main/java/interpreter/ast/ArrayLiteral.java:31 | allocates as `Values.NewList` |
| `Interp.Runtime.NewDict` | src/main/java/interpreter/ast/MapLiteral.java:32 | allocates as `Values.NewDict` |
| `Interp.Runtime.SetElement` | src/main/java/interpreter/ast/IndexAssignmentStatement.java:73 | only element index of the list changes |
| `Interp.Runtime.Push` | src/main/java/interpreter/main/Interpreter.java:369 | the value is appended to the list in place |
| `Interp.Runtime.RemoveElement` | src/main/java/interpreter/main/Interpreter.java:414 | the element leaves the list, the later ones shift left, and the element is returned |
| `Interp.Runtime.RemoveEntry` | src/main/java/interpreter/main/Interpreter.java:428 | the key's entry leaves the map |
| `Interp.Runtime.CallNative` | src/main/java/interpreter/ast/CallExpression.java:52-53 | a native call changes the heap and answers exactly as `Builtins.ApplyNative` |
| `Interp.Runtime.NativePush` | src/main/java/interpreter/main/Interpreter.java:355-372 | push as `Builtins.ApplyArray` |
| `Interp.Runtime.NativePop` | src/main/java/interpreter/main/Interpreter.java:375-394 | pop as `Builtins.ApplyArray` |
| `Interp.Runtime.NativeDelete` | src/main/java/interpreter/main/Interpreter.java:397-435 | delete as `Builtins.Delete` |
| `Interp.Runtime.DeleteElement` | src/main/java/interpreter/main/Interpreter.java:408-418 | delete on a list as `Builtins.ListDelete` |
| `Interp.Runtime.DeleteEntry` | src/main/java/interpreter/main/Interpreter.java:419-431 | delete on a map as `Builtins.MapDelete` |
| `Interp.Runtime.NativeKeysValues` | src/main/java/interpreter/main/Interpreter.java:442-479 | keys and values as `Builtins.ApplyMap` |
| `Interp.Runtime.Evaluate` | src/main/java/interpreter/ast/Node.java:72 | evaluating a node in place gives the heap and outcome of `Semantics.Eval` |
| `Interp.Runtime.EvaluateStatement` | src/main/java/interpreter/ast/Node.java:72 | the statement classes as `Semantics.Eval` |
| `Interp.Runtime.EvaluateExpression` | src/main/java/interpreter/ast/Node.java:72 | the expression classes as `Semantics.Eval` |
| `Interp.Runtime.EvaluateExpressionStatement` | src/main/java/interpreter/ast/ExpressionStatement.java:22-27 | as `Semantics.Eval`: a null expression is null |
| `Interp.Runtime.EvaluateIdentifier` | src/main/java/interpreter/ast/Identifier.java:22-32 | as `Semantics.Eval`, leaving the heap as it was |
| `Interp.Runtime.EvaluateString` | src/main/java/interpreter/ast/StringLiteral.java:22-27 | as `Semantics.Eval`: one step, then the text |
| `Interp.Runtime.EvaluatePrefix` | src/main/java/interpreter/ast/PrefixExpression.java:29-32 | as `Semantics.Eval` |
| `Interp.Runtime.EvaluateProgram` | src/main/java/interpreter/ast/Program.java:39-55 | the program as `Semantics.EvalProgram` |
| `Interp.Runtime.EvaluateStatements` | src/main/java/interpreter/ast/Program.java:43-53 | the statement loop as `Semantics.EvalStatements` |
| `Interp.Runtime.EvaluateDeclaration` | src/main/java/interpreter/ast/VariableDeclaration.java:28-31 | as `Semantics.EvalDeclaration` |
| `Interp.Runtime.EvaluateAssignment` | src/main/java/interpreter/ast/AssignmentStatement.java:28-31 | as `Semantics.EvalAssignment` |
| `Interp.Runtime.EvaluateIndexAssignment` | src/main/java/interpreter/ast/IndexAssignmentStatement.java:36-75 | as `Semantics.EvalIndexAssignment` |
| `Interp.Runtime.Store` | src/main/java/interpreter/ast/IndexAssignmentStatement.java:44-74 | the checks and the in-place write as `Semantics.StoreElement` |
| `Interp.Runtime.EvaluateFunctionDeclaration` | src/main/java/interpreter/ast/FunctionDeclaration.java:40-79 | as `Semantics.EvalFunctionDeclaration` |
| `Interp.Runtime.EvaluateIf` | src/main/java/interpreter/ast/IfStatement.java:35-45 | as `Semantics.EvalIf` |
| `Interp.Runtime.EvaluateWhile` | src/main/java/interpreter/ast/WhileStatement.java:30-43 | the Java while loop as `Semantics.EvalWhile` |
| `Interp.Runtime.EvaluateReturn` | src/main/java/interpreter/ast/ReturnStatement.java:23-26 | as `Semantics.EvalReturn` |
| `Interp.Runtime.EvaluateEach` | src/main/java/interpreter/ast/CallExpression.java:46-49 | the operand loop as `Semantics.EvalEach` |
| `Interp.Runtime.EvaluateArray` | src/main/java/interpreter/ast/ArrayLiteral.java:26-37 | as `Semantics.EvalArray` |
| `Interp.Runtime.EvaluatePairs` | src/main/java/interpreter/ast/MapLiteral.java:33-47 | the pair loop as `Semantics.EvalPairs` |
| `Interp.Runtime.EvaluateMap` | src/main/java/interpreter/ast/MapLiteral.java:27-50 | as `Semantics.EvalMap` |
| `Interp.Runtime.EvaluateInfix` | src/main/java/interpreter/ast/InfixExpression.java:35-43 | as `Semantics.EvalInfix` |
| `Interp.Runtime.EvaluateCall` | src/main/java/interpreter/ast/CallExpression.java:33-63 | as `Semantics.EvalCall` |
| `Interp.Runtime.Call` | src/main/java/interpreter/ast/CallExpression.java:52-62 | as `Semantics.Apply` |
| `Interp.Runtime.Invoke` | src/main/java/interpreter/ast/FunctionDeclaration.java:45-75 | the closure's body, with its parameter loop, as `Semantics.CallFunction` |
| `Interp.Runtime.EvaluateIndex` | src/main/java/interpreter/ast/IndexExpression.java:30-72 | as `Semantics.EvalIndex` |
| `Laws.EmptyBlock` | src/main/java/interpreter/ast/BlockStatement.java:38-51 | an empty block is null, tracks no step and changes nothing |
| `Laws.StatementsPrefix` | src/main/java/interpreter/ast/BlockStatement.java:38-51 | the loop over a longer list agrees with the loop over its prefix until the prefix is done |
| `Laws.StatementsSuffix` | src/main/java/interpreter/ast/BlockStatement.java:38-51 | the loop over the tail of a list is the loop over that tail alone |
| `Laws.StatementsForgetLast` | src/main/java/interpreter/ast/BlockStatement.java:38-51 | a non-empty list ignores the result before it |
| `Laws.BlockConcat` | src/main/java/interpreter/ast/BlockStatement.java:38-51 | the block `a + b` runs `a`, then `b` on what `a` left, unless `a` returned or failed |
| `Laws.ReturnStopsProgram` | src/main/java/interpreter/ast/Program.java:48-51 | statements after a return are never evaluated, and the program's result is the returned value, unwrapped |
| `Laws.StepRefused` | src/main/java/interpreter/ast/Node.java:62-64 | when the ledger refuses the step, a tracking node fails with "Maximum execution steps exceeded" at its own position and changes nothing |
| `Laws.LiteralsArePure` | src/main/java/interpreter/ast/NumberLiteral.java:22-24 | number, Boolean and null literals are their value, track no step and change nothing |
| `Laws.StringLiteralStep` | src/main/java/interpreter/ast/StringLiteral.java:22-27 | a string literal records exactly its own position, then is its text |
| `Laws.IdentifierIsLookup` | src/main/java/interpreter/ast/Identifier.java:22-32 | an identifier is what get finds; an unbound name fails with "Undefined variable 'name'" at the identifier; nothing changes |
| `Laws.DeclarationDefines` | src/main/java/interpreter/ast/VariableDeclaration.java:28-31 | the name then resolves to the value in this scope; other names and earlier scopes are unchanged |
| `Laws.AssignmentNearest` | src/main/java/interpreter/ast/AssignmentStatement.java:28-31 | the value is evaluated first; the assignment fails exactly when no scope binds the name, with the message at the node, and otherwise the name resolves to the value |
| `Laws.BindOtherNames` | src/main/java/interpreter/ast/FunctionDeclaration.java:55-60 | binding the parameters leaves every other name as it was |
| `Laws.BindParametersInOrder` | src/main/java/interpreter/ast/FunctionDeclaration.java:55-60 | parameter i is bound to argument i |
| `Laws.CallScope` | src/main/java/interpreter/ast/FunctionDeclaration.java:52-60 | a call runs in a child of the defining scope, not the caller's: the parameters are the arguments, and every other name is what it is where the function was defined |
| `Laws.ArityChecked` | src/main/java/interpreter/ast/FunctionDeclaration.java:47-49 | a call with the wrong number of arguments throws "Function <name>[<parameters>] called with <n> arguments" before the body and changes nothing |
| `Laws.CallResult` | src/main/java/interpreter/ast/FunctionDeclaration.java:45-75 | with the right arity the body runs in the call's scope; a ReturnValue is unwrapped, a plain value is the result, a RuntimeError becomes "Error in function '<name>': " and its message, and anything else passes through |
| `Laws.FunctionDeclarationDefines` | src/main/java/interpreter/ast/FunctionDeclaration.java:40-79 | one step; a closure over the current context is stored and bound under the name in the current scope; every other name resolves as before |
| `Laws.WhileNoIteration` | src/main/java/interpreter/ast/WhileStatement.java:30-43 | a loop whose condition is falsy the first time is null |
| `Laws.WhileStep` | src/main/java/interpreter/ast/WhileStatement.java:30-43 | each iteration evaluates the condition; falsy ends the loop with the last body result, truthy runs the body, whose failure or return ends the loop and whose value is carried to the next iteration |
| `Laws.WhileReturn` | src/main/java/interpreter/ast/WhileStatement.java:33-39 | a return from the body, in any iteration, ends the loop and is passed on still wrapped |
| `Laws.IfChoosesBranch` | src/main/java/interpreter/ast/IfStatement.java:35-45 | the condition is evaluated once; a failure ends the statement, a truthy value runs the consequence, a falsy one the alternative or gives null without one |
| `Laws.ReturnWraps` | src/main/java/interpreter/ast/ReturnStatement.java:23-26 | a bare return carries null; otherwise the value is computed and carried, or its failure kept |
| `Laws.AndEvaluatesBoth` | src/main/java/interpreter/ast/InfixExpression.java:37-42 | `&&` does not short-circuit: the right operand is still evaluated and its failure is the expression's failure |
| `Laws.InfixApplies` | src/main/java/interpreter/ast/InfixExpression.java:35-43 | one step, the left operand, then the right one, then the operator on the two values; the first failure is the expression's |
| `Laws.NullCallee` | src/main/java/interpreter/ast/CallExpression.java:35-43 | a null callee fails with "Cannot call null as a function" before any argument is evaluated |
| `Laws.CallDispatch` | src/main/java/interpreter/ast/CallExpression.java:44-62 | with the arguments computed, a closure is called, a native applied, and any other value fails with "Not a function: " and its text at the call |
| `Laws.LoopAllGood` | src/main/java/interpreter/ast/CallExpression.java:46-49 | the reference operand loop succeeds only when every operand does |
| `Laws.LoopUnique` | src/main/java/interpreter/ast/CallExpression.java:46-49 | any loop that takes the reference loop's steps ends where the reference loop does |
| `Laws.OperandOutcomes` | src/main/java/interpreter/ast/CallExpression.java:46-49 | one outcome per operand, each computed where the operands before it left the heap |
| `Laws.LoopAppends` | src/main/java/interpreter/ast/CallExpression.java:46-49 | the value loop keeps the earlier values and then holds the outcomes in order |
| `Laws.EachStep` | src/main/java/interpreter/ast/CallExpression.java:46-49 | one iteration of the evaluator's operand loop appends the operand's value or fails |
| `Laws.EachFromEnd` | src/main/java/interpreter/ast/CallExpression.java:46-49 | past the last operand the loop ends with the heap the operands left |
| `Laws.EachFromStep` | src/main/java/interpreter/ast/CallExpression.java:46-49 | from operand j the loop appends j's value and goes on, or fails |
| `Laws.EvalTakesEachSteps` | src/main/java/interpreter/ast/CallExpression.java:46-49 | the evaluator's operand loop takes the reference loop's steps |
| `Laws.EachAgree` | src/main/java/interpreter/ast/CallExpression.java:46-49 | the evaluator's operand loop ends where the reference loop over the operands' outcomes does |
| `Laws.LoopValues` | src/main/java/interpreter/ast/CallExpression.java:46-49 | the reference loop from nothing holds outcome i at index i |
| `Laws.EachValues` | src/main/java/interpreter/ast/CallExpression.java:46-49 | once the operand loop succeeds, value i is operand i's, the operands computed left to right |
| `Laws.ArrayElements` | src/main/java/interpreter/ast/ArrayLiteral.java:26-37 | an array literal takes one step and holds at index i the value of element i, computed left to right |
| `Laws.PairOutcomes` | src/main/java/interpreter/ast/MapLiteral.java:33-47 | one outcome per pair, each computed where the pairs before it left the heap |
| `Laws.LoopKeeps` | src/main/java/interpreter/ast/MapLiteral.java:33-47 | a key no later pair puts keeps its entry |
| `Laws.LoopLastWins` | src/main/java/interpreter/ast/MapLiteral.java:46 | a key gets the value of the last pair that puts it |
| `Laws.LoopContents` | src/main/java/interpreter/ast/MapLiteral.java:33-47 | once the map loop succeeds every pair put a key; each key has the value of its last pair, and a key no pair puts is absent |
| `Laws.PairStep` | src/main/java/interpreter/ast/MapLiteral.java:33-47 | one iteration of the evaluator's pair loop puts the pair's key and value, or fails |
| `Laws.PairsFromEnd` | src/main/java/interpreter/ast/MapLiteral.java:33-47 | past the last pair the loop ends with the heap the pairs left |
| `Laws.PairsFromStep` | src/main/java/interpreter/ast/MapLiteral.java:33-47 | from pair j the loop puts j's outcome and goes on, or fails |
| `Laws.EvalTakesPairSteps` | src/main/java/interpreter/ast/MapLiteral.java:33-47 | the evaluator's pair loop takes the reference loop's steps |
| `Laws.PairsAgree` | src/main/java/interpreter/ast/MapLiteral.java:33-47 | the evaluator's pair loop ends where the reference loop over the pairs' outcomes does |
| `Laws.PairsContents` | src/main/java/interpreter/ast/MapLiteral.java:33-47 | what the evaluator's pair loop puts, once it succeeds |
| `Laws.MapContents` | src/main/java/interpreter/ast/MapLiteral.java:27-50 | a map literal takes one step and, on success, maps each key to the value of the last pair that puts it, and holds no other key |
| `Laws.BadKeyStops` | src/main/java/interpreter/ast/MapLiteral.java:37-40 | a key neither a string nor a number fails the literal with "Map keys must be strings or numbers, got: ..." before its value is computed |
| `Laws.StoreThenLoad` | src/main/java/interpreter/ast/IndexAssignmentStatement.java:63-74 | after an index write, that index reads the value, every other index reads as before, and the length is unchanged |
| `Laws.IndexReadsOnly` | src/main/java/interpreter/ast/IndexExpression.java:70-71 | reading an element leaves the heap as the operands left it |
| `Laws.IndexApplies` | src/main/java/interpreter/ast/IndexExpression.java:30-72 | one step, the target, then the index, all before any check; the first failure is the result, otherwise `LoadElement` of the two values |
| `Laws.IndexAssignmentApplies` | src/main/java/interpreter/ast/IndexAssignmentStatement.java:36-75 | one step, the target, the index and the value in that order, all before any check; the first failure is the result, otherwise `StoreElement` of the three values |
| `Driver.ErrorText` | src/main/java/interpreter/main/Interpreter.java:58-60 | Error.toString starts with "Error at " and ends with the message; `Driver.ErrorTextRoundTrip` reads line, column and message back |
| `Driver.ErrorTextRoundTrip` | src/main/java/interpreter/main/Interpreter.java:58-60 | the text of an error reads back as that error: line, column and message |
| `Driver.ErrorTextInjective` | src/main/java/interpreter/main/Interpreter.java:58-60 | two errors with the same text are the same error |
| `Driver.Copied` | src/main/java/interpreter/main/Interpreter.java:172-175 | each parser error is copied with the same message, line and column |
| `Driver.Registered` | src/main/java/interpreter/main/Interpreter.java:154-158 | registering the natives touches only the root scope's function table |
| `Driver.RegisteredLookup` | src/main/java/interpreter/main/Interpreter.java:154-158 | every registered name resolves to its native in the root context, and nothing else resolves |
| `Driver.LibraryHeap` | src/main/java/interpreter/main/Interpreter.java:194-197 | library functions live in the root scope alone |
| `Driver.Evaluation` | src/main/java/interpreter/main/Interpreter.java:190-225 | success exactly when there are no errors; a program's value is the result, and its failure is the single error `Driver.Reported` builds; no AST gives "No AST to evaluate. Parse code first." at 0:0; None exactly when the model runs out of fuel or meets an operation it does not model |
| `Driver.Reported` | src/main/java/interpreter/main/Interpreter.java:209-223 | a RuntimeError keeps its message and position; any other exception becomes "Unexpected error: ..." at 0:0 |
| `Driver.UndefinedName` | src/main/java/interpreter/ast/Identifier.java:25-31 | a program whose first statement reads an unknown name fails with "Undefined variable" at that identifier |
| `Driver.Line` | src/main/java/interpreter/main/Interpreter.java:247-249 | every line of the report ends with a newline |
| `Driver.FormattedErrors` | src/main/java/interpreter/main/Interpreter.java:241-252 | "No errors" exactly when the list is empty |
| `Driver.LinesSnoc` | src/main/java/interpreter/main/Interpreter.java:247-249 | one more error appends its line |
| `Driver.LinesEndInNewline` | src/main/java/interpreter/main/Interpreter.java:247-249 | a non-empty report ends with a newline |
| `Driver.FormatErrors` | src/main/java/interpreter/main/Interpreter.java:241-252 | the StringBuilder loop gives the report |
| `Driver.RegisterLibrary` | src/main/java/interpreter/main/Interpreter.java:154-158 | the initializer loop leaves the root context holding exactly the library |
| `Driver.Interpreter.constructor` | src/main/java/interpreter/main/Interpreter.java:145-148 | a new interpreter holds no AST |
| `Driver.Interpreter.Parse` | src/main/java/interpreter/main/Interpreter.java:163-178 | the stored tree is `Grammar.ParseSource` of the source, the errors are the parser's copied in order, and parsing succeeds exactly when there are none |
| `Driver.Interpreter.CopyErrors` | src/main/java/interpreter/main/Interpreter.java:172-175 | the copy loop gives `Driver.Copied` |
| `Driver.Interpreter.Evaluate` | src/main/java/interpreter/main/Interpreter.java:190-225 | a fresh runtime with the library registered, then `Driver.Evaluation`, so no earlier run matters |
| `JavaStrings.Replace` | src/main/java/interpreter/ast/StringLiteral.java:45-49 | replace removes every occurrence when the replacement lacks the character, adds no other character, and is the identity when it is absent |
| `JavaStrings.ReplaceAppend` | src/main/java/interpreter/ast/StringLiteral.java:45-49 | replace distributes over concatenation |
| `JavaStrings.Pieces` | src/main/java/interpreter/main/ModelContextProtocolHttpServer.java:198-199 | cutting at a separator gives at least one piece, none holding the separator |
| `JavaStrings.JoinPieces` | src/main/java/interpreter/main/ModelContextProtocolHttpServer.java:198-199 | joining the pieces gives the string back |
| `JavaStrings.Kept` | src/main/java/interpreter/main/ModelContextProtocolHttpServer.java:198-199 | the pieces dropped are exactly the trailing empty ones |
| `JavaStrings.Split` | src/main/java/interpreter/main/ModelContextProtocolHttpServer.java:198-199 | split with limit 0: the whole string when the separator is absent, else the pieces without trailing empty ones |
| `JavaStrings.PiecesWhole` | src/main/java/interpreter/main/ModelContextProtocolHttpServer.java:198-199 | a string without the separator is one piece |
| `JavaStrings.PiecesCut` | src/main/java/interpreter/main/ModelContextProtocolHttpServer.java:198-199 | the piece before the first separator comes first, then the pieces of the rest |
| `JavaStrings.SplitTwo` | src/main/java/interpreter/main/ModelContextProtocolHttpServer.java:198-199 | two pieces joined by the separator split back into those two, when the second is not empty |
| `JavaStrings.SplitPrefix` | src/main/java/interpreter/main/ModelContextProtocolHttpServer.java:198-199 | the kept pieces, joined, begin the string |
| `JavaStrings.JoinPrefix` | src/main/java/interpreter/main/ModelContextProtocolHttpServer.java:198-199 | joining a prefix of the pieces gives a prefix |
| `JsonEscape.EscapeJson` | src/main/java/interpreter/main/ModelContextProtocolHttpServer.java:166-176 | null gives ""; otherwise the replace chain equals the one-pass escape |
| `JsonEscape.EscapeChar` | src/main/java/interpreter/ast/StringLiteral.java:45-49 | exactly the five characters are escaped, each as a backslash and one character |
| `JsonEscape.ChainOfChar` | src/main/java/interpreter/ast/StringLiteral.java:45-49 | on one character the chain is that character's escape |
| `JsonEscape.EscapedByChar` | src/main/java/interpreter/ast/StringLiteral.java:45-49 | backslashes go first, so no later replacement re-escapes an earlier one |
| `JsonEscape.UnescapeEscaped` | src/main/java/interpreter/main/ModelContextProtocolHttpServer.java:171-175 | the escaped text reads back as the original |
| `JsonEscape.EscapeInjective` | src/main/java/interpreter/main/ModelContextProtocolHttpServer.java:171-175 | two strings with the same escape are the same string |
| `JsonEscape.NoRawBreaks` | src/main/java/interpreter/ast/StringLiteral.java:45-49 | the output has no raw newline, carriage return or tab |
| `JsonEscape.EscapeIdentity` | src/main/java/interpreter/ast/StringLiteral.java:45-49 | a string without the five characters is its own escape |
| `JsonEscape.OtherControlPassesThrough` | src/main/java/interpreter/main/ModelContextProtocolHttpServer.java:171-175 | every other control character passes through unescaped, short of what section 7 of RFC 8259 asks |
| `FormData.JsonPair` | src/main/java/interpreter/main/ModelContextProtocolHttpServer.java:199-209 | kept exactly when the piece splits into two parts at colons; the key has no quote; a lone `"` value throws |
| `FormData.JsonPairParts` | src/main/java/interpreter/main/ModelContextProtocolHttpServer.java:199-209 | a kept piece puts its trimmed name without double quotes, and its trimmed value itself or with one pair of enclosing quotes removed |
| `FormData.JsonPairOfSides` | src/main/java/interpreter/main/ModelContextProtocolHttpServer.java:199-209 | a piece `name:value` whose sides trim leaves alone puts the unquoted name and the value, unquoted when it is quoted; a lone `"` throws |
| `FormData.JsonPairQuoted` | src/main/java/interpreter/main/ModelContextProtocolHttpServer.java:199-209 | `"k":"v"` is read back as the name k and the string v |
| `FormData.JsonPairBare` | src/main/java/interpreter/main/ModelContextProtocolHttpServer.java:199-209 | `"k":v` with an unquoted v (a number, say) is read back as the name k and the text v |
| `FormData.FormPair` | src/main/java/interpreter/main/ModelContextProtocolHttpServer.java:218-220 | kept exactly when the piece splits into two parts at `=`; the two are taken as they are and never throw |
| `FormData.Collect` | src/main/java/interpreter/main/ModelContextProtocolHttpServer.java:198-222 | every name in the map has a piece that puts its value |
| `FormData.ParsedForm` | src/main/java/interpreter/main/ModelContextProtocolHttpServer.java:184-225 | a null or empty body gives the empty map, and only the JSON branch can throw |
| `FormData.NeverThrows` | src/main/java/interpreter/main/ModelContextProtocolHttpServer.java:217-222 | pieces none of which throws always build a map |
| `FormData.ThrowsSomewhere` | src/main/java/interpreter/main/ModelContextProtocolHttpServer.java:198-211 | the map is missing exactly when some piece throws |
| `FormData.PutNames` | src/main/java/interpreter/main/ModelContextProtocolHttpServer.java:198-222 | a name is in the map exactly when some piece puts it |
| `FormData.LaterPieceWins` | src/main/java/interpreter/main/ModelContextProtocolHttpServer.java:209 | a repeated name keeps the value of the last piece that puts it |
| `FormData.Fill` | src/main/java/interpreter/main/ModelContextProtocolHttpServer.java:198-222 | the put loop builds `FormData.Collect` |
| `FormData.ParseFormData` | src/main/java/interpreter/main/ModelContextProtocolHttpServer.java:184-225 | the method is `FormData.ParsedForm` |

## Left out

- The step ledger: `EvaluationContext.trackEvaluationStep`, `getResourceQuota` and the four-argument `applyInfixOperator` are not part of this model. The ledger is the host predicate `allowStep` over the positions recorded so far, so the quota limits other than the step count are never consulted.
- The depth, loop, variable and string-length limits: their checks live in code that is not part of this model. Only the data (`Quota`) and the step refusal are modelled.
- HashMap iteration order: a map is a sequence of entries in insertion order. `keys`, `values` and map rendering therefore follow insertion order, not the hash order of `java.util.HashMap`. Map equality compares the sizes and then the entries, so it does not depend on order, as `AbstractMap.equals` does not.
- Integer against Double: every script number is a `real`. `len` and `ord` return Java doubles (Interpreter.java lines 338, 342, 348 and 532), as the model does; only the native `int` (line 275) returns an `Integer`, and it is not modelled, so the difference that would show in `Objects.equals` and in the rendered text does not arise here.
- Double rounding: `Text.DecimalValue` is the exact value of the literal, not the nearest double that `Double.parseDouble` gives. Division, remainder and number text are host functions.
- UTF-16: a Dafny `char` is a Unicode scalar value. `chr` of a lone surrogate code gives `Unsupported`, and the supplementary-plane pairs of Java strings are single characters here.
- The natives `assert`, `int`, `double`, `string`, `gets`, `puts`, `match`, `findAll`, `replace` and `split` are registered but not modelled: they call console I/O, number parsing and regular expressions. Applying one gives the outcome `Unsupported`.
- The interpreter's library is fixed to the seven initializers of the no-argument constructor (Interpreter.java lines 121-125). The constructors that take a quota or a list of initializers (lines 132-149) are not modelled, and neither is the quota they would pass on.
- Fuel: closure calls and loop iterations consume fuel, and the outcome `OutOfFuel` exists only in the model. `Driver.Evaluation` returns None for `OutOfFuel` and `Unsupported`.
- Semantics.FunctionAt: a closure index outside the heap gives an empty placeholder function. Heaps built by the evaluator never hold such an index, but no lemma states that.
- The `catch (Exception e)` of `Interpreter.parse`: the lexer and parser are proved to raise nothing, so that branch cannot be reached and is not modelled.
- The JSON and debugging renderers (`toJson`, `getAstJson`, `toString` of nodes), the command-line driver, console I/O, and the HTTP server apart from `escapeJson` and `parseFormData`.
- Parsing.Parser.ParseProgram: no lemma states that a parse without errors builds a tree with no null subtree. Precedence and associativity are proved for three-operand expressions of identifiers (`OperatorPrecedence`), not for every tree.
- Semantics.EvalIndexAssignment: its own contract states only that the heap grows; the operand order and the write are stated by `Laws.IndexAssignmentApplies`.
- Semantics.EvalWhile: its own contract states only that the heap grows; every iteration is stated by `Laws.WhileStep`, and a return from any iteration by `Laws.WhileReturn`.
- Semantics.CallFunction: its own contract states that no ReturnValue and no RuntimeError escapes; the call's value and the rethrown message are stated by `Laws.CallResult`, and the arity message by `Laws.ArityChecked`.
- Semantics.EvalIndex: its own contract states only that the heap grows; the operand order and the read are stated by `Laws.IndexApplies`.
- Semantics.EvalIf: its own contract states only that the heap grows; the branch choice is stated by `Laws.IfChoosesBranch`.
- Semantics.EvalReturn: its own contract states that a return gives a ReturnValue or a failure; the value carried is stated by `Laws.ReturnWraps`.
- Semantics.EvalInfix: its own contract states only that the heap grows; the value is stated by `Laws.InfixApplies`.
- Semantics.Apply: its own contract states only that the heap grows; the closure, native and "Not a function" dispatch is stated by `Laws.CallDispatch`.
- Semantics.EvalEach: its own contract states the number of values; value i is operand i's by `Laws.EachValues`.
- Semantics.EvalArray: its own contract states the length of the new list; the elements are stated by `Laws.ArrayElements`.
- Semantics.EvalPairs: its own contract states the entry count and distinct keys; the contents are stated by `Laws.PairsContents` and the key check by `Laws.BadKeyStops`.
- Semantics.EvalMap: its own contract states the entry count and distinct keys; the contents are stated by `Laws.MapContents`.
- FormData.JsonPair: its own contract says when a piece is kept and that the key has no quote; the key and value are stated by `FormData.JsonPairParts`, and colons inside names or values make the piece cut into more than two parts, so it is skipped.
- JsonEscape.EscapeJson: no lemma states that every double quote of the output follows a backslash. `JsonEscape.UnescapeEscaped` gives the round trip instead.
- Driver.LinesSnoc: only appending one error is proved. Appending a list of errors follows by induction, but that lemma is not part of this model.

## Findings

| source | as written | input that shows it | evidently intended | confidence | as-written member | corrected member |
|---|---|---|---|---|---|---|
| src/main/java/interpreter/main/Interpreter.java:590 | `Math.min(start + length, str.length())` adds two Java ints, so a large length wraps the end below the start and `substring` throws | `substr("hello", 1, 2147483647)`: the end wraps to -2147483648 and StringIndexOutOfBoundsException is thrown | "ello", the rest of the string | not executed | `Builtins.SubstrOverflowExample` | `Builtins.Substr` |
