/**
 * main/Interpreter.java: parse keeps the program it parsed, evaluate runs it in a fresh
 * root context with the library registered and turns every exception into one error with
 * a position, and formatErrors renders an error list.
 */
module Driver {
  import opened Wrappers
  import opened Text
  import opened Ast
  import opened Values
  import opened Semantics
  import opened Builtins
  import opened Lexing
  import opened Parsing
  import opened Grammar
  import opened Interp

  /** Interpreter.Error: a message and the position it is about. */
  datatype Error = Error(message: string, line: int, column: int)

  /** Interpreter.ParseResult. */
  datatype ParseResult = ParseResult(success: bool, program: Option<Node>, errors: seq<Error>)

  /**
   * Interpreter.EvaluationResult; `heap` holds the lists, maps and closures the result may
   * refer to.
   */
  datatype EvaluationResult = EvaluationResult(success: bool, result: Value, errors: seq<Error>, heap: Heap)

  /** Error.toString: "Error at line:column: message". */
  function ErrorText(e: Error): (s: string)
    ensures "Error at " <= s && |e.message| <= |s| && s[|s| - |e.message|..] == e.message
  {
    "Error at " + (IntText(e.line) + ":" + IntText(e.column) + ": " + e.message)
  }

  /** Reads an error text back: "Error at ", then what ParseErrorRest reads. */
  function ParseErrorText(s: string): Option<Error>
  {
    if |s| < 9 || s[..9] != "Error at " then None else ParseErrorRest(s[9..])
  }

  /**
   * The position up to the first space, which follows its colon; the message after the
   * space. Neither a line nor a column text has a space in it.
   */
  function ParseErrorRest(rest: string): Option<Error>
  {
    var k := IndexOf(rest, ' ');
    if k == 0 || k == |rest| || rest[k - 1] != ':' then None
    else match ParsePosition(rest[..k - 1])
      case None => None
      case Some(p) => Some(Error(rest[k + 1..], p.line, p.column))
  }

  /** The first `c` of `a + [c] + b` is the one after `a` when `a` has none. */
  lemma FirstAfter(a: string, c: char, b: string)
    requires c !in a
    ensures IndexOf(a + [c] + b, c) == |a|
  {
    var s := a + [c] + b;
    assert s[|a|] == c;
  }

  /** The part after "Error at " read back from the position text and the message. */
  lemma ParseErrorRestOf(t: string, m: string, p: Position)
    requires ' ' !in t && ParsePosition(t) == Some(p)
    ensures ParseErrorRest(t + ": " + m) == Some(Error(m, p.line, p.column))
  {
    var rest := t + ": " + m;
    assert rest == (t + ":") + [' '] + m;
    FirstAfter(t + ":", ' ', m);
    assert rest[..|t|] == t;
  }

  /** "Error at " is recognised and the rest is read on. */
  lemma ParseErrorTextPrefix(rest: string)
    ensures ParseErrorText("Error at " + rest) == ParseErrorRest(rest)
  {
    var s := "Error at " + rest;
    assert s[..9] == "Error at " && s[9..] == rest;
  }

  /** The text of an error determines its line, column and message. */
  lemma ErrorTextRoundTrip(e: Error)
    ensures ParseErrorText(ErrorText(e)) == Some(e)
  {
    IntTextNoColon(e.line);
    IntTextNoColon(e.column);
    var t := IntText(e.line) + ":" + IntText(e.column);
    PositionTextRoundTrip(Position(e.line, e.column));
    ParseErrorRestOf(t, e.message, Position(e.line, e.column));
    ParseErrorTextPrefix(t + ": " + e.message);
  }

  /** Two errors with the same text are the same error. */
  lemma ErrorTextInjective(e: Error, f: Error)
    ensures ErrorText(e) == ErrorText(f) ==> e == f
  {
    ErrorTextRoundTrip(e);
    ErrorTextRoundTrip(f);
  }

  /** The parser's errors as the interpreter reports them: same message, line and column. */
  function Copied(errors: seq<ParseError>): (r: seq<Error>)
    ensures |r| == |errors|
    ensures forall i :: 0 <= i < |errors| ==>
      r[i].message == Message(errors[i].cause) && r[i].line == errors[i].line && r[i].column == errors[i].column
  {
    seq(|errors|, i requires 0 <= i < |errors| => Error(Message(errors[i].cause), errors[i].line, errors[i].column))
  }

  // ----- The library -----

  /** `new EvaluationContext()`. */
  const RootHeap := Heap([EmptyScope], [], [], [], [])

  /** The root heap after the library initializers have registered `names`, in order. */
  function Registered(names: seq<string>): (h: Heap)
    ensures |h.scopes| == 1 && h.scopes[0].values == map[] && h.scopes[0].parent == None
    ensures h.(scopes := RootHeap.scopes) == RootHeap
  {
    if names == [] then RootHeap
    else RegisterFunction(Registered(names[..|names| - 1]), 0, names[|names| - 1], Native(names[|names| - 1]))
  }

  /** Every registered name resolves in the root context to the native of that name, and nothing else does. */
  lemma {:induction false} RegisteredLookup(names: seq<string>, name: string)
    ensures Lookup(Registered(names), 0, name) == if name in names then Some(Native(name)) else None
  {
    if names != [] {
      var init := names[..|names| - 1];
      RegisteredLookup(init, name);
      assert names == init + [names[|names| - 1]];
    }
  }

  /** The library heap: what every evaluation starts from. */
  function LibraryHeap(): (h: Heap)
    ensures FunctionsAtRoot(h)
  {
    Registered(LibraryNames())
  }

  // ----- evaluate -----

  /**
   * Interpreter.evaluate on the stored program. A RuntimeError, the ResourceExhaustionError
   * among them, keeps its message and position; any other exception becomes "Unexpected
   * error" at 0:0. None: the model cannot say (out of fuel, or a native outside the model).
   */
  function Evaluation(x: Host, ast: Option<Node>, fuel: nat): (r: Option<EvaluationResult>)
    requires ast.Some? ==> ast.value.Program?
    ensures r.Some? ==> (r.value.success <==> r.value.errors == [])
    ensures r.Some? && !r.value.success ==> r.value.result == Null && |r.value.errors| == 1
    ensures ast.None? ==> r == Some(EvaluationResult(false, Null, [Error("No AST to evaluate. Parse code first.", 0, 0)], LibraryHeap()))
    ensures ast.Some? ==> var p := EvalProgram(x, LibraryHeap(), 0, ast.value, fuel);
      (p.outcome.Normal? ==> r == Some(EvaluationResult(true, p.outcome.value, [], p.heap))) &&
      (p.outcome.Failed? ==> r == Some(EvaluationResult(false, Null, [Reported(x, p.outcome.failure)], p.heap))) &&
      (r.None? <==> p.outcome.OutOfFuel? || p.outcome.Unsupported?)
  {
    if ast.None? then Some(EvaluationResult(false, Null, [Error("No AST to evaluate. Parse code first.", 0, 0)], LibraryHeap()))
    else
      var r := EvalProgram(x, LibraryHeap(), 0, ast.value, fuel);
      if r.outcome.Normal? then Some(EvaluationResult(true, r.outcome.value, [], r.heap))
      else if r.outcome.Failed? then Some(EvaluationResult(false, Null, [Reported(x, r.outcome.failure)], r.heap))
      else None
  }

  /** The error evaluate's catch clauses build from an exception. */
  function Reported(x: Host, f: Failure): (e: Error)
    ensures f.RuntimeError? ==> e == Error(f.message, f.line, f.column)
    ensures !f.RuntimeError? ==> e.line == 0 && e.column == 0 && "Unexpected error: " <= e.message
  {
    match f
    case RuntimeError(m, line, column, _) => Error(m, line, column)
    case HostException(m) => Error("Unexpected error: " + m, 0, 0)
    case NullDereference => Error("Unexpected error: " + x.nullMessage, 0, 0)
  }

  /**
   * A program whose first statement reads a name the library does not define fails with
   * "Undefined variable" at that identifier, whatever ran before.
   */
  lemma UndefinedName(x: Host, name: string, pos: Position, rest: seq<Node>, fuel: nat)
    requires name !in LibraryNames() && x.allowStep([])
    ensures var p := Program([ExpressionStatement(Identifier(name, pos), pos)] + rest, Origin);
      Evaluation(x, Some(p), fuel) ==
        Some(EvaluationResult(false, Null, [Error("Undefined variable '" + name + "'", pos.line, pos.column)], LibraryHeap().(steps := [Origin])))
  {
    RegisteredLookup(LibraryNames(), name);
    var p := Program([ExpressionStatement(Identifier(name, pos), pos)] + rest, Origin);
    var h := LibraryHeap();
    assert h.steps == [];
    var t := h.(steps := [Origin]);
    assert Track(x, h, Origin) == Result(t, Normal(Null));
    assert Lookup(t, 0, name) == None;
    var failure := ErrorAt("Undefined variable '" + name + "'", pos);
    assert Eval(x, t, 0, p.statements[0].expression, fuel) == Result(t, Failed(failure));
    assert Eval(x, t, 0, p.statements[0], fuel) == Result(t, Failed(failure));
    assert EvalStatements(x, t, 0, p, 0, Null, fuel) == Result(t, Failed(failure));
    assert EvalProgram(x, h, 0, p, fuel) == Result(t, Failed(failure));
    assert Reported(x, failure) == Error("Undefined variable '" + name + "'", pos.line, pos.column);
  }

  // ----- formatErrors -----

  /** The lines of formatErrors: each error's text followed by a newline. */
  function Lines(errors: seq<Error>): string
  {
    if errors == [] then "" else Lines(errors[..|errors| - 1]) + Line(errors[|errors| - 1])
  }

  /** One line of formatErrors. */
  function Line(e: Error): (s: string)
    ensures |s| > 0 && s[|s| - 1] == '\n'
  {
    ErrorText(e) + "\n"
  }

  /** formatErrors: "No errors" for an empty list, else one line per error. */
  function FormattedErrors(errors: seq<Error>): (s: string)
    ensures errors == [] <==> s == "No errors"
  {
    if errors == [] then "No errors" else Lines(errors)
  }

  /** Appending one error appends its line. */
  lemma LinesSnoc(s: seq<Error>, e: Error)
    ensures Lines(s + [e]) == Lines(s) + Line(e)
  {
    assert (s + [e])[..|s|] == s;
  }

  /** Every error's line ends with a newline, so a non-empty report never reads "No errors". */
  lemma LinesEndInNewline(errors: seq<Error>)
    requires errors != []
    ensures |Lines(errors)| > 0 && Lines(errors)[|Lines(errors)| - 1] == '\n'
  {
  }

  /** formatErrors: the StringBuilder loop. */
  method FormatErrors(errors: seq<Error>) returns (s: string)
    ensures s == FormattedErrors(errors)
  {
    if errors == [] {
      return "No errors";
    }
    s := "";
    var i := 0;
    while i < |errors|
      invariant i <= |errors|
      invariant s == Lines(errors[..i])
    {
      assert errors[..i + 1][..i] == errors[..i];
      s := s + Line(errors[i]);
      i := i + 1;
    }
    assert errors[..i] == errors;
  }

  /** registerBuiltInFunctions: every library name is registered in the root context as its native. */
  method RegisterLibrary(runtime: Runtime)
    requires runtime.State() == RootHeap
    modifies runtime
    ensures runtime.State() == LibraryHeap()
  {
    var names := LibraryNames();
    var i := 0;
    while i < |names|
      invariant i <= |names|
      invariant runtime.State() == Registered(names[..i])
    {
      assert names[..i + 1][..i] == names[..i];
      runtime.RegisterFunction(0, names[i], Native(names[i]));
      i := i + 1;
    }
    assert names[..i] == names;
  }

  // ----- The Interpreter object -----

  class Interpreter {
    var ast: Option<Node>

    /** A new interpreter has parsed nothing yet. */
    constructor ()
      ensures ast == None
    {
      ast := None;
    }

    /**
     * parse: lexes and parses the source, keeps the program, and copies the parser's errors;
     * it succeeds exactly when there are none. The program and the errors are those the
     * grammar reads from the source's tokens.
     */
    method Parse(source: string) returns (result: ParseResult)
      modifies this
      ensures ast.Some? && ast.value.Program? && ast.value.pos == Origin
      ensures ast == Some(ParseSource(source).value)
      ensures result.errors == Copied(ParseSource(source).after.errors)
      ensures result.program == ast
      ensures result.success <==> result.errors == []
    {
      var lexer := new Lexer(source);
      var parser := new Parser(lexer);
      var program := parser.ParseProgram();
      ast := Some(program);
      var errors := CopyErrors(parser.errors);
      result := ParseResult(errors == [], ast, errors);
    }

    /** The loop of parse that copies the parser's errors. */
    static method CopyErrors(errors: seq<ParseError>) returns (copied: seq<Error>)
      ensures copied == Copied(errors)
    {
      copied := [];
      var i := 0;
      while i < |errors|
        invariant i <= |errors|
        invariant copied == Copied(errors[..i])
      {
        copied := copied + [Error(Message(errors[i].cause), errors[i].line, errors[i].column)];
        i := i + 1;
      }
      assert errors[..i] == errors;
    }

    /**
     * evaluate: a fresh runtime, the library registered in it, then the stored program; the
     * result depends on nothing an earlier evaluation did.
     */
    method Evaluate(x: Host, fuel: nat) returns (result: Option<EvaluationResult>)
      requires ast.Some? ==> ast.value.Program?
      ensures result == Evaluation(x, ast, fuel)
    {
      var runtime := new Runtime(x);
      RegisterLibrary(runtime);
      if ast.None? {
        return Some(EvaluationResult(false, Null, [Error("No AST to evaluate. Parse code first.", 0, 0)], runtime.State()));
      }
      var out := runtime.EvaluateProgram(ast.value, 0, fuel);
      if out.Normal? {
        result := Some(EvaluationResult(true, out.value, [], runtime.State()));
      } else if out.Failed? {
        result := Some(EvaluationResult(false, Null, [Reported(x, out.failure)], runtime.State()));
      } else {
        result := None;
      }
    }
  }
}
