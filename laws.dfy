/**
 * Laws of evaluation: what the `evaluate` methods of the ast package promise, stated about
 * the functions of module Semantics (and so, through the contracts of module Interp, about
 * the in-place evaluator too).
 */
module Laws {
  import opened Wrappers
  import opened Text
  import opened Ast
  import opened Quota
  import opened Values
  import opened Operators
  import opened Builtins
  import opened Semantics

  // ----- Statement lists (Program and BlockStatement) -----

  /** An empty block is null, tracks no step and changes nothing. */
  lemma EmptyBlock(x: Host, h: Heap, ctx: nat, pos: Position, fuel: nat)
    ensures Eval(x, h, ctx, BlockStatement([], pos), fuel) == Result(h, Normal(Null))
  {
  }

  /**
   * The statement loop over a longer list agrees with the loop over a prefix of it until
   * the prefix is done: a return or a failure inside the prefix ends the whole list.
   */
  lemma {:induction false} StatementsPrefix(x: Host, h: Heap, ctx: nat, n: Node, m: Node, k: nat, last: Value, fuel: nat)
    requires (n.Program? || n.BlockStatement?) && (m.Program? || m.BlockStatement?)
    requires m.statements <= n.statements && k <= |m.statements|
    ensures var r := EvalStatements(x, h, ctx, m, k, last, fuel);
      EvalStatements(x, h, ctx, n, k, last, fuel) ==
        if r.outcome.Normal? then EvalStatements(x, r.heap, ctx, n, |m.statements|, r.outcome.value, fuel) else r
    decreases |m.statements| - k
  {
    if k < |m.statements| {
      assert n.statements[k] == m.statements[k];
      var r := Eval(x, h, ctx, m.statements[k], fuel);
      if r.outcome.Normal? {
        StatementsPrefix(x, r.heap, ctx, n, m, k + 1, r.outcome.value, fuel);
      }
    }
  }

  /** The statement loop over the tail of a list is the loop over that tail on its own. */
  lemma {:induction false} StatementsSuffix(x: Host, h: Heap, ctx: nat, n: Node, m: Node, j: nat, last: Value, fuel: nat)
    requires (n.Program? || n.BlockStatement?) && (m.Program? || m.BlockStatement?)
    requires |m.statements| <= |n.statements|
    requires n.statements[|n.statements| - |m.statements|..] == m.statements
    requires j <= |m.statements|
    ensures EvalStatements(x, h, ctx, n, |n.statements| - |m.statements| + j, last, fuel) ==
            EvalStatements(x, h, ctx, m, j, last, fuel)
    decreases |m.statements| - j
  {
    var d := |n.statements| - |m.statements|;
    if j < |m.statements| {
      assert n.statements[d + j] == n.statements[d..][j];
      var r := Eval(x, h, ctx, m.statements[j], fuel);
      if r.outcome.Normal? {
        StatementsSuffix(x, r.heap, ctx, n, m, j + 1, r.outcome.value, fuel);
      }
    }
  }

  /** A non-empty statement list ignores the result that came before it. */
  lemma {:induction false} StatementsForgetLast(x: Host, h: Heap, ctx: nat, m: Node, last: Value, fuel: nat)
    requires (m.Program? || m.BlockStatement?) && m.statements != []
    ensures EvalStatements(x, h, ctx, m, 0, last, fuel) == EvalStatements(x, h, ctx, m, 0, Null, fuel)
  {
  }

  /**
   * Sequencing: the block `a + b` runs `a`, and then `b` on the heap `a` left behind unless
   * `a` returned or failed, in which case `b` is never evaluated.
   */
  lemma {:induction false} BlockConcat(x: Host, h: Heap, ctx: nat, a: seq<Node>, b: seq<Node>, pos: Position, fuel: nat)
    requires b != []
    ensures var r := Eval(x, h, ctx, BlockStatement(a, pos), fuel);
      Eval(x, h, ctx, BlockStatement(a + b, pos), fuel) ==
        if r.outcome.Normal? then Eval(x, r.heap, ctx, BlockStatement(b, pos), fuel) else r
  {
    var n, m, l := BlockStatement(a + b, pos), BlockStatement(a, pos), BlockStatement(b, pos);
    StatementsPrefix(x, h, ctx, n, m, 0, Null, fuel);
    var r := EvalStatements(x, h, ctx, m, 0, Null, fuel);
    if r.outcome.Normal? {
      assert n.statements[|n.statements| - |l.statements|..] == l.statements;
      StatementsSuffix(x, r.heap, ctx, n, l, 0, r.outcome.value, fuel);
      StatementsForgetLast(x, r.heap, ctx, l, r.outcome.value, fuel);
    }
  }

  /**
   * A return stops the program: the statements after the one that returned are never
   * evaluated, and the program's result is the returned value, unwrapped.
   */
  lemma {:induction false} ReturnStopsProgram(x: Host, h: Heap, ctx: nat, a: seq<Node>, b: seq<Node>, pos: Position, fuel: nat)
    requires x.allowStep(h.steps)
    requires Eval(x, h.(steps := h.steps + [pos]), ctx, BlockStatement(a, pos), fuel).outcome.Returned?
    ensures var r := Eval(x, h.(steps := h.steps + [pos]), ctx, BlockStatement(a, pos), fuel);
      Eval(x, h, ctx, Program(a + b, pos), fuel) == Result(r.heap, Normal(r.outcome.value))
  {
    var t := h.(steps := h.steps + [pos]);
    StatementsPrefix(x, t, ctx, Program(a + b, pos), BlockStatement(a, pos), 0, Null, fuel);
  }

  // ----- The step ledger -----

  /** The node classes whose evaluate calls trackEvaluationStep. */
  predicate Tracks(n: Node)
  {
    n.Program? || n.StringLiteral? || n.IndexAssignmentStatement? || n.FunctionDeclaration? ||
    n.ArrayLiteral? || n.MapLiteral? || n.InfixExpression? || n.IndexExpression?
  }

  /**
   * When the ledger refuses the next step, a tracking node fails before evaluating anything,
   * with the EVALUATION_STEPS message at its own position, and the heap is unchanged.
   */
  lemma StepRefused(x: Host, h: Heap, ctx: nat, n: Node, fuel: nat)
    requires Tracks(n) && !x.allowStep(h.steps)
    ensures Eval(x, h, ctx, n, fuel) == Result(h, Failed(Exhausted(EvaluationSteps, n.pos.line, n.pos.column)))
    ensures Eval(x, h, ctx, n, fuel).outcome.failure.message == "Maximum execution steps exceeded"
  {
  }

  /**
   * Literals other than strings track no step: whatever the ledger says, they evaluate to
   * their own value and leave the heap as it was.
   */
  lemma LiteralsArePure(x: Host, h: Heap, ctx: nat, n: Node, fuel: nat)
    requires n.NumberLiteral? || n.BooleanLiteral? || n.NullLiteral?
    ensures Eval(x, h, ctx, n, fuel).heap == h
    ensures n.NumberLiteral? ==> Eval(x, h, ctx, n, fuel).outcome == Normal(Num(n.number))
    ensures n.BooleanLiteral? ==> Eval(x, h, ctx, n, fuel).outcome == Normal(Bool(n.truth))
    ensures n.NullLiteral? ==> Eval(x, h, ctx, n, fuel).outcome == Normal(Null)
  {
  }

  /** A string literal records exactly its own position with the ledger, and then is its text. */
  lemma StringLiteralStep(x: Host, h: Heap, ctx: nat, s: string, pos: Position, fuel: nat)
    requires x.allowStep(h.steps)
    ensures Eval(x, h, ctx, StringLiteral(s, pos), fuel) == Result(h.(steps := h.steps + [pos]), Normal(Str(s)))
  {
  }

  // ----- Names -----

  /**
   * An identifier is whatever get finds on the scope chain, without touching the heap; a
   * name no scope knows fails with "Undefined variable" at the identifier.
   */
  lemma IdentifierIsLookup(x: Host, h: Heap, ctx: nat, name: string, pos: Position, fuel: nat)
    ensures Eval(x, h, ctx, Identifier(name, pos), fuel).heap == h
    ensures Eval(x, h, ctx, Identifier(name, pos), fuel).outcome.Normal? <==> Lookup(h, ctx, name).Some?
    ensures Lookup(h, ctx, name).Some? ==> Eval(x, h, ctx, Identifier(name, pos), fuel).outcome.value == Lookup(h, ctx, name).value
    ensures Lookup(h, ctx, name).None? ==>
      Eval(x, h, ctx, Identifier(name, pos), fuel).outcome == Failed(RuntimeError("Undefined variable '" + name + "'", pos.line, pos.column, None))
  {
  }

  /**
   * A declaration binds its value in the current scope: the name now resolves to it there,
   * every other name resolves as before, and scopes created before it do not see it.
   */
  lemma {:induction false} DeclarationDefines(x: Host, h: Heap, ctx: nat, name: string, init: Node, pos: Position, fuel: nat, c: nat, other: string)
    requires !init.Missing?
    requires Eval(x, h, ctx, init, fuel).outcome.Normal? && ctx < |h.scopes|
    ensures var i := Eval(x, h, ctx, init, fuel);
      var r := Eval(x, h, ctx, VariableDeclaration(name, init, pos), fuel);
      r.outcome == i.outcome && Lookup(r.heap, ctx, name) == Some(i.outcome.value) &&
      (other != name ==> Lookup(r.heap, c, other) == Lookup(i.heap, c, other)) &&
      (c < ctx ==> Lookup(r.heap, c, other) == Lookup(i.heap, c, other))
  {
    var i := Eval(x, h, ctx, init, fuel);
    if other != name {
      DefineOtherName(i.heap, ctx, name, i.outcome.value, c, other);
    }
    if c < ctx {
      DefineInvisibleBelow(i.heap, ctx, name, i.outcome.value, c, other);
    }
  }

  /**
   * An assignment evaluates its value first, whether or not the name is bound, and fails
   * exactly when no scope on the chain binds the name; otherwise the nearest binding is the
   * one overwritten, so the name now resolves to the new value.
   */
  lemma {:induction false} AssignmentNearest(x: Host, h: Heap, ctx: nat, name: string, value: Node, pos: Position, fuel: nat)
    requires Eval(x, h, ctx, value, fuel).outcome.Normal?
    requires FunctionsAtRoot(Eval(x, h, ctx, value, fuel).heap)
    ensures var v := Eval(x, h, ctx, value, fuel);
      var r := Eval(x, h, ctx, AssignmentStatement(name, value, pos), fuel);
      (r.outcome.Normal? <==> Owner(v.heap, ctx, name).Some?) &&
      (r.outcome.Normal? ==> r.outcome == v.outcome && Lookup(r.heap, ctx, name) == Some(v.outcome.value)) &&
      (!r.outcome.Normal? ==>
        r.heap == v.heap && r.outcome == Failed(RuntimeError("Cannot assign to undefined variable '" + name + "'", pos.line, pos.column, None)))
  {
    var v := Eval(x, h, ctx, value, fuel);
    if Owner(v.heap, ctx, name).Some? {
      AssignThenLookup(v.heap, ctx, name, v.outcome.value);
    }
  }

  // ----- Closures -----

  /** No parameter name is repeated. */
  predicate Distinct(names: seq<string>)
  {
    forall i, j :: 0 <= i < j < |names| ==> names[i] != names[j]
  }

  /** Binding parameters leaves every other name as it was, in every scope. */
  lemma {:induction false} BindOtherNames(h: Heap, c: nat, parameters: seq<string>, args: seq<Value>, d: nat, other: string)
    requires |parameters| == |args| && other !in parameters
    ensures Lookup(BindParameters(h, c, parameters, args), d, other) == Lookup(h, d, other)
    decreases |parameters|
  {
    if parameters != [] {
      DefineOtherName(h, c, parameters[0], args[0], d, other);
      BindOtherNames(Define(h, c, parameters[0], args[0]), c, parameters[1..], args[1..], d, other);
    }
  }

  /** With distinct names, parameter `i` is bound to argument `i` in the call's scope. */
  lemma {:induction false} BindParametersInOrder(h: Heap, c: nat, parameters: seq<string>, args: seq<Value>)
    requires |parameters| == |args| && Distinct(parameters) && c < |h.scopes|
    ensures forall i :: 0 <= i < |parameters| ==> Lookup(BindParameters(h, c, parameters, args), c, parameters[i]) == Some(args[i])
    decreases |parameters|
  {
    if parameters != [] {
      var h' := Define(h, c, parameters[0], args[0]);
      BindParametersInOrder(h', c, parameters[1..], args[1..]);
      assert parameters[0] !in parameters[1..] by {
        forall j | 0 <= j < |parameters[1..]| ensures parameters[1..][j] != parameters[0] {
          assert parameters[1..][j] == parameters[j + 1];
        }
      }
      BindOtherNames(h', c, parameters[1..], args[1..], c, parameters[0]);
      forall i | 0 <= i < |parameters|
        ensures Lookup(BindParameters(h, c, parameters, args), c, parameters[i]) == Some(args[i])
      {
        if i > 0 {
          assert parameters[i] == parameters[1..][i - 1] && args[i] == args[1..][i - 1];
        }
      }
    }
  }

  /**
   * A call runs in a fresh child of the scope the function was defined in, not the
   * caller's: each parameter is its argument, and every other name is what it is in the
   * defining scope.
   */
  lemma {:induction false} CallScope(h: Heap, f: Function, args: seq<Value>, name: string)
    requires |args| == |f.parameters| && Distinct(f.parameters) && f.context < |h.scopes|
    ensures var (h1, c) := Extend(h, f.context);
      var h2 := BindParameters(h1, c, f.parameters, args);
      (forall i :: 0 <= i < |args| ==> Lookup(h2, c, f.parameters[i]) == Some(args[i])) &&
      (name !in f.parameters ==> Lookup(h2, c, name) == Lookup(h, f.context, name))
  {
    var (h1, c) := Extend(h, f.context);
    BindParametersInOrder(h1, c, f.parameters, args);
    if name !in f.parameters {
      BindOtherNames(h1, c, f.parameters, args, c, name);
      ExtendSeesParent(h, f.context, c, name);
    }
  }

  /**
   * A call with the wrong number of arguments fails before the body is evaluated, with an
   * exception naming the function, its parameter list and the number of arguments.
   */
  lemma ArityChecked(x: Host, h: Heap, f: Function, args: seq<Value>, fuel: nat)
    requires |args| != |f.parameters|
    ensures CallFunction(x, h, f, args, fuel).heap == h
    ensures CallFunction(x, h, f, args, fuel).outcome.Failed? && CallFunction(x, h, f, args, fuel).outcome.failure.HostException?
    ensures CallFunction(x, h, f, args, fuel).outcome.failure.message ==
      "Function " + f.name + ListText(f.parameters) + " called with " + IntText(|args|) + " arguments"
  {
  }

  /**
   * A call with the right number of arguments evaluates the body in the call's scope: a
   * ReturnValue is unwrapped, a plain value is the call's value, and a RuntimeError is
   * rethrown as an exception whose message names the function; any other exception, and
   * running out of fuel, pass through unchanged.
   */
  lemma CallResult(x: Host, h: Heap, f: Function, args: seq<Value>, fuel: nat)
    requires |args| == |f.parameters|
    ensures var (h1, c) := Extend(h, f.context);
      var b := Eval(x, BindParameters(h1, c, f.parameters, args), c, f.body, fuel);
      var r := CallFunction(x, h, f, args, fuel);
      (b.outcome.Returned? ==> r == Result(b.heap, Normal(b.outcome.value))) &&
      (b.outcome.Normal? ==> r == b) &&
      (b.outcome.Failed? && b.outcome.failure.RuntimeError? ==>
        r == Result(b.heap, Failed(HostException("Error in function '" + f.name + "': " + b.outcome.failure.message)))) &&
      ((b.outcome.Failed? && !b.outcome.failure.RuntimeError?) || b.outcome.OutOfFuel? || b.outcome.Unsupported? ==> r == b)
  {
  }

  /** Lookup reads the scopes alone: the step ledger, the closures and the collections play no part. */
  lemma {:induction false} ScopesDecideLookup(h: Heap, h': Heap, c: nat, name: string)
    requires h'.scopes == h.scopes
    ensures Lookup(h', c, name) == Lookup(h, c, name)
    decreases c
  {
    if c < |h.scopes| {
      var s := h.scopes[c];
      if name !in s.values && name !in s.functions && s.parent.Some? && s.parent.value < c {
        ScopesDecideLookup(h, h', s.parent.value, name);
      }
    }
  }

  /**
   * A function declaration takes one step, stores a closure over the current context and
   * binds it under the function's name in the current scope; every other name resolves as
   * it did before the declaration.
   */
  lemma {:induction false} FunctionDeclarationDefines(x: Host, h: Heap, ctx: nat, name: string, parameters: seq<string>, body: Node, pos: Position, fuel: nat, c: nat, other: string)
    requires x.allowStep(h.steps) && ctx < |h.scopes|
    ensures var r := Eval(x, h, ctx, FunctionDeclaration(name, parameters, body, pos), fuel);
      r.outcome == Normal(Closure(|h.functions|)) && r.heap.steps == h.steps + [pos] &&
      FunctionAt(r.heap, |h.functions|) == Function(name, parameters, body, ctx) &&
      Lookup(r.heap, ctx, name) == Some(Closure(|h.functions|)) &&
      (other != name ==> Lookup(r.heap, c, other) == Lookup(h, c, other))
  {
    var h' := h.(steps := h.steps + [pos], functions := h.functions + [Function(name, parameters, body, ctx)]);
    if other != name {
      DefineOtherName(h', ctx, name, Closure(|h.functions|), c, other);
      ScopesDecideLookup(h, h', c, other);
    }
  }

  // ----- Control flow -----

  /** A while loop whose condition is falsy the first time runs no iteration and is null. */
  lemma WhileNoIteration(x: Host, h: Heap, ctx: nat, cond: Node, body: Node, pos: Position, fuel: nat)
    requires Eval(x, h, ctx, cond, fuel).outcome.Normal? && !Truthy(Eval(x, h, ctx, cond, fuel).outcome.value)
    ensures Eval(x, h, ctx, WhileStatement(cond, body, pos), fuel) == Result(Eval(x, h, ctx, cond, fuel).heap, Normal(Null))
  {
  }

  /**
   * One iteration of a while loop, whichever it is, `last` being the result of the body the
   * iteration before (null before the first): the condition is evaluated; a falsy value ends
   * the loop with `last`; a truthy one runs the body, whose failure or return ends the loop
   * and whose plain value becomes `last` for the next iteration, at the cost of one unit of
   * fuel.
   */
  lemma WhileStep(x: Host, h: Heap, ctx: nat, n: Node, last: Value, fuel: nat)
    requires n.WhileStatement?
    ensures Eval(x, h, ctx, n, fuel) == EvalWhile(x, h, ctx, n, Null, fuel)
    ensures var c := Eval(x, h, ctx, n.condition, fuel);
      var b := Eval(x, c.heap, ctx, n.body, fuel);
      var r := EvalWhile(x, h, ctx, n, last, fuel);
      (!c.outcome.Normal? ==> r == c) &&
      (c.outcome.Normal? && !Truthy(c.outcome.value) ==> r == Result(c.heap, Normal(last))) &&
      (c.outcome.Normal? && Truthy(c.outcome.value) && !b.outcome.Normal? ==> r == b) &&
      (c.outcome.Normal? && Truthy(c.outcome.value) && b.outcome.Normal? ==>
        r == if fuel == 0 then Result(b.heap, OutOfFuel) else EvalWhile(x, b.heap, ctx, n, b.outcome.value, fuel - 1))
  {
  }

  /**
   * A return inside the loop body, in whichever iteration, ends the loop, and the loop passes
   * it on still wrapped.
   */
  lemma WhileReturn(x: Host, h: Heap, ctx: nat, n: Node, last: Value, fuel: nat)
    requires n.WhileStatement?
    requires Eval(x, h, ctx, n.condition, fuel).outcome.Normal? && Truthy(Eval(x, h, ctx, n.condition, fuel).outcome.value)
    requires Eval(x, Eval(x, h, ctx, n.condition, fuel).heap, ctx, n.body, fuel).outcome.Returned?
    ensures EvalWhile(x, h, ctx, n, last, fuel) == Eval(x, Eval(x, h, ctx, n.condition, fuel).heap, ctx, n.body, fuel)
  {
  }

  /**
   * `&&` does not short-circuit: with a false left operand the right one is still evaluated,
   * its failure is the expression's failure, and otherwise the result is false.
   */
  lemma AndEvaluatesBoth(x: Host, h: Heap, ctx: nat, left: Node, right: Node, pos: Position, fuel: nat)
    requires x.allowStep(h.steps)
    requires Eval(x, h.(steps := h.steps + [pos]), ctx, left, fuel).outcome.Normal?
    requires !Truthy(Eval(x, h.(steps := h.steps + [pos]), ctx, left, fuel).outcome.value)
    ensures var a := Eval(x, h.(steps := h.steps + [pos]), ctx, left, fuel);
      var b := Eval(x, a.heap, ctx, right, fuel);
      Eval(x, h, ctx, InfixExpression(left, "&&", right, pos), fuel) ==
        if b.outcome.Normal? then Result(b.heap, Normal(Bool(false))) else b
  {
  }

  /** A null callee fails before any argument is evaluated. */
  lemma NullCallee(x: Host, h: Heap, ctx: nat, callee: Node, args: seq<Node>, pos: Position, fuel: nat)
    requires Eval(x, h, ctx, callee, fuel).outcome == Normal(Null)
    ensures Eval(x, h, ctx, CallExpression(callee, args, pos), fuel) ==
      Result(Eval(x, h, ctx, callee, fuel).heap, Failed(RuntimeError("Cannot call null as a function", pos.line, pos.column, None)))
  {
  }

  // ----- Lists -----

  /**
   * After an index assignment, reading the same index gives the stored value, every other
   * index reads as before, and the list keeps its length.
   */
  lemma {:induction false} StoreThenLoad(x: Host, h: Heap, i: nat, index: real, v: Value, pos: Position, other: real, pos': Position)
    requires StoreElement(h, List(i), Num(index), v, pos).outcome.Normal?
    ensures var h' := StoreElement(h, List(i), Num(index), v, pos).heap;
      LoadElement(x, h', List(i), Num(index), pos') == Normal(v) &&
      |ListAt(h', i)| == |ListAt(h, i)| &&
      (NumberIntValue(other) != NumberIntValue(index) ==> LoadElement(x, h', List(i), Num(other), pos') == LoadElement(x, h, List(i), Num(other), pos'))
  {
    var h' := StoreElement(h, List(i), Num(index), v, pos).heap;
    assert ListAt(h', i) == ListAt(h, i)[NumberIntValue(index) := v];
  }

  /** Reading an element leaves the heap as the operands left it. */
  lemma IndexReadsOnly(x: Host, h: Heap, ctx: nat, target: Node, index: Node, pos: Position, fuel: nat)
    requires x.allowStep(h.steps)
    requires Eval(x, h.(steps := h.steps + [pos]), ctx, target, fuel).outcome.Normal?
    requires Eval(x, Eval(x, h.(steps := h.steps + [pos]), ctx, target, fuel).heap, ctx, index, fuel).outcome.Normal?
    ensures Eval(x, h, ctx, IndexExpression(target, index, pos), fuel).heap ==
      Eval(x, Eval(x, h.(steps := h.steps + [pos]), ctx, target, fuel).heap, ctx, index, fuel).heap
  {
  }

  /**
   * An index read takes one step and evaluates the target and then the index before any
   * check: the first failure is the expression's; otherwise the outcome is LoadElement of
   * the two values, read where the index left the heap.
   */
  lemma IndexApplies(x: Host, h: Heap, ctx: nat, target: Node, index: Node, pos: Position, fuel: nat)
    requires x.allowStep(h.steps)
    ensures var a := Eval(x, h.(steps := h.steps + [pos]), ctx, target, fuel);
      var i := Eval(x, a.heap, ctx, index, fuel);
      var r := Eval(x, h, ctx, IndexExpression(target, index, pos), fuel);
      (!a.outcome.Normal? ==> r == a) &&
      (a.outcome.Normal? && !i.outcome.Normal? ==> r == i) &&
      (a.outcome.Normal? && i.outcome.Normal? ==> r == Result(i.heap, LoadElement(x, i.heap, a.outcome.value, i.outcome.value, pos)))
  {
  }

  /**
   * An index assignment takes one step and evaluates the target, the index and the value,
   * in that order, before any check: the first failure is the statement's; otherwise the
   * outcome is StoreElement of the three values, written where the value left the heap.
   */
  lemma IndexAssignmentApplies(x: Host, h: Heap, ctx: nat, target: Node, index: Node, value: Node, pos: Position, fuel: nat)
    requires x.allowStep(h.steps)
    ensures var a := Eval(x, h.(steps := h.steps + [pos]), ctx, target, fuel);
      var i := Eval(x, a.heap, ctx, index, fuel);
      var v := Eval(x, i.heap, ctx, value, fuel);
      var r := Eval(x, h, ctx, IndexAssignmentStatement(target, index, value, pos), fuel);
      (!a.outcome.Normal? ==> r == a) &&
      (a.outcome.Normal? && !i.outcome.Normal? ==> r == i) &&
      (a.outcome.Normal? && i.outcome.Normal? && !v.outcome.Normal? ==> r == v) &&
      (a.outcome.Normal? && i.outcome.Normal? && v.outcome.Normal? ==>
        r == StoreElement(v.heap, a.outcome.value, i.outcome.value, v.outcome.value, pos))
  {
  }

  // ----- Branches, returns, operators and calls -----

  /**
   * An if statement evaluates its condition once: a failure or a return inside it ends the
   * statement; a truthy value runs the consequence, a falsy one the alternative, or gives
   * null when there is none.
   */
  lemma IfChoosesBranch(x: Host, h: Heap, ctx: nat, cond: Node, cons: Node, alt: Node, pos: Position, fuel: nat)
    ensures var c := Eval(x, h, ctx, cond, fuel);
      var r := Eval(x, h, ctx, IfStatement(cond, cons, alt, pos), fuel);
      (!c.outcome.Normal? ==> r == c) &&
      (c.outcome.Normal? && Truthy(c.outcome.value) ==> r == Eval(x, c.heap, ctx, cons, fuel)) &&
      (c.outcome.Normal? && !Truthy(c.outcome.value) && alt.Missing? ==> r == Result(c.heap, Normal(Null))) &&
      (c.outcome.Normal? && !Truthy(c.outcome.value) && !alt.Missing? ==> r == Eval(x, c.heap, ctx, alt, fuel))
  {
  }

  /** A bare return carries null; otherwise the value is computed and carried, or its failure kept. */
  lemma ReturnWraps(x: Host, h: Heap, ctx: nat, value: Node, pos: Position, fuel: nat)
    ensures Eval(x, h, ctx, ReturnStatement(Missing, pos), fuel) == Result(h, Returned(Null))
    ensures !value.Missing? ==> var v := Eval(x, h, ctx, value, fuel);
      Eval(x, h, ctx, ReturnStatement(value, pos), fuel) ==
        if v.outcome.Normal? then Result(v.heap, Returned(v.outcome.value)) else v
  {
  }

  /**
   * An infix expression takes one step, evaluates the left operand and then the right one,
   * and applies the operator to the two values; the first failure is the expression's.
   */
  lemma InfixApplies(x: Host, h: Heap, ctx: nat, left: Node, op: string, right: Node, pos: Position, fuel: nat)
    requires x.allowStep(h.steps)
    ensures var a := Eval(x, h.(steps := h.steps + [pos]), ctx, left, fuel);
      var b := Eval(x, a.heap, ctx, right, fuel);
      var r := Eval(x, h, ctx, InfixExpression(left, op, right, pos), fuel);
      (!a.outcome.Normal? ==> r == a) &&
      (a.outcome.Normal? && !b.outcome.Normal? ==> r == b) &&
      (a.outcome.Normal? && b.outcome.Normal? ==> var v := ApplyInfix(x, b.heap, a.outcome.value, op, b.outcome.value, fuel);
        r == Result(b.heap, if v.Some? then Normal(v.value) else OutOfFuel))
  {
  }

  /**
   * Once the callee is a value other than null and the arguments are computed, a closure is
   * called (one unit of fuel), a native is applied, and anything else fails with
   * "Not a function: " and the value's text, at the call.
   */
  lemma CallDispatch(x: Host, h: Heap, ctx: nat, callee: Node, args: seq<Node>, pos: Position, fuel: nat)
    requires Eval(x, h, ctx, callee, fuel).outcome.Normal? && Eval(x, h, ctx, callee, fuel).outcome.value != Null
    ensures var f := Eval(x, h, ctx, callee, fuel);
      var v := f.outcome.value;
      var n := CallExpression(callee, args, pos);
      var a := EvalEach(x, f.heap, ctx, n, 0, [], fuel);
      var r := Eval(x, h, ctx, n, fuel);
      (!a.outcome.Normal? ==> r == Result(a.heap, a.outcome)) &&
      (a.outcome.Normal? && v.Closure? ==>
        r == if fuel == 0 then Result(a.heap, OutOfFuel) else CallFunction(x, a.heap, FunctionAt(a.heap, v.closure), a.values, fuel - 1)) &&
      (a.outcome.Normal? && v.Native? ==> r == ApplyNative(x, a.heap, v.name, a.values)) &&
      (a.outcome.Normal? && !v.Closure? && !v.Native? ==>
        r == Result(a.heap, Failed(RuntimeError("Not a function: " + Show(x, a.heap, v), pos.line, pos.column, None))))
  {
    var n := CallExpression(callee, args, pos);
    var f := Eval(x, h, ctx, callee, fuel);
    var a := EvalEach(x, f.heap, ctx, n, 0, [], fuel);
    assert Eval(x, h, ctx, n, fuel) == EvalCall(x, h, ctx, n, fuel);
    if a.outcome.Normal? {
      assert EvalCall(x, h, ctx, n, fuel) == Apply(x, a.heap, n, f.outcome.value, a.values, fuel);
    }
  }

  // ----- Operand lists: array elements, call arguments, map pairs -----

  /** Evaluation with the host, the context and the fuel fixed: a heap and a node to a result. */
  type Evaluator = (Heap, Node) -> Result

  function Ev(x: Host, ctx: nat, fuel: nat): Evaluator
  {
    (h: Heap, n: Node) => Eval(x, h, ctx, n, fuel)
  }

  /**
   * The reference loop of an operand list: the outcomes from `k` on are put into `acc` in
   * order by `put`, or the loop is None when one of them is a failure.
   */
  function OutcomeLoop<O, E>(put: (E, O) -> E, outs: seq<Option<O>>, k: nat, acc: E): Option<E>
    requires k <= |outs|
    decreases |outs| - k
  {
    if k == |outs| then Some(acc)
    else if outs[k].Some? then OutcomeLoop(put, outs, k + 1, put(acc, outs[k].value))
    else None
  }

  /** The reference loop succeeds only when every outcome from `k` on is one. */
  lemma {:induction false} LoopAllGood<O, E>(put: (E, O) -> E, outs: seq<Option<O>>, k: nat, acc: E)
    requires k <= |outs|
    ensures OutcomeLoop(put, outs, k, acc).Some? ==> forall j :: k <= j < |outs| ==> outs[j].Some?
    decreases |outs| - k
  {
    if k < |outs| && outs[k].Some? {
      LoopAllGood(put, outs, k + 1, put(acc, outs[k].value));
    }
  }

  /** What an operand loop ends with: the heap and what it gathered, or None when it fails. */
  type LoopEnd<E> = Option<(Heap, E)>

  /** The end the reference loop describes, with the heap the operands leave. */
  function Finished<E>(o: Option<E>, hEnd: Heap): LoopEnd<E>
  {
    if o.Some? then Some((hEnd, o.value)) else None
  }

  /** `f` past the last operand ends with the heap the operands left. */
  ghost predicate EndsAfterLoop<O, E>(outs: seq<Option<O>>, f: (nat, E) -> LoopEnd<E>, acc: E, hEnd: Heap)
  {
    f(|outs|, acc) == Some((hEnd, acc))
  }

  /** `f` at operand `j` puts its outcome and goes on, or fails. */
  ghost predicate TakesLoopStep<O, E>(put: (E, O) -> E, outs: seq<Option<O>>, f: (nat, E) -> LoopEnd<E>, j: nat, acc: E)
    requires j < |outs|
  {
    f(j, acc) == if outs[j].Some? then f(j + 1, put(acc, outs[j].value)) else None
  }

  /** `f` takes the reference loop's steps. */
  ghost predicate TakesLoopSteps<O, E(!new)>(put: (E, O) -> E, outs: seq<Option<O>>, f: (nat, E) -> LoopEnd<E>, hEnd: Heap)
  {
    (forall acc :: EndsAfterLoop(outs, f, acc, hEnd)) &&
    (forall j: nat, acc :: j < |outs| ==> TakesLoopStep(put, outs, f, j, acc))
  }

  /** Any loop that takes the reference loop's steps ends where the reference loop does. */
  lemma {:induction false} LoopUnique<O, E(!new)>(put: (E, O) -> E, outs: seq<Option<O>>, k: nat, acc: E, f: (nat, E) -> LoopEnd<E>, hEnd: Heap)
    requires k <= |outs| && TakesLoopSteps(put, outs, f, hEnd)
    ensures f(k, acc) == Finished(OutcomeLoop(put, outs, k, acc), hEnd)
    decreases |outs| - k
  {
    if k < |outs| {
      assert TakesLoopStep(put, outs, f, k, acc);
      if outs[k].Some? {
        LoopUnique(put, outs, k + 1, put(acc, outs[k].value), f, hEnd);
      }
    } else {
      assert EndsAfterLoop(outs, f, acc, hEnd);
    }
  }

  // Array elements and call arguments.

  /** The heap once the first `i` operands are evaluated in order, each where the one before left it. */
  function OperandHeap(ev: Evaluator, h: Heap, nodes: seq<Node>, i: nat): Heap
    requires i <= |nodes|
  {
    if i == 0 then h else ev(OperandHeap(ev, h, nodes, i - 1), nodes[i - 1]).heap
  }

  /** The value of operand `i`, computed where the operands before it left the heap; None when it fails. */
  function OperandOutcome(ev: Evaluator, h: Heap, nodes: seq<Node>, i: nat): Option<Value>
    requires i < |nodes|
  {
    var e := ev(OperandHeap(ev, h, nodes, i), nodes[i]);
    if e.outcome.Normal? then Some(e.outcome.value) else None
  }

  /** What every operand computes, in order. */
  function OperandOutcomes(ev: Evaluator, h: Heap, nodes: seq<Node>): (outs: seq<Option<Value>>)
    ensures |outs| == |nodes| && forall i :: 0 <= i < |nodes| ==> outs[i] == OperandOutcome(ev, h, nodes, i)
  {
    seq(|nodes|, i requires 0 <= i < |nodes| => OperandOutcome(ev, h, nodes, i))
  }

  function Append(done: seq<Value>, v: Value): seq<Value>
  {
    done + [v]
  }

  /** The reference loop of a value list keeps `done` and then holds the outcomes from `k` on. */
  lemma {:induction false} LoopAppends(outs: seq<Option<Value>>, k: nat, done: seq<Value>)
    requires k <= |outs|
    ensures var r := OutcomeLoop(Append, outs, k, done);
      r.Some? ==> (|r.value| == |done| + |outs| - k && r.value[..|done|] == done &&
        forall i :: k <= i < |outs| ==> outs[i] == Some(r.value[|done| + i - k]))
    decreases |outs| - k
  {
    if k < |outs| && outs[k].Some? {
      var done' := Append(done, outs[k].value);
      LoopAppends(outs, k + 1, done');
      var r := OutcomeLoop(Append, outs, k + 1, done');
      if r.Some? {
        assert r.value[..|done|] == r.value[..|done'|][..|done|];
        assert r.value[|done|] == r.value[..|done'|][|done|];
      }
    }
  }

  /** Finishing an operand loop of the evaluator. */
  function FinishEach(r: Evaluated): LoopEnd<seq<Value>>
  {
    if r.outcome.Normal? then Some((r.heap, r.values)) else None
  }

  /** One iteration of the evaluator's operand loop: the operand's value is appended, or the loop fails. */
  lemma EachStep(x: Host, h: Heap, ctx: nat, n: Node, k: nat, done: seq<Value>, fuel: nat)
    requires (n.ArrayLiteral? || n.CallExpression?) && k < |Operands(n)|
    ensures var ev := Ev(x, ctx, fuel);
      var r := EvalEach(x, OperandHeap(ev, h, Operands(n), k), ctx, n, k, done, fuel);
      var o := OperandOutcome(ev, h, Operands(n), k);
      if o.Some? then r == EvalEach(x, OperandHeap(ev, h, Operands(n), k + 1), ctx, n, k + 1, Append(done, o.value), fuel)
      else !r.outcome.Normal?
  {
  }

  /** The evaluator's operand loop from operand `j` on, started where the operands before `j` left the heap. */
  function EachFrom(x: Host, h: Heap, ctx: nat, n: Node, fuel: nat, j: nat, done: seq<Value>): LoopEnd<seq<Value>>
  {
    if (n.ArrayLiteral? || n.CallExpression?) && j <= |Operands(n)| then
      FinishEach(EvalEach(x, OperandHeap(Ev(x, ctx, fuel), h, Operands(n), j), ctx, n, j, done, fuel))
    else None
  }

  lemma EachFromEnd(x: Host, h: Heap, ctx: nat, n: Node, fuel: nat, done: seq<Value>)
    requires n.ArrayLiteral? || n.CallExpression?
    ensures EachFrom(x, h, ctx, n, fuel, |Operands(n)|, done) == Some((OperandHeap(Ev(x, ctx, fuel), h, Operands(n), |Operands(n)|), done))
  {
  }

  lemma EachFromStep(x: Host, h: Heap, ctx: nat, n: Node, fuel: nat, j: nat, done: seq<Value>)
    requires (n.ArrayLiteral? || n.CallExpression?) && j < |Operands(n)|
    ensures var o := OperandOutcome(Ev(x, ctx, fuel), h, Operands(n), j);
      EachFrom(x, h, ctx, n, fuel, j, done) == if o.Some? then EachFrom(x, h, ctx, n, fuel, j + 1, Append(done, o.value)) else None
  {
    EachStep(x, h, ctx, n, j, done, fuel);
  }

  /** `f` is the evaluator's operand loop. */
  ghost predicate IsEvalEach(x: Host, h: Heap, ctx: nat, n: Node, fuel: nat, f: (nat, seq<Value>) -> LoopEnd<seq<Value>>)
  {
    forall j, done :: f(j, done) == EachFrom(x, h, ctx, n, fuel, j, done)
  }

  lemma EvalTakesEachSteps(x: Host, h: Heap, ctx: nat, n: Node, fuel: nat, f: (nat, seq<Value>) -> LoopEnd<seq<Value>>)
    requires (n.ArrayLiteral? || n.CallExpression?) && IsEvalEach(x, h, ctx, n, fuel, f)
    ensures var ev := Ev(x, ctx, fuel);
      TakesLoopSteps(Append, OperandOutcomes(ev, h, Operands(n)), f, OperandHeap(ev, h, Operands(n), |Operands(n)|))
  {
    var ev := Ev(x, ctx, fuel);
    var outs := OperandOutcomes(ev, h, Operands(n));
    forall done
      ensures EndsAfterLoop(outs, f, done, OperandHeap(ev, h, Operands(n), |Operands(n)|))
    {
      EachFromEnd(x, h, ctx, n, fuel, done);
    }
    forall j: nat, done | j < |outs|
      ensures TakesLoopStep(Append, outs, f, j, done)
    {
      EachFromStep(x, h, ctx, n, fuel, j, done);
    }
  }

  /** The operand loop of the evaluator ends where the reference loop over the operands' outcomes does. */
  lemma EachAgree(x: Host, h: Heap, ctx: nat, n: Node, fuel: nat)
    requires n.ArrayLiteral? || n.CallExpression?
    ensures var ev := Ev(x, ctx, fuel);
      FinishEach(EvalEach(x, h, ctx, n, 0, [], fuel)) ==
        Finished(OutcomeLoop(Append, OperandOutcomes(ev, h, Operands(n)), 0, []), OperandHeap(ev, h, Operands(n), |Operands(n)|))
  {
    var ev := Ev(x, ctx, fuel);
    var f := (j: nat, done: seq<Value>) => EachFrom(x, h, ctx, n, fuel, j, done);
    assert IsEvalEach(x, h, ctx, n, fuel, f);
    EvalTakesEachSteps(x, h, ctx, n, fuel, f);
    LoopUnique(Append, OperandOutcomes(ev, h, Operands(n)), 0, [], f, OperandHeap(ev, h, Operands(n), |Operands(n)|));
  }

  /** The reference loop of a value list, from nothing, holds outcome `i` at index `i`. */
  lemma LoopValues(outs: seq<Option<Value>>)
    ensures var r := OutcomeLoop(Append, outs, 0, []);
      r.Some? ==> |r.value| == |outs| && forall i :: 0 <= i < |outs| ==> outs[i] == Some(r.value[i])
  {
    LoopAppends(outs, 0, []);
  }

  /** Once the evaluator's operand loop succeeds, value `i` is operand `i`'s, the operands computed in order. */
  lemma EachValues(x: Host, h: Heap, ctx: nat, n: Node, fuel: nat)
    requires n.ArrayLiteral? || n.CallExpression?
    ensures var outs := OperandOutcomes(Ev(x, ctx, fuel), h, Operands(n));
      var r := EvalEach(x, h, ctx, n, 0, [], fuel);
      r.outcome.Normal? ==> |r.values| == |Operands(n)| && forall i :: 0 <= i < |Operands(n)| ==> outs[i] == Some(r.values[i])
  {
    var outs := OperandOutcomes(Ev(x, ctx, fuel), h, Operands(n));
    var r := EvalEach(x, h, ctx, n, 0, [], fuel);
    EachAgree(x, h, ctx, n, fuel);
    LoopValues(outs);
    if r.outcome.Normal? {
      assert FinishEach(r) == Some((r.heap, r.values));
      assert OutcomeLoop(Append, outs, 0, []) == Some(r.values);
    }
  }

  /**
   * An array literal takes one step and holds, at index `i`, the value of element `i`, the
   * elements computed left to right, each where the one before left the heap.
   */
  lemma ArrayElements(x: Host, h: Heap, ctx: nat, elements: seq<Node>, pos: Position, fuel: nat)
    requires x.allowStep(h.steps)
    ensures var outs := OperandOutcomes(Ev(x, ctx, fuel), h.(steps := h.steps + [pos]), elements);
      var r := Eval(x, h, ctx, ArrayLiteral(elements, pos), fuel);
      r.outcome.Normal? ==>
        r.outcome.value.List? && r.outcome.value.list < |r.heap.lists| &&
        var s := r.heap.lists[r.outcome.value.list];
        |s| == |elements| && forall i :: 0 <= i < |elements| ==> outs[i] == Some(s[i])
  {
    var n := ArrayLiteral(elements, pos);
    assert Eval(x, h, ctx, n, fuel) == EvalArray(x, h, ctx, n, fuel);
    EachValues(x, h.(steps := h.steps + [pos]), ctx, n, fuel);
  }

  // Map pairs.

  /** The heap once the first `k` pairs are evaluated, key before value, in order. */
  function PairHeap(ev: Evaluator, h: Heap, pairs: seq<(Node, Node)>, k: nat): Heap
    requires k <= |pairs|
    decreases k, 0
  {
    if k == 0 then h else ValueResult(ev, h, pairs, k - 1).heap
  }

  /** The key node of pair `j`, evaluated where the pairs before it left the heap. */
  function KeyResult(ev: Evaluator, h: Heap, pairs: seq<(Node, Node)>, j: nat): Result
    requires j < |pairs|
    decreases j, 1
  {
    ev(PairHeap(ev, h, pairs, j), pairs[j].0)
  }

  /** The value node of pair `j`, evaluated where its key left the heap. */
  function ValueResult(ev: Evaluator, h: Heap, pairs: seq<(Node, Node)>, j: nat): Result
    requires j < |pairs|
    decreases j, 2
  {
    ev(KeyResult(ev, h, pairs, j).heap, pairs[j].1)
  }

  /**
   * What pair `j` puts: its key, when the key node's value is a string or a number, and the
   * value node's value; None when either node fails or the key is of another kind.
   */
  function PairOutcome(ev: Evaluator, h: Heap, pairs: seq<(Node, Node)>, j: nat): Option<(Key, Value)>
    requires j < |pairs|
  {
    var key := KeyResult(ev, h, pairs, j);
    var v := ValueResult(ev, h, pairs, j);
    if key.outcome.Normal? && KeyOf(key.outcome.value).Some? && v.outcome.Normal? then
      Some((KeyOf(key.outcome.value).value, v.outcome.value))
    else None
  }

  /** What every pair puts, in order. */
  function PairOutcomes(ev: Evaluator, h: Heap, pairs: seq<(Node, Node)>): (outs: seq<Option<(Key, Value)>>)
    ensures |outs| == |pairs| && forall j :: 0 <= j < |pairs| ==> outs[j] == PairOutcome(ev, h, pairs, j)
  {
    seq(|pairs|, j requires 0 <= j < |pairs| => PairOutcome(ev, h, pairs, j))
  }

  /** A map's put, as the reference loop takes it. */
  function PutPair(entries: seq<(Key, Value)>, p: (Key, Value)): seq<(Key, Value)>
  {
    Put(entries, p.0, p.1)
  }

  /** No outcome from `k` on puts the key `kk`. */
  predicate NoKeyFrom(outs: seq<Option<(Key, Value)>>, k: nat, kk: Key)
  {
    forall j :: k <= j < |outs| ==> outs[j].None? || outs[j].value.0 != kk
  }

  /** The reference loop of a map leaves alone a key that no outcome from `k` on puts. */
  lemma {:induction false} LoopKeeps(outs: seq<Option<(Key, Value)>>, k: nat, entries: seq<(Key, Value)>, kk: Key)
    requires k <= |outs| && NoKeyFrom(outs, k, kk)
    ensures var r := OutcomeLoop(PutPair, outs, k, entries);
      r.Some? ==> HasKey(r.value, kk) == HasKey(entries, kk) && Get(r.value, kk) == Get(entries, kk)
    decreases |outs| - k
  {
    if k < |outs| && outs[k].Some? {
      LoopKeeps(outs, k + 1, PutPair(entries, outs[k].value), kk);
    }
  }

  /** The reference loop of a map gives a key the value of the last outcome from `k` on that puts it. */
  lemma {:induction false} LoopLastWins(outs: seq<Option<(Key, Value)>>, k: nat, entries: seq<(Key, Value)>, j: nat, kk: Key, v: Value)
    requires k <= j < |outs| && outs[j] == Some((kk, v)) && NoKeyFrom(outs, j + 1, kk)
    ensures var r := OutcomeLoop(PutPair, outs, k, entries);
      r.Some? ==> HasKey(r.value, kk) && Get(r.value, kk) == v
    decreases |outs| - k
  {
    if outs[k].Some? {
      if k == j {
        LoopKeeps(outs, k + 1, PutPair(entries, outs[k].value), kk);
      } else {
        LoopLastWins(outs, k + 1, PutPair(entries, outs[k].value), j, kk, v);
      }
    }
  }

  /**
   * Once the reference loop of a map succeeds from no entries, every outcome is one; a key
   * gets the value of the last outcome that puts it, and a key no outcome puts is absent.
   */
  lemma LoopContents(outs: seq<Option<(Key, Value)>>, kk: Key)
    ensures var r := OutcomeLoop(PutPair, outs, 0, []);
      r.Some? ==>
        (forall j :: 0 <= j < |outs| ==> outs[j].Some?) &&
        (forall j, v :: 0 <= j < |outs| && outs[j] == Some((kk, v)) && NoKeyFrom(outs, j + 1, kk) ==> HasKey(r.value, kk) && Get(r.value, kk) == v) &&
        (NoKeyFrom(outs, 0, kk) ==> !HasKey(r.value, kk))
  {
    LoopAllGood(PutPair, outs, 0, []);
    forall j, v | 0 <= j < |outs| && outs[j] == Some((kk, v)) && NoKeyFrom(outs, j + 1, kk)
      ensures var r := OutcomeLoop(PutPair, outs, 0, []); r.Some? ==> HasKey(r.value, kk) && Get(r.value, kk) == v
    {
      LoopLastWins(outs, 0, [], j, kk, v);
    }
    if NoKeyFrom(outs, 0, kk) {
      LoopKeeps(outs, 0, [], kk);
    }
  }

  /** Finishing the pair loop of the evaluator. */
  function FinishPairs(r: Entries): LoopEnd<seq<(Key, Value)>>
  {
    if r.outcome.Normal? then Some((r.heap, r.entries)) else None
  }

  /** One iteration of the evaluator's pair loop: the pair's outcome is put, or the loop fails. */
  lemma PairStep(x: Host, h: Heap, ctx: nat, n: Node, k: nat, entries: seq<(Key, Value)>, fuel: nat)
    requires n.MapLiteral? && k < |n.pairs|
    ensures var ev := Ev(x, ctx, fuel);
      var r := EvalPairs(x, PairHeap(ev, h, n.pairs, k), ctx, n, k, entries, fuel);
      var o := PairOutcome(ev, h, n.pairs, k);
      if o.Some? then r == EvalPairs(x, PairHeap(ev, h, n.pairs, k + 1), ctx, n, k + 1, PutPair(entries, o.value), fuel)
      else !r.outcome.Normal?
  {
    var ev := Ev(x, ctx, fuel);
    assert KeyResult(ev, h, n.pairs, k) == Eval(x, PairHeap(ev, h, n.pairs, k), ctx, n.pairs[k].0, fuel);
    assert ValueResult(ev, h, n.pairs, k) == Eval(x, KeyResult(ev, h, n.pairs, k).heap, ctx, n.pairs[k].1, fuel);
  }

  /** The evaluator's pair loop from pair `j` on, started where the pairs before `j` left the heap. */
  function PairsFrom(x: Host, h: Heap, ctx: nat, n: Node, fuel: nat, j: nat, e: seq<(Key, Value)>): LoopEnd<seq<(Key, Value)>>
  {
    if n.MapLiteral? && j <= |n.pairs| then FinishPairs(EvalPairs(x, PairHeap(Ev(x, ctx, fuel), h, n.pairs, j), ctx, n, j, e, fuel)) else None
  }

  lemma PairsFromEnd(x: Host, h: Heap, ctx: nat, n: Node, fuel: nat, e: seq<(Key, Value)>)
    requires n.MapLiteral?
    ensures PairsFrom(x, h, ctx, n, fuel, |n.pairs|, e) == Some((PairHeap(Ev(x, ctx, fuel), h, n.pairs, |n.pairs|), e))
  {
  }

  lemma PairsFromStep(x: Host, h: Heap, ctx: nat, n: Node, fuel: nat, j: nat, e: seq<(Key, Value)>)
    requires n.MapLiteral? && j < |n.pairs|
    ensures var o := PairOutcome(Ev(x, ctx, fuel), h, n.pairs, j);
      PairsFrom(x, h, ctx, n, fuel, j, e) == if o.Some? then PairsFrom(x, h, ctx, n, fuel, j + 1, PutPair(e, o.value)) else None
  {
    PairStep(x, h, ctx, n, j, e, fuel);
  }

  /** `f` is the evaluator's pair loop. */
  ghost predicate IsEvalPairs(x: Host, h: Heap, ctx: nat, n: Node, fuel: nat, f: (nat, seq<(Key, Value)>) -> LoopEnd<seq<(Key, Value)>>)
  {
    forall j, e :: f(j, e) == PairsFrom(x, h, ctx, n, fuel, j, e)
  }

  lemma EvalTakesPairSteps(x: Host, h: Heap, ctx: nat, n: Node, fuel: nat, f: (nat, seq<(Key, Value)>) -> LoopEnd<seq<(Key, Value)>>)
    requires n.MapLiteral? && IsEvalPairs(x, h, ctx, n, fuel, f)
    ensures var ev := Ev(x, ctx, fuel);
      TakesLoopSteps(PutPair, PairOutcomes(ev, h, n.pairs), f, PairHeap(ev, h, n.pairs, |n.pairs|))
  {
    var ev := Ev(x, ctx, fuel);
    var outs := PairOutcomes(ev, h, n.pairs);
    forall e
      ensures EndsAfterLoop(outs, f, e, PairHeap(ev, h, n.pairs, |n.pairs|))
    {
      PairsFromEnd(x, h, ctx, n, fuel, e);
    }
    forall j: nat, e | j < |outs|
      ensures TakesLoopStep(PutPair, outs, f, j, e)
    {
      PairsFromStep(x, h, ctx, n, fuel, j, e);
    }
  }

  /** The pair loop of the evaluator ends where the reference loop over the pairs' outcomes does. */
  lemma PairsAgree(x: Host, h: Heap, ctx: nat, n: Node, fuel: nat)
    requires n.MapLiteral?
    ensures var ev := Ev(x, ctx, fuel);
      FinishPairs(EvalPairs(x, h, ctx, n, 0, [], fuel)) ==
        Finished(OutcomeLoop(PutPair, PairOutcomes(ev, h, n.pairs), 0, []), PairHeap(ev, h, n.pairs, |n.pairs|))
  {
    var ev := Ev(x, ctx, fuel);
    var f := (j: nat, e: seq<(Key, Value)>) => PairsFrom(x, h, ctx, n, fuel, j, e);
    assert IsEvalPairs(x, h, ctx, n, fuel, f);
    EvalTakesPairSteps(x, h, ctx, n, fuel, f);
    LoopUnique(PutPair, PairOutcomes(ev, h, n.pairs), 0, [], f, PairHeap(ev, h, n.pairs, |n.pairs|));
  }

  /** What the evaluator's pair loop puts, once it succeeds: see LoopContents. */
  lemma PairsContents(x: Host, h: Heap, ctx: nat, n: Node, kk: Key, fuel: nat)
    requires n.MapLiteral?
    ensures var outs := PairOutcomes(Ev(x, ctx, fuel), h, n.pairs);
      var r := EvalPairs(x, h, ctx, n, 0, [], fuel);
      r.outcome.Normal? ==>
        (forall j :: 0 <= j < |n.pairs| ==> outs[j].Some?) &&
        (forall j, v :: 0 <= j < |n.pairs| && outs[j] == Some((kk, v)) && NoKeyFrom(outs, j + 1, kk) ==> HasKey(r.entries, kk) && Get(r.entries, kk) == v) &&
        (NoKeyFrom(outs, 0, kk) ==> !HasKey(r.entries, kk))
  {
    PairsAgree(x, h, ctx, n, fuel);
    LoopContents(PairOutcomes(Ev(x, ctx, fuel), h, n.pairs), kk);
  }

  /**
   * A map literal takes one step and, once it succeeds, every pair has put a key that is a
   * string or a number; each key maps to the value of the last pair that puts it, and a
   * key no pair puts is absent. Pair `j`'s key and value are computed where the pairs
   * before it left the heap (PairOutcome).
   */
  lemma MapContents(x: Host, h: Heap, ctx: nat, pairs: seq<(Node, Node)>, pos: Position, kk: Key, fuel: nat)
    requires x.allowStep(h.steps)
    ensures var outs := PairOutcomes(Ev(x, ctx, fuel), h.(steps := h.steps + [pos]), pairs);
      var r := Eval(x, h, ctx, MapLiteral(pairs, pos), fuel);
      r.outcome.Normal? ==>
        r.outcome.value.Dict? && r.outcome.value.dict < |r.heap.dicts| &&
        var d := r.heap.dicts[r.outcome.value.dict];
        (forall j :: 0 <= j < |pairs| ==> outs[j].Some?) &&
        (forall j, v :: 0 <= j < |pairs| && outs[j] == Some((kk, v)) && NoKeyFrom(outs, j + 1, kk) ==> HasKey(d, kk) && Get(d, kk) == v) &&
        (NoKeyFrom(outs, 0, kk) ==> !HasKey(d, kk))
  {
    var n := MapLiteral(pairs, pos);
    assert Eval(x, h, ctx, n, fuel) == EvalMap(x, h, ctx, n, fuel);
    PairsContents(x, h.(steps := h.steps + [pos]), ctx, n, kk, fuel);
  }

  /** A key that is neither a string nor a number fails the literal before its value is computed. */
  lemma BadKeyStops(x: Host, h: Heap, ctx: nat, n: Node, k: nat, entries: seq<(Key, Value)>, fuel: nat)
    requires n.MapLiteral? && k < |n.pairs|
    requires Eval(x, h, ctx, n.pairs[k].0, fuel).outcome.Normal?
    requires KeyOf(Eval(x, h, ctx, n.pairs[k].0, fuel).outcome.value).None?
    ensures var key := Eval(x, h, ctx, n.pairs[k].0, fuel);
      EvalPairs(x, h, ctx, n, k, entries, fuel) ==
        Entries(key.heap, Failed(RuntimeError("Map keys must be strings or numbers, got: " + ClassText(x, key.outcome.value), n.pos.line, n.pos.column, None)), entries)
  {
  }
}
