/**
 * What evaluating a node does: the `evaluate` method of every class of the ast package, as a
 * function from a heap, a context and a node to the new heap and an outcome. A null child
 * is `Missing`, whose evaluation fails as the null dereference in the Java code does.
 *
 * Evaluation is bounded by `fuel`: a call of a closure and each iteration of a while loop
 * consume one unit, and the outcome is `OutOfFuel` when none is left. An outcome other than
 * `OutOfFuel` and `Unsupported` is the one the Java code computes.
 */
module Semantics {
  import opened Wrappers
  import opened Text
  import opened Ast
  import opened Quota
  import opened Values
  import opened Operators
  import opened Builtins

  /** The values of a list of operand nodes, computed left to right. */
  datatype Evaluated = Evaluated(heap: Heap, outcome: Outcome, values: seq<Value>)

  /** The entries of a map literal, put in order. */
  datatype Entries = Entries(heap: Heap, outcome: Outcome, entries: seq<(Key, Value)>)

  /** The operand nodes of an array literal or a call. */
  function Operands(n: Node): seq<Node>
    requires n.ArrayLiteral? || n.CallExpression?
  {
    if n.ArrayLiteral? then n.elements else n.arguments
  }

  /** The closure stored under `k`; heaps the evaluator builds have every closure it refers to. */
  function FunctionAt(h: Heap, k: nat): Function
  {
    if k < |h.functions| then h.functions[k] else Function("", [], Missing, 0)
  }

  /** AbstractCollection.toString of the parameter names: "[a, b]". */
  function ListText(names: seq<string>): string
  {
    "[" + Separated(names) + "]"
  }

  function Separated(names: seq<string>): string
  {
    if names == [] then "" else if |names| == 1 then names[0] else Separated(names[..|names| - 1]) + ", " + names[|names| - 1]
  }

  /** Node.evaluate. */
  function Eval(x: Host, h: Heap, ctx: nat, n: Node, fuel: nat): (r: Result)
    ensures Grows(h, r.heap)
    decreases fuel, n, 2
  {
    match n
    case Missing => Result(h, Failed(NullDereference))
    case Program(_, _) => EvalProgram(x, h, ctx, n, fuel)
    case BlockStatement(_, _) => EvalStatements(x, h, ctx, n, 0, Null, fuel)
    case ExpressionStatement(e, _) => if e.Missing? then Result(h, Normal(Null)) else Eval(x, h, ctx, e, fuel)
    case VariableDeclaration(_, _, _) => EvalDeclaration(x, h, ctx, n, fuel)
    case AssignmentStatement(_, _, _) => EvalAssignment(x, h, ctx, n, fuel)
    case IndexAssignmentStatement(_, _, _, _) => EvalIndexAssignment(x, h, ctx, n, fuel)
    case FunctionDeclaration(_, _, _, _) => EvalFunctionDeclaration(x, h, ctx, n)
    case IfStatement(_, _, _, _) => EvalIf(x, h, ctx, n, fuel)
    case WhileStatement(_, _, _) => EvalWhile(x, h, ctx, n, Null, fuel)
    case ReturnStatement(_, _) => EvalReturn(x, h, ctx, n, fuel)
    case Identifier(name, pos) =>
      (match Lookup(h, ctx, name)
       case Some(v) => Result(h, Normal(v))
       case None => Result(h, Failed(ErrorAt("Undefined variable '" + name + "'", pos))))
    case NumberLiteral(v, _) => Result(h, Normal(Num(v)))
    case StringLiteral(s, pos) =>
      var t := Track(x, h, pos);
      if t.outcome.Normal? then Result(t.heap, Normal(Str(s))) else t
    case BooleanLiteral(b, _) => Result(h, Normal(Bool(b)))
    case NullLiteral(_) => Result(h, Normal(Null))
    case ArrayLiteral(_, _) => EvalArray(x, h, ctx, n, fuel)
    case MapLiteral(_, _) => EvalMap(x, h, ctx, n, fuel)
    case InfixExpression(_, _, _, _) => EvalInfix(x, h, ctx, n, fuel)
    case PrefixExpression(op, right, _) =>
      var r := Eval(x, h, ctx, right, fuel);
      if r.outcome.Normal? then Result(r.heap, Normal(ApplyPrefix(op, r.outcome.value))) else r
    case CallExpression(_, _, _) => EvalCall(x, h, ctx, n, fuel)
    case IndexExpression(_, _, _) => EvalIndex(x, h, ctx, n, fuel)
  }

  /** Program.evaluate: one step, the statements, and a returned value unwrapped. */
  function EvalProgram(x: Host, h: Heap, ctx: nat, n: Node, fuel: nat): (r: Result)
    requires n.Program?
    ensures Grows(h, r.heap) && !r.outcome.Returned?
    decreases fuel, n, 1
  {
    var t := Track(x, h, n.pos);
    if !t.outcome.Normal? then t
    else
      var r := EvalStatements(x, t.heap, ctx, n, 0, Null, fuel);
      if r.outcome.Returned? then Result(r.heap, Normal(r.outcome.value)) else r
  }

  /**
   * The statement loop of Program and BlockStatement from statement `k` on, where `last` is
   * the result of the statement before it: the last result, or the first outcome that is
   * not a plain value (a ReturnValue still wrapped, or a failure).
   */
  function EvalStatements(x: Host, h: Heap, ctx: nat, n: Node, k: nat, last: Value, fuel: nat): (r: Result)
    requires n.Program? || n.BlockStatement?
    requires k <= |n.statements|
    ensures Grows(h, r.heap)
    decreases fuel, n, 0, |n.statements| - k
  {
    if k == |n.statements| then Result(h, Normal(last))
    else
      var r := Eval(x, h, ctx, n.statements[k], fuel);
      if r.outcome.Normal? then EvalStatements(x, r.heap, ctx, n, k + 1, r.outcome.value, fuel) else r
  }

  /** VariableDeclaration.evaluate: the initializer (null when absent), then define. */
  function EvalDeclaration(x: Host, h: Heap, ctx: nat, n: Node, fuel: nat): (r: Result)
    requires n.VariableDeclaration?
    ensures Grows(h, r.heap)
    decreases fuel, n, 1
  {
    var i := if n.initializer.Missing? then Result(h, Normal(Null)) else Eval(x, h, ctx, n.initializer, fuel);
    if i.outcome.Normal? then Result(Define(i.heap, ctx, n.name, i.outcome.value), i.outcome) else i
  }

  /** AssignmentStatement.evaluate: the value first, then assign, which may fail. */
  function EvalAssignment(x: Host, h: Heap, ctx: nat, n: Node, fuel: nat): (r: Result)
    requires n.AssignmentStatement?
    ensures Grows(h, r.heap)
    decreases fuel, n, 1
  {
    var v := Eval(x, h, ctx, n.value, fuel);
    if !v.outcome.Normal? then v
    else match Assign(v.heap, ctx, n.name, v.outcome.value)
      case None => Result(v.heap, Failed(ErrorAt("Cannot assign to undefined variable '" + n.name + "'", n.pos)))
      case Some(h') => Result(h', v.outcome)
  }

  /**
   * IndexAssignmentStatement.evaluate: one step; target, index and value, in that order;
   * then the checks; then the list is written in place.
   */
  function EvalIndexAssignment(x: Host, h: Heap, ctx: nat, n: Node, fuel: nat): (r: Result)
    requires n.IndexAssignmentStatement?
    ensures Grows(h, r.heap)
    decreases fuel, n, 1
  {
    var t := Track(x, h, n.pos);
    if !t.outcome.Normal? then t
    else
      var a := Eval(x, t.heap, ctx, n.target, fuel);
      if !a.outcome.Normal? then a
      else
        var i := Eval(x, a.heap, ctx, n.index, fuel);
        if !i.outcome.Normal? then i
        else
          var v := Eval(x, i.heap, ctx, n.value, fuel);
          if !v.outcome.Normal? then v
          else StoreElement(v.heap, a.outcome.value, i.outcome.value, v.outcome.value, n.pos)
  }

  /** The checks and the write of IndexAssignmentStatement, once its operands are known. */
  function StoreElement(h: Heap, target: Value, index: Value, v: Value, pos: Position): (r: Result)
    ensures Grows(h, r.heap)
    ensures r.outcome.Normal? <==> target.List? && index.Num? && 0 <= NumberIntValue(index.x) < |ListAt(h, target.list)|
    ensures r.outcome.Normal? ==>
      r.outcome.value == v && r.heap == SetList(h, target.list, ListAt(h, target.list)[NumberIntValue(index.x) := v])
    ensures !r.outcome.Normal? ==> r.heap == h && r.outcome.Failed? && r.outcome.failure.RuntimeError?
    ensures !target.List? ==> r.outcome == Failed(ErrorAt("Cannot use index operator on non-array value", pos))
    ensures target.List? && !index.Num? ==> r.outcome == Failed(ErrorAt("Array index must be a number", pos))
    ensures target.List? && index.Num? && !(0 <= NumberIntValue(index.x) < |ListAt(h, target.list)|) ==>
      r.outcome == Failed(ErrorAt("Array index out of bounds: " + IntText(NumberIntValue(index.x)), pos))
  {
    if !target.List? then Result(h, Failed(ErrorAt("Cannot use index operator on non-array value", pos)))
    else if !index.Num? then Result(h, Failed(ErrorAt("Array index must be a number", pos)))
    else
      var s := ListAt(h, target.list);
      var i := NumberIntValue(index.x);
      if i < 0 || i >= |s| then Result(h, Failed(ErrorAt("Array index out of bounds: " + IntText(i), pos)))
      else Result(SetList(h, target.list, s[i := v]), Normal(v))
  }

  /**
   * FunctionDeclaration.evaluate: one step; a closure over the current context is stored and
   * defined under the function's name.
   */
  function EvalFunctionDeclaration(x: Host, h: Heap, ctx: nat, n: Node): (r: Result)
    requires n.FunctionDeclaration?
    ensures Grows(h, r.heap)
    ensures r.outcome.Normal? <==> x.allowStep(h.steps)
    ensures r.outcome.Normal? ==>
      r.outcome.value == Closure(|h.functions|) && r.heap.functions == h.functions + [Function(n.name, n.parameters, n.body, ctx)]
    ensures r.outcome.Normal? && ctx < |h.scopes| ==> Lookup(r.heap, ctx, n.name) == Some(Closure(|h.functions|))
  {
    var t := Track(x, h, n.pos);
    if !t.outcome.Normal? then t
    else
      var k := |h.functions|;
      var h' := t.heap.(functions := t.heap.functions + [Function(n.name, n.parameters, n.body, ctx)]);
      Result(Define(h', ctx, n.name, Closure(k)), Normal(Closure(k)))
  }

  /** IfStatement.evaluate: the condition once, then one branch or null. */
  function EvalIf(x: Host, h: Heap, ctx: nat, n: Node, fuel: nat): (r: Result)
    requires n.IfStatement?
    ensures Grows(h, r.heap)
    decreases fuel, n, 1
  {
    var c := Eval(x, h, ctx, n.condition, fuel);
    if !c.outcome.Normal? then c
    else if Truthy(c.outcome.value) then Eval(x, c.heap, ctx, n.consequence, fuel)
    else if n.alternative.Missing? then Result(c.heap, Normal(Null))
    else Eval(x, c.heap, ctx, n.alternative, fuel)
  }

  /**
   * WhileStatement.evaluate from the current iteration on, where `last` is the result of
   * the previous body: the condition before every iteration, the body while it is truthy.
   */
  function EvalWhile(x: Host, h: Heap, ctx: nat, n: Node, last: Value, fuel: nat): (r: Result)
    requires n.WhileStatement?
    ensures Grows(h, r.heap)
    decreases fuel, n, 1
  {
    var c := Eval(x, h, ctx, n.condition, fuel);
    if !c.outcome.Normal? then c
    else if !Truthy(c.outcome.value) then Result(c.heap, Normal(last))
    else
      var b := Eval(x, c.heap, ctx, n.body, fuel);
      if !b.outcome.Normal? then b
      else if fuel == 0 then Result(b.heap, OutOfFuel)
      else EvalWhile(x, b.heap, ctx, n, b.outcome.value, fuel - 1)
  }

  /** ReturnStatement.evaluate: the value (null when absent), wrapped. */
  function EvalReturn(x: Host, h: Heap, ctx: nat, n: Node, fuel: nat): (r: Result)
    requires n.ReturnStatement?
    ensures Grows(h, r.heap)
    ensures r.outcome.Returned? || r.outcome.Failed? || r.outcome.OutOfFuel? || r.outcome.Unsupported?
    decreases fuel, n, 1
  {
    if n.value.Missing? then Result(h, Returned(Null))
    else
      var v := Eval(x, h, ctx, n.value, fuel);
      if v.outcome.Normal? then Result(v.heap, Returned(v.outcome.value)) else v
  }

  /**
   * The operand loop of ArrayLiteral and CallExpression from operand `k` on, `done` holding
   * the values of the operands before it.
   */
  function EvalEach(x: Host, h: Heap, ctx: nat, n: Node, k: nat, done: seq<Value>, fuel: nat): (r: Evaluated)
    requires n.ArrayLiteral? || n.CallExpression?
    requires k <= |Operands(n)|
    ensures Grows(h, r.heap)
    ensures r.outcome.Normal? ==> |r.values| == |done| + |Operands(n)| - k && r.values[..|done|] == done
    decreases fuel, n, 0, |Operands(n)| - k
  {
    if k == |Operands(n)| then Evaluated(h, Normal(Null), done)
    else
      var e := Eval(x, h, ctx, Operands(n)[k], fuel);
      if !e.outcome.Normal? then Evaluated(e.heap, e.outcome, done)
      else
        var r := EvalEach(x, e.heap, ctx, n, k + 1, done + [e.outcome.value], fuel);
        assert r.outcome.Normal? ==> r.values[..|done|] == (done + [e.outcome.value])[..|done|];
        r
  }

  /** ArrayLiteral.evaluate: one step, the elements left to right, a fresh list. */
  function EvalArray(x: Host, h: Heap, ctx: nat, n: Node, fuel: nat): (r: Result)
    requires n.ArrayLiteral?
    ensures Grows(h, r.heap)
    ensures r.outcome.Normal? ==>
      r.outcome.value.List? && |h.lists| <= r.outcome.value.list == |r.heap.lists| - 1 && |r.heap.lists[r.outcome.value.list]| == |n.elements|
    decreases fuel, n, 1
  {
    var t := Track(x, h, n.pos);
    if !t.outcome.Normal? then t
    else
      var e := EvalEach(x, t.heap, ctx, n, 0, [], fuel);
      if !e.outcome.Normal? then Result(e.heap, e.outcome)
      else
        var (h', v) := NewList(e.heap, e.values);
        Result(h', Normal(v))
  }

  /**
   * The pair loop of MapLiteral from pair `k` on: each key is computed and checked before
   * its value, and a later entry for the same key replaces the earlier one.
   */
  function EvalPairs(x: Host, h: Heap, ctx: nat, n: Node, k: nat, entries: seq<(Key, Value)>, fuel: nat): (r: Entries)
    requires n.MapLiteral?
    requires k <= |n.pairs|
    ensures Grows(h, r.heap)
    ensures r.outcome.Normal? ==> |r.entries| <= |entries| + |n.pairs| - k
    ensures DistinctKeys(entries) && r.outcome.Normal? ==> DistinctKeys(r.entries)
    decreases fuel, n, 0, |n.pairs| - k
  {
    if k == |n.pairs| then Entries(h, Normal(Null), entries)
    else
      var key := Eval(x, h, ctx, n.pairs[k].0, fuel);
      if !key.outcome.Normal? then Entries(key.heap, key.outcome, entries)
      else match KeyOf(key.outcome.value)
        case None =>
          Entries(key.heap, Failed(ErrorAt("Map keys must be strings or numbers, got: " + ClassText(x, key.outcome.value), n.pos)), entries)
        case Some(kk) =>
          var v := Eval(x, key.heap, ctx, n.pairs[k].1, fuel);
          if !v.outcome.Normal? then Entries(v.heap, v.outcome, entries)
          else EvalPairs(x, v.heap, ctx, n, k + 1, Put(entries, kk, v.outcome.value), fuel)
  }

  /** MapLiteral.evaluate: one step, the pairs, a fresh map. */
  function EvalMap(x: Host, h: Heap, ctx: nat, n: Node, fuel: nat): (r: Result)
    requires n.MapLiteral?
    ensures Grows(h, r.heap)
    ensures r.outcome.Normal? ==>
      r.outcome.value.Dict? && |h.dicts| <= r.outcome.value.dict == |r.heap.dicts| - 1 &&
      |r.heap.dicts[r.outcome.value.dict]| <= |n.pairs| && DistinctKeys(r.heap.dicts[r.outcome.value.dict])
    decreases fuel, n, 1
  {
    var t := Track(x, h, n.pos);
    if !t.outcome.Normal? then t
    else
      var e := EvalPairs(x, t.heap, ctx, n, 0, [], fuel);
      if !e.outcome.Normal? then Result(e.heap, e.outcome)
      else
        var (h', v) := NewDict(e.heap, e.entries);
        Result(h', Normal(v))
  }

  /** InfixExpression.evaluate: one step, both operands always, then the operator. */
  function EvalInfix(x: Host, h: Heap, ctx: nat, n: Node, fuel: nat): (r: Result)
    requires n.InfixExpression?
    ensures Grows(h, r.heap)
    decreases fuel, n, 1
  {
    var t := Track(x, h, n.pos);
    if !t.outcome.Normal? then t
    else
      var a := Eval(x, t.heap, ctx, n.left, fuel);
      if !a.outcome.Normal? then a
      else
        var b := Eval(x, a.heap, ctx, n.right, fuel);
        if !b.outcome.Normal? then b
        else match ApplyInfix(x, b.heap, a.outcome.value, n.operator, b.outcome.value, fuel)
          case None => Result(b.heap, OutOfFuel)
          case Some(v) => Result(b.heap, Normal(v))
  }

  /**
   * CallExpression.evaluate: the callee, the null check, the arguments left to right, then
   * the call. A closure call consumes one unit of fuel.
   */
  function EvalCall(x: Host, h: Heap, ctx: nat, n: Node, fuel: nat): (r: Result)
    requires n.CallExpression?
    ensures Grows(h, r.heap)
    decreases fuel, n, 1
  {
    var f := Eval(x, h, ctx, n.callee, fuel);
    if !f.outcome.Normal? then f
    else if f.outcome.value == Null then Result(f.heap, Failed(ErrorAt("Cannot call null as a function", n.pos)))
    else
      var a := EvalEach(x, f.heap, ctx, n, 0, [], fuel);
      if !a.outcome.Normal? then Result(a.heap, a.outcome)
      else Apply(x, a.heap, n, f.outcome.value, a.values, fuel)
  }

  /** The call itself, once the callee and the arguments are known: closure, native or neither. */
  function Apply(x: Host, h: Heap, n: Node, callee: Value, args: seq<Value>, fuel: nat): (r: Result)
    requires n.CallExpression?
    ensures Grows(h, r.heap)
    decreases fuel, n, 0
  {
    if callee.Closure? then
      if fuel == 0 then Result(h, OutOfFuel) else CallFunction(x, h, FunctionAt(h, callee.closure), args, fuel - 1)
    else if callee.Native? then ApplyNative(x, h, callee.name, args)
    else Result(h, Failed(ErrorAt("Not a function: " + Show(x, h, callee), n.pos)))
  }

  /** Binds the parameters to the arguments in order in scope `c`, as the closure's loop does. */
  function BindParameters(h: Heap, c: nat, parameters: seq<string>, args: seq<Value>): (r: Heap)
    requires |parameters| == |args|
    ensures |r.scopes| == |h.scopes| && r.(scopes := h.scopes) == h
    decreases |parameters|
  {
    if parameters == [] then h
    else BindParameters(Define(h, c, parameters[0], args[0]), c, parameters[1..], args[1..])
  }

  /**
   * The closure FunctionDeclaration builds: the arity check; a scope extending the defining
   * context with the parameters bound; the body; a ReturnValue unwrapped; a RuntimeError of
   * the body rethrown as a RuntimeException naming the function.
   */
  function CallFunction(x: Host, h: Heap, f: Function, args: seq<Value>, fuel: nat): (r: Result)
    ensures Grows(h, r.heap)
    ensures !r.outcome.Returned?
    ensures r.outcome.Failed? ==> !r.outcome.failure.RuntimeError?
    decreases fuel, f.body, 3
  {
    if |args| != |f.parameters| then
      Result(h, Failed(HostException("Function " + f.name + ListText(f.parameters) + " called with " + IntText(|args|) + " arguments")))
    else
      var (h1, c) := Extend(h, f.context);
      var h2 := BindParameters(h1, c, f.parameters, args);
      var r := Eval(x, h2, c, f.body, fuel);
      match r.outcome
      case Returned(v) => Result(r.heap, Normal(v))
      case Failed(RuntimeError(m, _, _, _)) => Result(r.heap, Failed(HostException("Error in function '" + f.name + "': " + m)))
      case _ => r
  }

  /**
   * IndexExpression.evaluate: one step; target and index; then the checks, which name the
   * offending value's class; then the element, leaving the list as it was.
   */
  function EvalIndex(x: Host, h: Heap, ctx: nat, n: Node, fuel: nat): (r: Result)
    requires n.IndexExpression?
    ensures Grows(h, r.heap)
    decreases fuel, n, 1
  {
    var t := Track(x, h, n.pos);
    if !t.outcome.Normal? then t
    else
      var a := Eval(x, t.heap, ctx, n.target, fuel);
      if !a.outcome.Normal? then a
      else
        var i := Eval(x, a.heap, ctx, n.index, fuel);
        if !i.outcome.Normal? then i
        else Result(i.heap, LoadElement(x, i.heap, a.outcome.value, i.outcome.value, n.pos))
  }

  /** The checks and the read of IndexExpression, once its operands are known. */
  function LoadElement(x: Host, h: Heap, target: Value, index: Value, pos: Position): (r: Outcome)
    ensures r.Normal? <==> target.List? && index.Num? && 0 <= NumberIntValue(index.x) < |ListAt(h, target.list)|
    ensures r.Normal? ==> r.value == ListAt(h, target.list)[NumberIntValue(index.x)]
    ensures !r.Normal? ==> r.Failed? && r.failure.RuntimeError? && r.failure.line == pos.line && r.failure.column == pos.column
    ensures !target.List? ==> r == Failed(ErrorAt("Cannot use index operator on non-array value, got: " + ClassText(x, target), pos))
    ensures target.List? && !index.Num? ==> r == Failed(ErrorAt("Array index must be a number, got: " + ClassText(x, index), pos))
    ensures target.List? && index.Num? && !(0 <= NumberIntValue(index.x) < |ListAt(h, target.list)|) ==>
      r == Failed(ErrorAt("Array index out of bounds: " + IntText(NumberIntValue(index.x)) + ", array size: " + IntText(|ListAt(h, target.list)|), pos))
  {
    if !target.List? then Failed(ErrorAt("Cannot use index operator on non-array value, got: " + ClassText(x, target), pos))
    else if !index.Num? then Failed(ErrorAt("Array index must be a number, got: " + ClassText(x, index), pos))
    else
      var s := ListAt(h, target.list);
      var i := NumberIntValue(index.x);
      if i < 0 || i >= |s| then Failed(ErrorAt("Array index out of bounds: " + IntText(i) + ", array size: " + IntText(|s|), pos))
      else Normal(s[i])
  }
}
