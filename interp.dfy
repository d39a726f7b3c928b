/**
 * The evaluator as the Java code runs it: the contexts, lists, maps and closures of one
 * evaluation are fields of a `Runtime` object that the `evaluate` methods update in place,
 * with loops where the Java methods loop. Every method is proved to do exactly what the
 * evaluation functions of module Semantics say.
 */
module Interp {
  import opened Wrappers
  import opened Text
  import opened Ast
  import opened Quota
  import opened Values
  import opened Operators
  import opened Builtins
  import opened Semantics

  class Runtime {
    const host: Host
    var scopes: seq<Scope>                 // every EvaluationContext, the root first
    var lists: seq<seq<Value>>             // every ArrayList
    var dicts: seq<seq<(Key, Value)>>      // every HashMap
    var functions: seq<Function>           // every closure built by FunctionDeclaration
    var steps: seq<Position>               // the positions the step ledger has accepted

    /** The fields as one heap value. */
    function State(): Heap
      reads this
    {
      Heap(scopes, lists, dicts, functions, steps)
    }

    /** A runtime holding only the root context `new EvaluationContext()`. */
    constructor (host: Host)
      ensures this.host == host && State() == Heap([EmptyScope], [], [], [], [])
    {
      this.host := host;
      scopes := [EmptyScope];
      lists := [];
      dicts := [];
      functions := [];
      steps := [];
    }

    // ----- EvaluationContext -----

    /** extend: a new child of `ctx`. */
    method Extend(ctx: nat) returns (c: nat)
      modifies this
      ensures (State(), c) == Values.Extend(old(State()), ctx)
    {
      c := |scopes|;
      scopes := scopes + [Scope(map[], map[], Some(ctx))];
    }

    /** define: writes the binding into scope `ctx`. */
    method Define(ctx: nat, name: string, v: Value)
      modifies this
      ensures State() == Values.Define(old(State()), ctx, name, v)
    {
      if ctx < |scopes| {
        var s := scopes[ctx];
        scopes := scopes[ctx := s.(values := s.values[name := v])];
      }
    }

    /** registerFunction: writes the library function into scope `ctx`. */
    method RegisterFunction(ctx: nat, name: string, f: Value)
      modifies this
      ensures State() == Values.RegisterFunction(old(State()), ctx, name, f)
    {
      if ctx < |scopes| {
        var s := scopes[ctx];
        scopes := scopes[ctx := s.(functions := s.functions[name := f])];
      }
    }

    /** get: walks the parent chain from `ctx`, bindings before library functions in each scope. */
    method Get(ctx: nat, name: string) returns (v: Option<Value>)
      ensures v == Lookup(State(), ctx, name)
    {
      var c: nat := ctx;
      while c < |scopes|
        invariant Lookup(State(), ctx, name) == Lookup(State(), c, name)
        decreases c
      {
        var s := scopes[c];
        if name in s.values {
          return Some(s.values[name]);
        }
        if name in s.functions {
          return Some(s.functions[name]);
        }
        if s.parent.Some? && s.parent.value < c {
          c := s.parent.value;
        } else {
          return None;
        }
      }
      return None;
    }

    /** assign: walks the parent chain and overwrites the nearest binding; false when there is none. */
    method Assign(ctx: nat, name: string, v: Value) returns (ok: bool)
      modifies this
      ensures ok == Values.Assign(old(State()), ctx, name, v).Some?
      ensures ok ==> State() == Values.Assign(old(State()), ctx, name, v).value
      ensures !ok ==> State() == old(State())
    {
      var c: nat := ctx;
      while c < |scopes|
        invariant State() == old(State())
        invariant Owner(State(), ctx, name) == Owner(State(), c, name)
        decreases c
      {
        var s := scopes[c];
        if name in s.values {
          Define(c, name, v);
          return true;
        }
        if s.parent.Some? && s.parent.value < c {
          c := s.parent.value;
        } else {
          return false;
        }
      }
      return false;
    }

    /** Node.trackEvaluationStep: the ledger accepts the position or refuses it. */
    method TrackStep(pos: Position) returns (out: Outcome)
      modifies this
      ensures Result(State(), out) == Track(host, old(State()), pos)
    {
      if host.allowStep(steps) {
        steps := steps + [pos];
        return Normal(Null);
      }
      return Failed(Exhausted(EvaluationSteps, pos.line, pos.column));
    }

    // ----- Lists and maps -----

    /** A fresh list with the given elements. */
    method NewList(elements: seq<Value>) returns (v: Value)
      modifies this
      ensures (State(), v) == Values.NewList(old(State()), elements)
    {
      v := List(|lists|);
      lists := lists + [elements];
    }

    /** A fresh map with the given entries. */
    method NewDict(entries: seq<(Key, Value)>) returns (v: Value)
      modifies this
      ensures (State(), v) == Values.NewDict(old(State()), entries)
    {
      v := Dict(|dicts|);
      dicts := dicts + [entries];
    }

    /** ArrayList.set: element `index` of list `i` becomes `v`. */
    method SetElement(i: nat, index: nat, v: Value)
      requires index < |ListAt(State(), i)|
      modifies this
      ensures State() == SetList(old(State()), i, ListAt(old(State()), i)[index := v])
    {
      lists := lists[i := lists[i][index := v]];
    }

    /** ArrayList.add: `v` goes to the end of list `i`. */
    method Push(i: nat, v: Value)
      modifies this
      ensures State() == SetList(old(State()), i, ListAt(old(State()), i) + [v])
    {
      if i < |lists| {
        lists := lists[i := lists[i] + [v]];
      }
    }

    /** ArrayList.remove(index): the element leaves list `i` and the later ones shift left. */
    method RemoveElement(i: nat, index: nat) returns (v: Value)
      requires index < |ListAt(State(), i)|
      modifies this
      ensures v == ListAt(old(State()), i)[index]
      ensures State() == SetList(old(State()), i, RemoveAt(ListAt(old(State()), i), index))
    {
      v := lists[i][index];
      lists := lists[i := RemoveAt(lists[i], index)];
    }

    /** HashMap.remove: the entry of `k` leaves map `i`. */
    method RemoveEntry(i: nat, k: Key)
      modifies this
      ensures State() == SetDict(old(State()), i, Values.RemoveKey(DictAt(old(State()), i), k))
    {
      if i < |dicts| {
        dicts := dicts[i := Values.RemoveKey(dicts[i], k)];
      }
    }

    // ----- Natives -----

    /**
     * Applies a native function: push, pop and delete change the list or map in place, keys
     * and values allocate a list, and the others only compute a value.
     */
    method CallNative(name: string, args: seq<Value>) returns (out: Outcome)
      modifies this
      ensures Result(State(), out) == ApplyNative(host, old(State()), name, args)
    {
      if name == "push" {
        ArrayDispatch(host, State(), name, args);
        out := NativePush(args);
      } else if name == "pop" {
        ArrayDispatch(host, State(), name, args);
        out := NativePop(args);
      } else if name == "delete" {
        ArrayDispatch(host, State(), name, args);
        out := NativeDelete(args);
      } else if name in MapNames {
        MapDispatch(host, State(), name, args);
        out := NativeKeysValues(name, args);
      } else {
        out := ApplyNative(host, State(), name, args).outcome;
      }
    }

    /** push: the value goes to the end of the list, which is also the result. */
    method NativePush(args: seq<Value>) returns (out: Outcome)
      modifies this
      ensures Result(State(), out) == ApplyArray(old(State()), "push", args)
    {
      if |args| < 2 {
        out := Failed(HostException("push() requires 2 arguments"));
      } else if !args[0].List? {
        out := Failed(HostException("First argument to push() must be an array"));
      } else {
        Push(args[0].list, args[1]);
        out := Normal(args[1]);
      }
    }

    /** pop: the last element leaves the list and is the result. */
    method NativePop(args: seq<Value>) returns (out: Outcome)
      modifies this
      ensures Result(State(), out) == ApplyArray(old(State()), "pop", args)
    {
      if args == [] {
        out := Failed(HostException("pop() requires 1 argument"));
      } else if !args[0].List? {
        out := Failed(HostException("Argument to pop() must be an array"));
      } else if ListAt(State(), args[0].list) == [] {
        out := Failed(HostException("Cannot pop from an empty array"));
      } else {
        var s := ListAt(State(), args[0].list);
        assert RemoveAt(s, |s| - 1) == s[..|s| - 1];
        var v := RemoveElement(args[0].list, |s| - 1);
        out := Normal(v);
      }
    }

    /** delete: removes by index from a list or by key from a map and returns what was there. */
    method NativeDelete(args: seq<Value>) returns (out: Outcome)
      modifies this
      ensures Result(State(), out) == Delete(old(State()), args)
    {
      if |args| < 2 {
        out := Failed(HostException("delete() requires 2 arguments"));
      } else if args[0].List? {
        out := DeleteElement(args[0].list, args[1]);
      } else if args[0].Dict? {
        out := DeleteEntry(args[0].dict, args[1]);
      } else {
        out := Failed(HostException("First argument to delete() must be an array or map"));
      }
    }

    /** delete on a list: the element at the index leaves the list and is the result. */
    method DeleteElement(i: nat, index: Value) returns (out: Outcome)
      modifies this
      ensures Result(State(), out) == ListDelete(old(State()), i, index)
    {
      if !index.Num? {
        out := Failed(HostException("Second argument to delete() must be a number for arrays"));
      } else {
        var k := NumberIntValue(index.x);
        if k < 0 || k >= |ListAt(State(), i)| {
          out := Failed(HostException("Array index out of bounds: " + IntText(k)));
        } else {
          var v := RemoveElement(i, k);
          out := Normal(v);
        }
      }
    }

    /** delete on a map: the key's entry leaves the map and its value is the result; null when absent. */
    method DeleteEntry(i: nat, key: Value) returns (out: Outcome)
      modifies this
      ensures Result(State(), out) == MapDelete(old(State()), i, key)
    {
      var k := KeyOf(key);
      if k.None? {
        out := Failed(HostException("Second argument to delete() for maps must be a string or number"));
      } else {
        var d := DictAt(State(), i);
        if !HasKey(d, k.value) {
          out := Normal(Null);
        } else {
          RemoveEntry(i, k.value);
          out := Normal(Values.Get(d, k.value));
        }
      }
    }

    /** keys and values: a fresh list of the map's keys or values. */
    method NativeKeysValues(name: string, args: seq<Value>) returns (out: Outcome)
      requires name in MapNames
      modifies this
      ensures Result(State(), out) == ApplyMap(old(State()), name, args)
    {
      if args == [] {
        out := Failed(HostException(name + "() requires 1 argument"));
      } else if !args[0].Dict? {
        out := Failed(HostException("Argument to " + name + "() must be a map"));
      } else {
        var d := DictAt(State(), args[0].dict);
        var v := NewList(if name == "keys" then KeysOf(d) else ValuesOf(d));
        out := Normal(v);
      }
    }

    // ----- Node.evaluate -----

    /** Node.evaluate: dispatches on the node's class. */
    method Evaluate(n: Node, ctx: nat, fuel: nat) returns (out: Outcome)
      modifies this
      ensures Result(State(), out) == Eval(host, old(State()), ctx, n, fuel)
      decreases fuel, n, 3
    {
      if n.Missing? {
        out := Failed(NullDereference);
      } else if IsStatement(n) {
        out := EvaluateStatement(n, ctx, fuel);
      } else {
        out := EvaluateExpression(n, ctx, fuel);
      }
    }

    /** The evaluate methods of the Statement classes. */
    method EvaluateStatement(n: Node, ctx: nat, fuel: nat) returns (out: Outcome)
      requires IsStatement(n)
      modifies this
      ensures Result(State(), out) == Eval(host, old(State()), ctx, n, fuel)
      decreases fuel, n, 2
    {
      if n.Program? {
        out := EvaluateProgram(n, ctx, fuel);
      } else if n.BlockStatement? {
        out := EvaluateStatements(n, ctx, fuel);
      } else if n.ExpressionStatement? {
        out := EvaluateExpressionStatement(n, ctx, fuel);
      } else if n.VariableDeclaration? {
        out := EvaluateDeclaration(n, ctx, fuel);
      } else if n.AssignmentStatement? {
        out := EvaluateAssignment(n, ctx, fuel);
      } else if n.IndexAssignmentStatement? {
        out := EvaluateIndexAssignment(n, ctx, fuel);
      } else if n.FunctionDeclaration? {
        out := EvaluateFunctionDeclaration(n, ctx);
      } else if n.IfStatement? {
        out := EvaluateIf(n, ctx, fuel);
      } else if n.WhileStatement? {
        out := EvaluateWhile(n, ctx, fuel);
      } else {
        out := EvaluateReturn(n, ctx, fuel);
      }
    }

    /** The evaluate methods of the Expression classes. */
    method EvaluateExpression(n: Node, ctx: nat, fuel: nat) returns (out: Outcome)
      requires !n.Missing? && !IsStatement(n)
      modifies this
      ensures Result(State(), out) == Eval(host, old(State()), ctx, n, fuel)
      decreases fuel, n, 2
    {
      if n.Identifier? {
        out := EvaluateIdentifier(n, ctx);
      } else if n.NumberLiteral? {
        out := Normal(Num(n.number));
      } else if n.StringLiteral? {
        out := EvaluateString(n);
      } else if n.BooleanLiteral? {
        out := Normal(Bool(n.truth));
      } else if n.NullLiteral? {
        out := Normal(Null);
      } else if n.ArrayLiteral? {
        out := EvaluateArray(n, ctx, fuel);
      } else if n.MapLiteral? {
        out := EvaluateMap(n, ctx, fuel);
      } else if n.InfixExpression? {
        out := EvaluateInfix(n, ctx, fuel);
      } else if n.PrefixExpression? {
        out := EvaluatePrefix(n, ctx, fuel);
      } else if n.CallExpression? {
        out := EvaluateCall(n, ctx, fuel);
      } else {
        out := EvaluateIndex(n, ctx, fuel);
      }
    }

    /** ExpressionStatement.evaluate: a missing expression is null. */
    method EvaluateExpressionStatement(n: Node, ctx: nat, fuel: nat) returns (out: Outcome)
      requires n.ExpressionStatement?
      modifies this
      ensures Result(State(), out) == Eval(host, old(State()), ctx, n, fuel)
      decreases fuel, n, 1
    {
      if n.expression.Missing? {
        out := Normal(Null);
      } else {
        out := Evaluate(n.expression, ctx, fuel);
      }
    }

    /** Identifier.evaluate: context.get, or the undefined-variable error. */
    method EvaluateIdentifier(n: Node, ctx: nat) returns (out: Outcome)
      requires n.Identifier?
      ensures Result(State(), out) == Eval(host, State(), ctx, n, 0)
    {
      var v := Get(ctx, n.name);
      if v.Some? {
        out := Normal(v.value);
      } else {
        out := Failed(ErrorAt("Undefined variable '" + n.name + "'", n.pos));
      }
    }

    /** StringLiteral.evaluate: one step, then the text. */
    method EvaluateString(n: Node) returns (out: Outcome)
      requires n.StringLiteral?
      modifies this
      ensures Result(State(), out) == Eval(host, old(State()), 0, n, 0)
    {
      out := TrackStep(n.pos);
      if out.Normal? {
        out := Normal(Str(n.text));
      }
    }

    /** PrefixExpression.evaluate. */
    method EvaluatePrefix(n: Node, ctx: nat, fuel: nat) returns (out: Outcome)
      requires n.PrefixExpression?
      modifies this
      ensures Result(State(), out) == Eval(host, old(State()), ctx, n, fuel)
      decreases fuel, n, 1
    {
      out := Evaluate(n.right, ctx, fuel);
      if out.Normal? {
        out := Normal(ApplyPrefix(n.operator, out.value));
      }
    }

    /** Program.evaluate. */
    method EvaluateProgram(n: Node, ctx: nat, fuel: nat) returns (out: Outcome)
      requires n.Program?
      modifies this
      ensures Result(State(), out) == EvalProgram(host, old(State()), ctx, n, fuel)
      decreases fuel, n, 1
    {
      out := TrackStep(n.pos);
      if out.Normal? {
        out := EvaluateStatements(n, ctx, fuel);
        if out.Returned? {
          out := Normal(out.value);
        }
      }
    }

    /** The statement loop of Program and BlockStatement. */
    method EvaluateStatements(n: Node, ctx: nat, fuel: nat) returns (out: Outcome)
      requires n.Program? || n.BlockStatement?
      modifies this
      ensures Result(State(), out) == EvalStatements(host, old(State()), ctx, n, 0, Null, fuel)
      decreases fuel, n, 0
    {
      var result := Null;
      var k := 0;
      while k < |n.statements|
        invariant k <= |n.statements|
        invariant EvalStatements(host, old(State()), ctx, n, 0, Null, fuel) == EvalStatements(host, State(), ctx, n, k, result, fuel)
      {
        out := Evaluate(n.statements[k], ctx, fuel);
        if !out.Normal? {
          return;
        }
        result := out.value;
        k := k + 1;
      }
      out := Normal(result);
    }

    /** VariableDeclaration.evaluate. */
    method EvaluateDeclaration(n: Node, ctx: nat, fuel: nat) returns (out: Outcome)
      requires n.VariableDeclaration?
      modifies this
      ensures Result(State(), out) == EvalDeclaration(host, old(State()), ctx, n, fuel)
      decreases fuel, n, 1
    {
      if n.initializer.Missing? {
        out := Normal(Null);
      } else {
        out := Evaluate(n.initializer, ctx, fuel);
      }
      if out.Normal? {
        Define(ctx, n.name, out.value);
      }
    }

    /** AssignmentStatement.evaluate. */
    method EvaluateAssignment(n: Node, ctx: nat, fuel: nat) returns (out: Outcome)
      requires n.AssignmentStatement?
      modifies this
      ensures Result(State(), out) == EvalAssignment(host, old(State()), ctx, n, fuel)
      decreases fuel, n, 1
    {
      out := Evaluate(n.value, ctx, fuel);
      if out.Normal? {
        var ok := Assign(ctx, n.name, out.value);
        if !ok {
          out := Failed(ErrorAt("Cannot assign to undefined variable '" + n.name + "'", n.pos));
        }
      }
    }

    /** IndexAssignmentStatement.evaluate. */
    method EvaluateIndexAssignment(n: Node, ctx: nat, fuel: nat) returns (out: Outcome)
      requires n.IndexAssignmentStatement?
      modifies this
      ensures Result(State(), out) == EvalIndexAssignment(host, old(State()), ctx, n, fuel)
      decreases fuel, n, 1
    {
      out := TrackStep(n.pos);
      if !out.Normal? {
        return;
      }
      var target := Evaluate(n.target, ctx, fuel);
      if !target.Normal? {
        return target;
      }
      var index := Evaluate(n.index, ctx, fuel);
      if !index.Normal? {
        return index;
      }
      out := Evaluate(n.value, ctx, fuel);
      if !out.Normal? {
        return;
      }
      out := Store(target.value, index.value, out.value, n.pos);
    }

    /** The checks of IndexAssignmentStatement, then the in-place write. */
    method Store(target: Value, index: Value, v: Value, pos: Position) returns (out: Outcome)
      modifies this
      ensures Result(State(), out) == StoreElement(old(State()), target, index, v, pos)
    {
      if !target.List? {
        return Failed(ErrorAt("Cannot use index operator on non-array value", pos));
      }
      if !index.Num? {
        return Failed(ErrorAt("Array index must be a number", pos));
      }
      var i := NumberIntValue(index.x);
      if i < 0 || i >= |ListAt(State(), target.list)| {
        return Failed(ErrorAt("Array index out of bounds: " + IntText(i), pos));
      }
      SetElement(target.list, i, v);
      return Normal(v);
    }

    /** FunctionDeclaration.evaluate. */
    method EvaluateFunctionDeclaration(n: Node, ctx: nat) returns (out: Outcome)
      requires n.FunctionDeclaration?
      modifies this
      ensures Result(State(), out) == EvalFunctionDeclaration(host, old(State()), ctx, n)
    {
      out := TrackStep(n.pos);
      if out.Normal? {
        var k := |functions|;
        functions := functions + [Function(n.name, n.parameters, n.body, ctx)];
        Define(ctx, n.name, Closure(k));
        out := Normal(Closure(k));
      }
    }

    /** IfStatement.evaluate. */
    method EvaluateIf(n: Node, ctx: nat, fuel: nat) returns (out: Outcome)
      requires n.IfStatement?
      modifies this
      ensures Result(State(), out) == EvalIf(host, old(State()), ctx, n, fuel)
      decreases fuel, n, 1
    {
      out := Evaluate(n.condition, ctx, fuel);
      if !out.Normal? {
        return;
      }
      if Truthy(out.value) {
        out := Evaluate(n.consequence, ctx, fuel);
      } else if n.alternative.Missing? {
        out := Normal(Null);
      } else {
        out := Evaluate(n.alternative, ctx, fuel);
      }
    }

    /** WhileStatement.evaluate: one unit of fuel per iteration. */
    method EvaluateWhile(n: Node, ctx: nat, fuel: nat) returns (out: Outcome)
      requires n.WhileStatement?
      modifies this
      ensures Result(State(), out) == EvalWhile(host, old(State()), ctx, n, Null, fuel)
      decreases fuel, n, 1
    {
      var result := Null;
      var f: nat := fuel;
      while true
        invariant f <= fuel
        invariant EvalWhile(host, old(State()), ctx, n, Null, fuel) == EvalWhile(host, State(), ctx, n, result, f)
        decreases f
      {
        out := Evaluate(n.condition, ctx, f);
        if !out.Normal? {
          return;
        }
        if !Truthy(out.value) {
          return Normal(result);
        }
        out := Evaluate(n.body, ctx, f);
        if !out.Normal? {
          return;
        }
        if f == 0 {
          return OutOfFuel;
        }
        result := out.value;
        f := f - 1;
      }
    }

    /** ReturnStatement.evaluate. */
    method EvaluateReturn(n: Node, ctx: nat, fuel: nat) returns (out: Outcome)
      requires n.ReturnStatement?
      modifies this
      ensures Result(State(), out) == EvalReturn(host, old(State()), ctx, n, fuel)
      decreases fuel, n, 1
    {
      if n.value.Missing? {
        return Returned(Null);
      }
      out := Evaluate(n.value, ctx, fuel);
      if out.Normal? {
        out := Returned(out.value);
      }
    }

    /** The operand loop of ArrayLiteral and CallExpression. */
    method EvaluateEach(n: Node, ctx: nat, fuel: nat) returns (out: Outcome, values: seq<Value>)
      requires n.ArrayLiteral? || n.CallExpression?
      modifies this
      ensures Evaluated(State(), out, values) == EvalEach(host, old(State()), ctx, n, 0, [], fuel)
      decreases fuel, n, 0
    {
      values := [];
      var k := 0;
      while k < |Operands(n)|
        invariant k <= |Operands(n)|
        invariant EvalEach(host, old(State()), ctx, n, 0, [], fuel) == EvalEach(host, State(), ctx, n, k, values, fuel)
      {
        out := Evaluate(Operands(n)[k], ctx, fuel);
        if !out.Normal? {
          return;
        }
        values := values + [out.value];
        k := k + 1;
      }
      out := Normal(Null);
    }

    /** ArrayLiteral.evaluate. */
    method EvaluateArray(n: Node, ctx: nat, fuel: nat) returns (out: Outcome)
      requires n.ArrayLiteral?
      modifies this
      ensures Result(State(), out) == EvalArray(host, old(State()), ctx, n, fuel)
      decreases fuel, n, 1
    {
      out := TrackStep(n.pos);
      if !out.Normal? {
        return;
      }
      var values;
      out, values := EvaluateEach(n, ctx, fuel);
      if out.Normal? {
        var v := NewList(values);
        out := Normal(v);
      }
    }

    /** The pair loop of MapLiteral. */
    method EvaluatePairs(n: Node, ctx: nat, fuel: nat) returns (out: Outcome, entries: seq<(Key, Value)>)
      requires n.MapLiteral?
      modifies this
      ensures Entries(State(), out, entries) == EvalPairs(host, old(State()), ctx, n, 0, [], fuel)
      decreases fuel, n, 0
    {
      entries := [];
      var k := 0;
      while k < |n.pairs|
        invariant k <= |n.pairs|
        invariant EvalPairs(host, old(State()), ctx, n, 0, [], fuel) == EvalPairs(host, State(), ctx, n, k, entries, fuel)
      {
        out := Evaluate(n.pairs[k].0, ctx, fuel);
        if !out.Normal? {
          return;
        }
        var key := KeyOf(out.value);
        if key.None? {
          out := Failed(ErrorAt("Map keys must be strings or numbers, got: " + ClassText(host, out.value), n.pos));
          return;
        }
        out := Evaluate(n.pairs[k].1, ctx, fuel);
        if !out.Normal? {
          return;
        }
        entries := Put(entries, key.value, out.value);
        k := k + 1;
      }
      out := Normal(Null);
    }

    /** MapLiteral.evaluate. */
    method EvaluateMap(n: Node, ctx: nat, fuel: nat) returns (out: Outcome)
      requires n.MapLiteral?
      modifies this
      ensures Result(State(), out) == EvalMap(host, old(State()), ctx, n, fuel)
      decreases fuel, n, 1
    {
      out := TrackStep(n.pos);
      if !out.Normal? {
        return;
      }
      var entries;
      out, entries := EvaluatePairs(n, ctx, fuel);
      if out.Normal? {
        var v := NewDict(entries);
        out := Normal(v);
      }
    }

    /** InfixExpression.evaluate. */
    method EvaluateInfix(n: Node, ctx: nat, fuel: nat) returns (out: Outcome)
      requires n.InfixExpression?
      modifies this
      ensures Result(State(), out) == EvalInfix(host, old(State()), ctx, n, fuel)
      decreases fuel, n, 1
    {
      out := TrackStep(n.pos);
      if !out.Normal? {
        return;
      }
      var left := Evaluate(n.left, ctx, fuel);
      if !left.Normal? {
        return left;
      }
      out := Evaluate(n.right, ctx, fuel);
      if !out.Normal? {
        return;
      }
      var v := ApplyInfix(host, State(), left.value, n.operator, out.value, fuel);
      out := if v.Some? then Normal(v.value) else OutOfFuel;
    }

    /** CallExpression.evaluate. */
    method EvaluateCall(n: Node, ctx: nat, fuel: nat) returns (out: Outcome)
      requires n.CallExpression?
      modifies this
      ensures Result(State(), out) == EvalCall(host, old(State()), ctx, n, fuel)
      decreases fuel, n, 1
    {
      var callee := Evaluate(n.callee, ctx, fuel);
      if !callee.Normal? {
        return callee;
      }
      if callee.value == Null {
        return Failed(ErrorAt("Cannot call null as a function", n.pos));
      }
      var args;
      out, args := EvaluateEach(n, ctx, fuel);
      if !out.Normal? {
        return;
      }
      out := Call(n, callee.value, args, fuel);
    }

    /** The call itself: a closure runs its body, a native its Java code, anything else is an error. */
    method Call(n: Node, callee: Value, args: seq<Value>, fuel: nat) returns (out: Outcome)
      requires n.CallExpression?
      modifies this
      ensures Result(State(), out) == Apply(host, old(State()), n, callee, args, fuel)
      decreases fuel, n, 0
    {
      if callee.Closure? {
        if fuel == 0 {
          return OutOfFuel;
        }
        out := Invoke(FunctionAt(State(), callee.closure), args, fuel - 1);
      } else if callee.Native? {
        out := CallNative(callee.name, args);
      } else {
        out := Failed(ErrorAt("Not a function: " + Show(host, State(), callee), n.pos));
      }
    }

    /** The closure's body: arity check, new scope, parameter loop, body, unwrapping. */
    method Invoke(f: Function, args: seq<Value>, fuel: nat) returns (out: Outcome)
      modifies this
      ensures Result(State(), out) == CallFunction(host, old(State()), f, args, fuel)
      decreases fuel, f.body, 4
    {
      if |args| != |f.parameters| {
        return Failed(HostException("Function " + f.name + ListText(f.parameters) + " called with " + IntText(|args|) + " arguments"));
      }
      var c := Extend(f.context);
      var i := 0;
      while i < |f.parameters|
        invariant i <= |f.parameters|
        invariant BindParameters(State(), c, f.parameters[i..], args[i..]) ==
                  BindParameters(Values.Extend(old(State()), f.context).0, c, f.parameters, args)
      {
        assert f.parameters[i..][1..] == f.parameters[i + 1..] && args[i..][1..] == args[i + 1..];
        Define(c, f.parameters[i], args[i]);
        i := i + 1;
      }
      out := Evaluate(f.body, c, fuel);
      if out.Returned? {
        out := Normal(out.value);
      } else if out.Failed? && out.failure.RuntimeError? {
        out := Failed(HostException("Error in function '" + f.name + "': " + out.failure.message));
      }
    }

    /** IndexExpression.evaluate. */
    method EvaluateIndex(n: Node, ctx: nat, fuel: nat) returns (out: Outcome)
      requires n.IndexExpression?
      modifies this
      ensures Result(State(), out) == EvalIndex(host, old(State()), ctx, n, fuel)
      decreases fuel, n, 1
    {
      out := TrackStep(n.pos);
      if !out.Normal? {
        return;
      }
      var target := Evaluate(n.target, ctx, fuel);
      if !target.Normal? {
        return target;
      }
      out := Evaluate(n.index, ctx, fuel);
      if !out.Normal? {
        return;
      }
      out := LoadElement(host, State(), target.value, out.value, n.pos);
    }
  }
}
