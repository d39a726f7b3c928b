/**
 * The run-time values of the evaluator and the heap they live in. Java objects that can be
 * shared and updated in place (the `ArrayList`s and `HashMap`s of the script, the scopes of
 * runtime/EvaluationContext.java and the closures of FunctionDeclaration) are entries of a
 * store and are referred to by their index, so two bindings of one list see each other's
 * writes exactly as two Java references do.
 *
 * Behaviour the shown sources do not define (double division and remainder, the text of a
 * double, the `toString` of lists, maps and lambdas, the step ledger behind
 * `trackEvaluationStep`) is a field of `Host`, and the model is proved for every host.
 */
module Values {
  import opened Wrappers
  import opened Text
  import opened Ast
  import opened Quota

  /** A map key: the script can only build string and number keys. */
  datatype Key = StrKey(s: string) | NumKey(x: real)

  /**
   * A script value: null, a Boolean, a Double, a String, a reference to a list, a map or a
   * closure, or one of the registered native functions.
   */
  datatype Value =
    | Null
    | Bool(b: bool)
    | Num(x: real)
    | Str(s: string)
    | List(list: nat)
    | Dict(dict: nat)
    | Closure(closure: nat)
    | Native(name: string)

  /** What the closure built by FunctionDeclaration.evaluate captures. */
  datatype Function = Function(name: string, parameters: seq<string>, body: Node, context: nat)

  /** One EvaluationContext: its bindings, its library functions and its parent. */
  datatype Scope = Scope(values: map<string, Value>, functions: map<string, Value>, parent: Option<nat>)

  /**
   * Every object the evaluator can reach. Maps keep their entries in insertion order, with
   * each key at most once; `steps` holds the position of every step tracked so far.
   */
  datatype Heap = Heap(
    scopes: seq<Scope>,
    lists: seq<seq<Value>>,
    dicts: seq<seq<(Key, Value)>>,
    functions: seq<Function>,
    steps: seq<Position>)

  /** The behaviour of the Java platform that the shown sources do not define. */
  datatype Host = Host(
    allowStep: seq<Position> -> bool,
    divide: (real, real) -> Value,
    remainder: (real, real) -> Value,
    numberText: real -> string,
    objectText: (Heap, Value) -> string,
    lambdaClass: Value -> string,
    nullMessage: string)

  /**
   * How an evaluation can fail: a RuntimeError (a ResourceExhaustionError when `limit` is
   * set), an unchecked exception thrown by a closure or a native with its message, or the
   * exception Java raises when a null subtree is evaluated.
   */
  datatype Failure =
    | RuntimeError(message: string, line: int, column: int, limit: Option<LimitType>)
    | HostException(message: string)
    | NullDereference

  /**
   * The outcome of evaluating a node: a value, a ReturnValue wrapping a value, a failure,
   * or one of the two outcomes the model adds: the fuel ran out, or a native function whose
   * behaviour lies outside the model was called.
   */
  datatype Outcome =
    | Normal(value: Value)
    | Returned(value: Value)
    | Failed(failure: Failure)
    | OutOfFuel
    | Unsupported(name: string)

  datatype Result = Result(heap: Heap, outcome: Outcome)

  /**
   * The heap only grows: no scope, list, map or closure disappears, and the step ledger is
   * only ever extended.
   */
  predicate Grows(h: Heap, h': Heap)
  {
    |h.scopes| <= |h'.scopes| && |h.lists| <= |h'.lists| && |h.dicts| <= |h'.dicts| &&
    |h.functions| <= |h'.functions| && h.steps <= h'.steps
  }

  /** A RuntimeError raised at a node's position. */
  function ErrorAt(message: string, pos: Position): Failure
  {
    RuntimeError(message, pos.line, pos.column, None)
  }

  /** The ResourceExhaustionError constructor: the kind's description at the given place. */
  function Exhausted(t: LimitType, line: int, column: int): (f: Failure)
    ensures f.RuntimeError? && f.message == Description(t) && f.limit == Some(t)
    ensures f.line == line && f.column == column
  {
    RuntimeError(Description(t), line, column, Some(t))
  }

  /**
   * Node.trackEvaluationStep: the position is handed to the step ledger, which either
   * records it or refuses it with an EVALUATION_STEPS error at that position.
   */
  function Track(x: Host, h: Heap, pos: Position): (r: Result)
    ensures r.outcome.Normal? ==> r.heap == h.(steps := h.steps + [pos])
    ensures !r.outcome.Normal? ==> r.heap == h && r.outcome == Failed(Exhausted(EvaluationSteps, pos.line, pos.column))
    ensures r.outcome.Normal? <==> x.allowStep(h.steps)
  {
    if x.allowStep(h.steps) then Result(h.(steps := h.steps + [pos]), Normal(Null))
    else Result(h, Failed(Exhausted(EvaluationSteps, pos.line, pos.column)))
  }

  // ----- Scopes (runtime/EvaluationContext.java) -----

  /** Every scope's parent was created before it, as `extend` guarantees. */
  ghost predicate ParentsBelow(h: Heap)
  {
    forall i :: 0 <= i < |h.scopes| && h.scopes[i].parent.Some? ==> h.scopes[i].parent.value < i
  }

  /** The root context `new EvaluationContext()`: no bindings, no functions, no parent. */
  const EmptyScope := Scope(map[], map[], None)

  /** extend: a new scope with empty tables whose parent is `ctx`. */
  function Extend(h: Heap, ctx: nat): (r: (Heap, nat))
    ensures r.0 == h.(scopes := h.scopes + [Scope(map[], map[], Some(ctx))]) && r.1 == |h.scopes|
  {
    (h.(scopes := h.scopes + [Scope(map[], map[], Some(ctx))]), |h.scopes|)
  }

  /**
   * get: a binding of the scope itself (even one bound to null), else one of its library
   * functions, else the parent's answer; None when no scope on the chain has the name.
   */
  function Lookup(h: Heap, ctx: nat, name: string): Option<Value>
    decreases ctx
  {
    if ctx >= |h.scopes| then None
    else
      var s := h.scopes[ctx];
      if name in s.values then Some(s.values[name])
      else if name in s.functions then Some(s.functions[name])
      else if s.parent.Some? && s.parent.value < ctx then Lookup(h, s.parent.value, name)
      else None
  }

  /** The nearest scope on the chain whose bindings (library functions do not count) hold `name`. */
  function Owner(h: Heap, ctx: nat, name: string): (o: Option<nat>)
    ensures o.Some? ==> o.value <= ctx && o.value < |h.scopes| && name in h.scopes[o.value].values
    decreases ctx
  {
    if ctx >= |h.scopes| then None
    else
      var s := h.scopes[ctx];
      if name in s.values then Some(ctx)
      else if s.parent.Some? && s.parent.value < ctx then Owner(h, s.parent.value, name)
      else None
  }

  /** define: the binding is written in scope `ctx` alone, overwriting an earlier one. */
  function Define(h: Heap, ctx: nat, name: string, v: Value): (r: Heap)
    ensures ctx < |h.scopes| ==> Lookup(r, ctx, name) == Some(v)
  {
    if ctx < |h.scopes| then
      var s := h.scopes[ctx];
      h.(scopes := h.scopes[ctx := s.(values := s.values[name := v])])
    else h
  }

  /**
   * assign: the binding of the nearest scope that has one is overwritten; None (the
   * "Cannot assign to undefined variable" error) when no scope on the chain binds the name.
   */
  function Assign(h: Heap, ctx: nat, name: string, v: Value): (r: Option<Heap>)
    ensures r.Some? <==> Owner(h, ctx, name).Some?
    ensures r.Some? ==> r.value == Define(h, Owner(h, ctx, name).value, name, v)
  {
    match Owner(h, ctx, name)
    case None => None
    case Some(o) => Some(Define(h, o, name, v))
  }

  /** registerFunction: the library function is written in scope `ctx`, overwriting an earlier one. */
  function RegisterFunction(h: Heap, ctx: nat, name: string, f: Value): (r: Heap)
  {
    if ctx < |h.scopes| then
      var s := h.scopes[ctx];
      h.(scopes := h.scopes[ctx := s.(functions := s.functions[name := f])])
    else h
  }

  /** Library functions live in the root scope alone, as the interpreter registers them. */
  ghost predicate FunctionsAtRoot(h: Heap)
  {
    forall i :: 0 < i < |h.scopes| ==> h.scopes[i].functions == map[]
  }

  /** define does not change what any other name resolves to, from any scope. */
  lemma {:induction false} DefineOtherName(h: Heap, ctx: nat, name: string, v: Value, c: nat, other: string)
    requires other != name
    ensures Lookup(Define(h, ctx, name, v), c, other) == Lookup(h, c, other)
    decreases c
  {
    var r := Define(h, ctx, name, v);
    if c < |h.scopes| {
      var s := h.scopes[c];
      if other !in s.values && other !in s.functions && s.parent.Some? && s.parent.value < c {
        DefineOtherName(h, ctx, name, v, s.parent.value, other);
      }
    }
  }

  /** A binding made in a scope is invisible from the scopes created before it. */
  lemma {:induction false} DefineInvisibleBelow(h: Heap, ctx: nat, name: string, v: Value, c: nat, other: string)
    requires c < ctx
    ensures Lookup(Define(h, ctx, name, v), c, other) == Lookup(h, c, other)
    decreases c
  {
    if c < |h.scopes| {
      var s := h.scopes[c];
      if other !in s.values && other !in s.functions && s.parent.Some? && s.parent.value < c {
        DefineInvisibleBelow(h, ctx, name, v, s.parent.value, other);
      }
    }
  }

  /** extend changes no existing scope's view, and the new scope sees what its parent sees. */
  lemma {:induction false} ExtendSeesParent(h: Heap, ctx: nat, c: nat, name: string)
    requires ctx < |h.scopes|
    ensures c < |h.scopes| ==> Lookup(Extend(h, ctx).0, c, name) == Lookup(h, c, name)
    ensures Lookup(Extend(h, ctx).0, Extend(h, ctx).1, name) == Lookup(h, ctx, name)
    decreases c
  {
    var e := Extend(h, ctx).0;
    if c < |h.scopes| {
      var s := h.scopes[c];
      assert e.scopes[c] == s;
      if name !in s.values && name !in s.functions && s.parent.Some? && s.parent.value < c {
        ExtendSeesParent(h, ctx, s.parent.value, name);
      }
    }
    ExtendParentStep(h, ctx, ctx, name);
  }

  lemma {:induction false} ExtendParentStep(h: Heap, ctx: nat, c: nat, name: string)
    requires c < |h.scopes|
    ensures Lookup(Extend(h, ctx).0, c, name) == Lookup(h, c, name)
    decreases c
  {
    var e := Extend(h, ctx).0;
    var s := h.scopes[c];
    assert e.scopes[c] == s;
    if name !in s.values && name !in s.functions && s.parent.Some? && s.parent.value < c {
      ExtendParentStep(h, ctx, s.parent.value, name);
    }
  }

  /** Every name assign accepts is one get resolves. */
  lemma {:induction false} OwnerIsVisible(h: Heap, ctx: nat, name: string)
    requires Owner(h, ctx, name).Some?
    ensures Lookup(h, ctx, name).Some?
    decreases ctx
  {
    var s := h.scopes[ctx];
    if name !in s.values {
      OwnerIsVisible(h, s.parent.value, name);
    }
  }

  /**
   * After assign, get resolves the name to the new value: the nearest binding is the one
   * overwritten, so no inner binding hides it.
   */
  lemma {:induction false} AssignThenLookup(h: Heap, ctx: nat, name: string, v: Value)
    requires FunctionsAtRoot(h) && Assign(h, ctx, name, v).Some?
    ensures Lookup(Assign(h, ctx, name, v).value, ctx, name) == Some(v)
    decreases ctx
  {
    var o := Owner(h, ctx, name).value;
    var s := h.scopes[ctx];
    if name !in s.values {
      var p := s.parent.value;
      assert Owner(h, p, name) == Some(o);
      AssignThenLookup(h, p, name, v);
      assert Define(h, o, name, v).scopes[ctx] == s;
    }
  }

  // ----- Lists and maps -----

  /** The elements of list `i`. */
  function ListAt(h: Heap, i: nat): seq<Value>
  {
    if i < |h.lists| then h.lists[i] else []
  }

  /** `new ArrayList<>(...)`: a fresh list that no other value refers to. */
  function NewList(h: Heap, elements: seq<Value>): (r: (Heap, Value))
    ensures r.1 == List(|h.lists|) && r.0 == h.(lists := h.lists + [elements])
  {
    (h.(lists := h.lists + [elements]), List(|h.lists|))
  }

  /** Replaces the contents of list `i`; every reference to it sees the new contents. */
  function SetList(h: Heap, i: nat, elements: seq<Value>): Heap
  {
    if i < |h.lists| then h.(lists := h.lists[i := elements]) else h
  }

  /** The entries of map `i`. */
  function DictAt(h: Heap, i: nat): seq<(Key, Value)>
  {
    if i < |h.dicts| then h.dicts[i] else []
  }

  /** `new HashMap<>()` filled with `entries`. */
  function NewDict(h: Heap, entries: seq<(Key, Value)>): (r: (Heap, Value))
    ensures r.1 == Dict(|h.dicts|) && r.0 == h.(dicts := h.dicts + [entries])
  {
    (h.(dicts := h.dicts + [entries]), Dict(|h.dicts|))
  }

  function SetDict(h: Heap, i: nat, entries: seq<(Key, Value)>): Heap
  {
    if i < |h.dicts| then h.(dicts := h.dicts[i := entries]) else h
  }

  /** No key occurs twice. */
  predicate DistinctKeys(d: seq<(Key, Value)>)
  {
    forall i, j :: 0 <= i < j < |d| ==> d[i].0 != d[j].0
  }

  /** The index of `k`'s entry, or |d| when there is none. */
  function Find(d: seq<(Key, Value)>, k: Key): (i: nat)
    ensures i <= |d| && (i < |d| ==> d[i].0 == k)
    ensures forall j :: 0 <= j < i ==> d[j].0 != k
  {
    if d == [] then 0
    else if d[0].0 == k then 0
    else 1 + Find(d[1..], k)
  }

  /** containsKey. */
  predicate HasKey(d: seq<(Key, Value)>, k: Key)
  {
    Find(d, k) < |d|
  }

  /** get: the value of `k`'s entry; null when there is none. */
  function Get(d: seq<(Key, Value)>, k: Key): Value
  {
    var i := Find(d, k);
    if i < |d| then d[i].1 else Null
  }

  /** put: the entry of `k` gets the value `v`; a new key goes after the others. */
  function Put(d: seq<(Key, Value)>, k: Key, v: Value): (r: seq<(Key, Value)>)
    ensures HasKey(r, k) && Get(r, k) == v
    ensures |r| == |d| + (if HasKey(d, k) then 0 else 1)
    ensures forall k' :: k' != k ==> HasKey(r, k') == HasKey(d, k') && Get(r, k') == Get(d, k')
    ensures DistinctKeys(d) ==> DistinctKeys(r)
  {
    var i := Find(d, k);
    if i < |d| then
      var r := d[i := (k, v)];
      FindFirst(r, k, i);
      forall k' | k' != k
        ensures Find(r, k') == Find(d, k')
      {
        FindUpdate(d, i, v, k');
      }
      r
    else
      var r := d + [(k, v)];
      FindSnoc(d, k, v);
      forall k' | k' != k
        ensures HasKey(r, k') == HasKey(d, k') && Get(r, k') == Get(d, k')
      {
        FindSnocOther(d, k, v, k');
      }
      r
  }

  /** The first entry with key `k` is the one Find returns. */
  lemma {:induction false} FindFirst(d: seq<(Key, Value)>, k: Key, i: nat)
    requires i < |d| && d[i].0 == k
    requires forall j :: 0 <= j < i ==> d[j].0 != k
    ensures Find(d, k) == i
    decreases i
  {
    if i > 0 {
      FindFirst(d[1..], k, i - 1);
    }
  }

  lemma {:induction false} FindUpdate(d: seq<(Key, Value)>, i: nat, v: Value, k': Key)
    requires i < |d| && d[i].0 != k'
    ensures Find(d[i := (d[i].0, v)], k') == Find(d, k')
    decreases |d|
  {
    if d != [] && d[0].0 != k' && i > 0 {
      assert d[i := (d[i].0, v)][1..] == d[1..][i - 1 := (d[i].0, v)];
      FindUpdate(d[1..], i - 1, v, k');
    }
  }

  lemma {:induction false} FindSnoc(d: seq<(Key, Value)>, k: Key, v: Value)
    requires Find(d, k) == |d|
    ensures Find(d + [(k, v)], k) == |d|
    decreases |d|
  {
    if d != [] {
      assert (d + [(k, v)])[1..] == d[1..] + [(k, v)];
      FindSnoc(d[1..], k, v);
    }
  }

  lemma {:induction false} FindSnocOther(d: seq<(Key, Value)>, k: Key, v: Value, k': Key)
    requires k' != k
    ensures HasKey(d + [(k, v)], k') == HasKey(d, k') && Get(d + [(k, v)], k') == Get(d, k')
    ensures Find(d + [(k, v)], k') == Find(d, k') || (Find(d, k') == |d| && Find(d + [(k, v)], k') == |d| + 1)
    decreases |d|
  {
    if d != [] {
      assert (d + [(k, v)])[1..] == d[1..] + [(k, v)];
      FindSnocOther(d[1..], k, v, k');
    }
  }

  /** remove: the entry of `k` is taken out; the others keep their order. */
  function RemoveKey(d: seq<(Key, Value)>, k: Key): (r: seq<(Key, Value)>)
    ensures !HasKey(d, k) ==> r == d
    ensures HasKey(d, k) ==> |r| == |d| - 1
  {
    var i := Find(d, k);
    if i < |d| then d[..i] + d[i + 1..] else d
  }

  /** The key a value stands for, when it is a String or a Number. */
  function KeyOf(v: Value): Option<Key>
  {
    match v
    case Str(s) => Some(StrKey(s))
    case Num(x) => Some(NumKey(x))
    case _ => None
  }

  /** The value a key was made from. */
  function KeyValue(k: Key): (v: Value)
    ensures KeyOf(v) == Some(k)
  {
    match k
    case StrKey(s) => Str(s)
    case NumKey(x) => Num(x)
  }

  // ----- Conversions -----

  const MinInt: Int32 := -0x8000_0000
  const MaxInt: Int32 := 0x7fff_ffff

  /** The integer part of `x`, rounded toward zero. */
  function Truncate(x: real): int
  {
    if x >= 0.0 then x.Floor else -((-x).Floor)
  }

  /**
   * Number.intValue of a Double: rounded toward zero, then clamped to the int range.
   */
  function NumberIntValue(x: real): (i: Int32)
    ensures x >= 0.0 ==> 0 <= i && i as real <= x && (i < MaxInt ==> x < (i + 1) as real)
    ensures x < 0.0 ==> i <= 0 && x <= i as real && (i > MinInt ==> (i - 1) as real < x)
  {
    var t := Truncate(x);
    if t > MaxInt then MaxInt else if t < MinInt then MinInt else t
  }

  /** String.valueOf: how `+` and `join` render a value. */
  function Show(x: Host, h: Heap, v: Value): string
  {
    match v
    case Null => "null"
    case Bool(b) => if b then "true" else "false"
    case Num(n) => x.numberText(n)
    case Str(s) => s
    case _ => x.objectText(h, v)
  }

  /** getClass().getName() of a non-null value, as the error messages report it. */
  function ClassName(x: Host, v: Value): string
  {
    match v
    case Null => "null"
    case Bool(_) => "java.lang.Boolean"
    case Num(_) => "java.lang.Double"
    case Str(_) => "java.lang.String"
    case List(_) => "java.util.ArrayList"
    case Dict(_) => "java.util.HashMap"
    case _ => x.lambdaClass(v)
  }

  /** The message text of the error messages that name a value's class: "null" for null. */
  function ClassText(x: Host, v: Value): string
  {
    if v == Null then "null" else ClassName(x, v)
  }
}
