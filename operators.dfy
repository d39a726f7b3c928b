/**
 * util/Evaluator.java: truthiness and the prefix and infix operator tables, with
 * `Object.equals` as the Java collections define it for the `==` and `!=` of non-numbers.
 */
module Operators {
  import opened Wrappers
  import opened Values

  /** isTruthy: null is false, a Boolean is itself, a number is non-zero, a string is non-empty. */
  predicate Truthy(v: Value)
  {
    match v
    case Null => false
    case Bool(b) => b
    case Num(x) => x != 0.0
    case Str(s) => |s| > 0
    case _ => true
  }

  /** Exactly four values are falsy. */
  lemma FalsyValues(v: Value)
    ensures !Truthy(v) <==> v in {Null, Bool(false), Num(0.0), Str("")}
  {
  }

  /** applyPrefixOperator: `-` negates a number, `!` negates truthiness, anything else is null. */
  function ApplyPrefix(op: string, v: Value): (r: Value)
    ensures op == "!" ==> r == Bool(!Truthy(v))
    ensures op == "-" ==> (r.Num? <==> v.Num?) && (r.Num? ==> r.x == -v.x)
    ensures op != "!" && op != "-" ==> r == Null
  {
    if op == "-" then (if v.Num? then Num(-v.x) else Null)
    else if op == "!" then Bool(!Truthy(v))
    else Null
  }

  /** Negation undoes itself on numbers, and double `!` gives the truthiness as a Boolean. */
  lemma {:induction false} PrefixTwice(v: Value)
    ensures v.Num? ==> ApplyPrefix("-", ApplyPrefix("-", v)) == v
    ensures !v.Num? ==> ApplyPrefix("-", v) == Null
    ensures ApplyPrefix("!", ApplyPrefix("!", v)) == Bool(Truthy(v))
  {
  }

  /**
   * Objects.equals of two script values. The same object is equal to itself (the identity
   * test of ArrayList and HashMap); two lists are equal when their elements are pairwise
   * equal, two maps when they have the same keys with equal values; closures and native
   * functions are equal only to themselves. None: the comparison went deeper than `fuel`
   * (Java overflows its stack on a list that contains itself).
   */
  function Equals(h: Heap, a: Value, b: Value, fuel: nat): (r: Option<bool>)
    ensures a == b ==> r == Some(true)
    ensures r.Some? && r.value ==> a.List? == b.List? && a.Dict? == b.Dict? && (a.Str? <==> b.Str?)
    ensures !a.List? && !a.Dict? ==> r == Some(a == b)
    decreases fuel, 1
  {
    if a == b then Some(true)
    else if a.List? && b.List? then
      if fuel == 0 then None else ListEquals(h, ListAt(h, a.list), ListAt(h, b.list), fuel - 1)
    else if a.Dict? && b.Dict? then
      var d, e := DictAt(h, a.dict), DictAt(h, b.dict);
      if |d| != |e| then Some(false)
      else if fuel == 0 then None
      else EntriesIn(h, d, e, fuel - 1)
    else Some(false)
  }

  /** AbstractList.equals on the element sequences. */
  function ListEquals(h: Heap, s: seq<Value>, t: seq<Value>, fuel: nat): (r: Option<bool>)
    ensures r == Some(true) ==> |s| == |t|
    decreases fuel + 1, 0, |s|
  {
    if |s| != |t| then Some(false)
    else if s == [] then Some(true)
    else
      match Equals(h, s[0], t[0], fuel)
      case None => None
      case Some(false) => Some(false)
      case Some(true) => ListEquals(h, s[1..], t[1..], fuel)
  }

  /** AbstractMap.equals after the size test: every entry of `d` is an entry of `e`. */
  function EntriesIn(h: Heap, d: seq<(Key, Value)>, e: seq<(Key, Value)>, fuel: nat): Option<bool>
    decreases fuel + 1, 0, |d|
  {
    if d == [] then Some(true)
    else
      var (k, v) := d[0];
      if !HasKey(e, k) then Some(false)
      else
        match Equals(h, v, Get(e, k), fuel)
        case None => None
        case Some(false) => Some(false)
        case Some(true) => EntriesIn(h, d[1..], e, fuel)
  }

  /** A list is equal to a list with the same references in it, whatever the fuel. */
  lemma {:induction false} ListEqualsSame(h: Heap, s: seq<Value>, fuel: nat)
    ensures ListEquals(h, s, s, fuel) == Some(true)
    decreases |s|
  {
    if s != [] {
      ListEqualsSame(h, s[1..], fuel);
    }
  }

  /** Two lists of different lengths are unequal without looking at any element. */
  lemma {:induction false} ListEqualsLength(h: Heap, a: nat, b: nat, fuel: nat)
    requires |ListAt(h, a)| != |ListAt(h, b)|
    ensures Equals(h, List(a), List(b), fuel) != Some(true)
  {
  }

  /**
   * applyInfixOperator. In order: `+` with a string on either side concatenates the
   * String.valueOf texts; two numbers are added, subtracted, multiplied, divided or compared;
   * `&&` and `||` combine the truthiness of the two already computed operands; `==` and `!=`
   * of anything else use equals; every other combination is null. None: equals ran out of fuel.
   */
  function ApplyInfix(x: Host, h: Heap, left: Value, op: string, right: Value, fuel: nat): (r: Option<Value>)
    ensures op == "+" && (left.Str? || right.Str?) ==> r == Some(Str(Show(x, h, left) + Show(x, h, right)))
    ensures left.Num? && right.Num? && op in {"+", "-", "*", "<", ">", "<=", ">=", "==", "!="} ==> r.Some? && (r.value.Num? <==> op in {"+", "-", "*"})
    ensures left.Num? && right.Num? && op == "+" ==> r == Some(Num(left.x + right.x))
    ensures left.Num? && right.Num? && op == "-" ==> r == Some(Num(left.x - right.x))
    ensures left.Num? && right.Num? && op == "*" ==> r == Some(Num(left.x * right.x))
    ensures left.Num? && right.Num? && op == "/" ==> r == Some(x.divide(left.x, right.x))
    ensures left.Num? && right.Num? && op == "%" ==> r == Some(x.remainder(left.x, right.x))
    ensures left.Num? && right.Num? && op == "<" ==> r == Some(Bool(left.x < right.x))
    ensures left.Num? && right.Num? && op == ">" ==> r == Some(Bool(left.x > right.x))
    ensures left.Num? && right.Num? && op == "<=" ==> r == Some(Bool(left.x <= right.x))
    ensures left.Num? && right.Num? && op == ">=" ==> r == Some(Bool(left.x >= right.x))
    ensures left.Num? && right.Num? && op == "==" ==> r == Some(Bool(left.x == right.x))
    ensures left.Num? && right.Num? && op == "!=" ==> r == Some(Bool(left.x != right.x))
    ensures op in {"&&", "||"} ==> r == Some(Bool(if op == "&&" then Truthy(left) && Truthy(right) else Truthy(left) || Truthy(right)))
    ensures !(left.Num? && right.Num?) && op !in {"+", "&&", "||", "==", "!="} ==> r == Some(Null)
  {
    if op == "+" && (left.Str? || right.Str?) then Some(Str(Show(x, h, left) + Show(x, h, right)))
    else if left.Num? && right.Num? && op in NumberOperators then
      var v := NumberOperator(x, left.x, op, right.x);
      assert op == "*" ==> v == Num(left.x * right.x);
      Some(v)
    else if op == "&&" then Some(Bool(Truthy(left) && Truthy(right)))
    else if op == "||" then Some(Bool(Truthy(left) || Truthy(right)))
    else if op == "==" || op == "!=" then
      match Equals(h, left, right, fuel)
      case None => None
      case Some(eq) => Some(Bool(if op == "==" then eq else !eq))
    else Some(Null)
  }

  const NumberOperators: set<string> := {"+", "-", "*", "/", "%", "<", ">", "<=", ">=", "==", "!="}

  /** The switch on two double operands. */
  function NumberOperator(x: Host, a: real, op: string, b: real): (v: Value)
    requires op in NumberOperators
    ensures (op == "+" ==> v == Num(a + b)) && (op == "-" ==> v == Num(a - b)) && (op == "*" ==> v == Num(a * b))
    ensures (op == "/" ==> v == x.divide(a, b)) && (op == "%" ==> v == x.remainder(a, b))
    ensures (op == "<" ==> v == Bool(a < b)) && (op == ">" ==> v == Bool(a > b))
    ensures (op == "<=" ==> v == Bool(a <= b)) && (op == ">=" ==> v == Bool(a >= b))
    ensures (op == "==" ==> v == Bool(a == b)) && (op == "!=" ==> v == Bool(a != b))
  {
    if op == "+" then Num(a + b)
    else if op == "-" then Num(a - b)
    else if op == "*" then Num(a * b)
    else if op == "/" then x.divide(a, b)
    else if op == "%" then x.remainder(a, b)
    else if op == "<" then Bool(a < b)
    else if op == ">" then Bool(a > b)
    else if op == "<=" then Bool(a <= b)
    else if op == ">=" then Bool(a >= b)
    else if op == "==" then Bool(a == b)
    else Bool(a != b)
  }

  /** `!=` is the negation of `==` on every pair of operands. */
  lemma {:induction false} NotEqualsNegates(x: Host, h: Heap, a: Value, b: Value, fuel: nat)
    ensures ApplyInfix(x, h, a, "==", b, fuel).Some? <==> ApplyInfix(x, h, a, "!=", b, fuel).Some?
    ensures ApplyInfix(x, h, a, "==", b, fuel).Some? ==>
      ApplyInfix(x, h, a, "==", b, fuel).value.Bool? &&
      ApplyInfix(x, h, a, "!=", b, fuel) == Some(Bool(!ApplyInfix(x, h, a, "==", b, fuel).value.b))
  {
  }

  /** On numbers `<` and `>=` are complementary, and `>` is `<` with the operands swapped. */
  lemma {:induction false} NumberComparisons(x: Host, h: Heap, a: real, b: real, fuel: nat)
    ensures ApplyInfix(x, h, Num(a), "<", Num(b), fuel) == Some(Bool(!ApplyInfix(x, h, Num(a), ">=", Num(b), fuel).value.b))
    ensures ApplyInfix(x, h, Num(a), ">", Num(b), fuel) == ApplyInfix(x, h, Num(b), "<", Num(a), fuel)
  {
  }

  /** `&&` and `||` are commutative, because both operands are always computed. */
  lemma {:induction false} LogicCommutes(x: Host, h: Heap, a: Value, b: Value, fuel: nat)
    ensures ApplyInfix(x, h, a, "&&", b, fuel) == ApplyInfix(x, h, b, "&&", a, fuel)
    ensures ApplyInfix(x, h, a, "||", b, fuel) == ApplyInfix(x, h, b, "||", a, fuel)
  {
  }

  /** A list `+` a list, or `<` on Booleans, is null rather than an error. */
  lemma {:induction false} UnsupportedPairsAreNull(x: Host, h: Heap, i: nat, j: nat, p: bool, q: bool, fuel: nat)
    ensures ApplyInfix(x, h, List(i), "+", List(j), fuel) == Some(Null)
    ensures ApplyInfix(x, h, Bool(p), "<", Bool(q), fuel) == Some(Null)
  {
  }
}
