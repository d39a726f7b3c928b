/**
 * The native functions main/Interpreter.java registers in every fresh root context: their
 * names, in registration order, and what applying each one to an argument list does. A
 * native signals misuse by throwing a RuntimeException with a fixed message, which is
 * `HostException` here. Natives whose behaviour is the JDK's (regular expressions, number
 * parsing, console I/O, `assert`) yield `Unsupported`.
 */
module Builtins {
  import opened Wrappers
  import opened Text
  import opened Quota
  import opened Values

  const DefaultNames: seq<string> := ["assert", "echo", "int", "double", "string"]
  const StdIONames: seq<string> := ["gets", "puts"]
  const MapNames: seq<string> := ["keys", "values"]
  const ArrayNames: seq<string> := ["len", "push", "pop", "delete"]
  const StringNames: seq<string> := ["char", "ord", "chr", "substr", "startsWith", "endsWith", "trim", "join"]
  const RegexNames: seq<string> := ["match", "findAll", "replace", "split"]
  const TypeNames: seq<string> :=
    ["typeof", "isNumber", "isString", "isBoolean", "isArray", "isMap", "isFunction", "isNull"]

  /** The names the seven library initializers register, in the order the constructor lists them. */
  function LibraryNames(): seq<string>
  {
    DefaultNames + StdIONames + MapNames + ArrayNames + StringNames + RegexNames + TypeNames
  }

  /** The natives whose behaviour lies outside the model. */
  const ForeignNames: set<string> :=
    {"assert", "int", "double", "string", "gets", "puts", "match", "findAll", "replace", "split"}

  /** A native's RuntimeException, leaving the heap as it was. */
  function Throw(h: Heap, message: string): (r: Result)
    ensures r.heap == h && r.outcome.Failed? && r.outcome.failure.HostException?
  {
    Result(h, Failed(HostException(message)))
  }

  /** ArrayList.remove(index): the later elements shift left by one. */
  function RemoveAt(s: seq<Value>, i: nat): (r: seq<Value>)
    requires i < |s|
    ensures |r| == |s| - 1
    ensures forall j :: 0 <= j < i ==> r[j] == s[j]
    ensures forall j :: i <= j < |r| ==> r[j] == s[j + 1]
  {
    s[..i] + s[i + 1..]
  }

  /** The keys of a map as script values, in the map's entry order. */
  function KeysOf(d: seq<(Key, Value)>): (r: seq<Value>)
    ensures |r| == |d| && forall i :: 0 <= i < |d| ==> KeyOf(r[i]) == Some(d[i].0)
  {
    if d == [] then [] else [KeyValue(d[0].0)] + KeysOf(d[1..])
  }

  /** The values of a map, in the map's entry order. */
  function ValuesOf(d: seq<(Key, Value)>): (r: seq<Value>)
    ensures |r| == |d| && forall i :: 0 <= i < |d| ==> r[i] == d[i].1
  {
    if d == [] then [] else [d[0].1] + ValuesOf(d[1..])
  }

  // ----- Strings -----

  /** The characters String.trim removes: every code point up to the space character. */
  predicate IsTrimmed(c: char) { c <= ' ' }

  /** The number of leading characters String.trim removes. */
  function LeadingSpace(s: string): (n: nat)
    ensures n <= |s| && (forall i :: 0 <= i < n ==> IsTrimmed(s[i])) && (n < |s| ==> !IsTrimmed(s[n]))
  {
    if s == [] || !IsTrimmed(s[0]) then 0 else 1 + LeadingSpace(s[1..])
  }

  /** The number of trailing characters String.trim removes. */
  function TrailingSpace(s: string): (n: nat)
    ensures n <= |s| && (forall i :: |s| - n <= i < |s| ==> IsTrimmed(s[i])) && (n < |s| ==> !IsTrimmed(s[|s| - n - 1]))
  {
    if s == [] || !IsTrimmed(s[|s| - 1]) then 0 else 1 + TrailingSpace(s[..|s| - 1])
  }

  /** String.trim: `s` without its leading and trailing characters up to the space. */
  function Trim(s: string): (r: string)
    ensures r == [] || (!IsTrimmed(r[0]) && !IsTrimmed(r[|r| - 1]))
    ensures exists i, j :: (0 <= i <= j <= |s| && r == s[i..j] &&
      (forall k :: 0 <= k < i ==> IsTrimmed(s[k])) && (forall k :: j <= k < |s| ==> IsTrimmed(s[k])))
  {
    var i := LeadingSpace(s);
    var t := s[i..];
    var j := TrailingSpace(t);
    var e := i + |t| - j;
    assert forall k :: e <= k < |s| ==> s[k] == t[k - i];
    assert 0 <= i <= e <= |s| && (forall k :: 0 <= k < i ==> IsTrimmed(s[k])) && (forall k :: e <= k < |s| ==> IsTrimmed(s[k]));
    s[i..e]
  }

  /** Trimming twice trims nothing more. */
  lemma TrimIdempotent(s: string)
    ensures Trim(Trim(s)) == Trim(s)
  {
    var r := Trim(s);
    if r != [] {
      assert LeadingSpace(r) == 0;
      assert TrailingSpace(r) == 0;
    }
  }

  /** java.lang.String.startsWith. */
  predicate StartsWith(s: string, prefix: string)
  {
    |prefix| <= |s| && s[..|prefix|] == prefix
  }

  /** java.lang.String.endsWith. */
  predicate EndsWith(s: string, suffix: string)
  {
    |suffix| <= |s| && s[|s| - |suffix|..] == suffix
  }

  /** A string starts with a prefix exactly when some continuation completes it. */
  lemma StartsWithConcat(s: string, prefix: string)
    ensures StartsWith(s, prefix) <==> exists rest :: s == prefix + rest
  {
    if StartsWith(s, prefix) {
      assert s == prefix + s[|prefix|..];
    }
  }

  /** A string ends with a suffix exactly when some beginning completes it. */
  lemma EndsWithConcat(s: string, suffix: string)
    ensures EndsWith(s, suffix) <==> exists first :: s == first + suffix
  {
    if EndsWith(s, suffix) {
      assert s == s[..|s| - |suffix|] + suffix;
    }
    if exists first :: s == first + suffix {
      var first :| s == first + suffix;
      assert s[|s| - |suffix|..] == suffix;
    }
  }

  /** A Java int sum, wrapped to 32 bits. */
  function AddInt32(a: Int32, b: Int32): (r: Int32)
    ensures MinInt <= a + b <= MaxInt ==> r == a + b
    ensures a + b > MaxInt ==> r == a + b - 0x1_0000_0000
  {
    var w := (a + b + 0x8000_0000) % 0x1_0000_0000 - 0x8000_0000;
    w
  }

  /**
   * substr exactly as written: `start + length` is an int addition, so a length near
   * Integer.MAX_VALUE wraps the end below the start and `substring` throws.
   */
  function SubstrAsWritten(s: string, start: Int32, length: Int32): (r: Outcome)
    requires |s| <= MaxInt
  {
    if start < 0 then Failed(HostException("Start index cannot be negative"))
    else if length < 0 then Failed(HostException("Length cannot be negative"))
    else if start >= |s| then Normal(Str(""))
    else
      var sum := AddInt32(start, length);
      var end := if sum < |s| then sum else |s|;
      if end < start then
        Failed(HostException("begin " + IntText(start) + ", end " + IntText(end) + ", length " + IntText(|s|)))
      else Normal(Str(s[start..end]))
  }

  /** substr("hello", 1, 2147483647) throws (the end wraps to -2147483648) instead of giving "ello". */
  lemma SubstrOverflowExample()
    ensures SubstrAsWritten("hello", 1, MaxInt) == Failed(HostException("begin 1, end " + IntText(MinInt) + ", length 5"))
    ensures Substr("hello", 1, MaxInt) == Normal(Str("ello"))
  {
    assert AddInt32(1, MaxInt) == MinInt;
    assert IntText(1) == "1" && IntText(5) == "5";
    var end := MinInt;
    assert SubstrAsWritten("hello", 1, MaxInt) == Failed(HostException("begin " + IntText(1) + ", end " + IntText(end) + ", length " + IntText(5)));
    assert "begin " + "1" + ", end " == "begin 1, end ";
    assert ", length " + "5" == ", length 5";
    assert "begin " + "1" + ", end " + IntText(end) + ", length " + "5" == "begin 1, end " + IntText(end) + (", length " + "5");
  }

  /**
   * substr as evidently intended: the characters from `start` up to `start + length`,
   * cut at the end of the string.
   */
  function Substr(s: string, start: Int32, length: Int32): (r: Outcome)
    ensures start >= 0 && length >= 0 ==> r.Normal? && r.value.Str?
    ensures 0 <= start < |s| && length >= 0 ==> r == Normal(Str(s[start..if start + length < |s| then start + length else |s|]))
    ensures start >= 0 && length >= 0 ==> |r.value.s| <= length
    ensures start < 0 ==> r == Failed(HostException("Start index cannot be negative"))
    ensures start >= 0 && length < 0 ==> r == Failed(HostException("Length cannot be negative"))
    ensures start >= |s| && length >= 0 ==> r == Normal(Str(""))
  {
    if start < 0 then Failed(HostException("Start index cannot be negative"))
    else if length < 0 then Failed(HostException("Length cannot be negative"))
    else if start >= |s| then Normal(Str(""))
    else
      var end := if start + length < |s| then start + length else |s|;
      Normal(Str(s[start..end]))
  }

  /** Where the int sum does not wrap, the code as written and the intended substr agree. */
  lemma SubstrAgreesWithoutOverflow(s: string, start: Int32, length: Int32)
    requires |s| <= MaxInt && start + length <= MaxInt
    ensures SubstrAsWritten(s, start, length) == Substr(s, start, length)
  {
  }

  /** join's text: String.valueOf of each element, with the delimiter between neighbours. */
  function JoinText(x: Host, h: Heap, elements: seq<Value>, delimiter: string): string
  {
    if elements == [] then ""
    else if |elements| == 1 then Show(x, h, elements[0])
    else JoinText(x, h, elements[..|elements| - 1], delimiter) + delimiter + Show(x, h, elements[|elements| - 1])
  }

  /** Joining one more element appends the delimiter and that element's text. */
  lemma JoinSnoc(x: Host, h: Heap, a: seq<Value>, v: Value, delimiter: string)
    requires a != []
    ensures JoinText(x, h, a + [v], delimiter) == JoinText(x, h, a, delimiter) + delimiter + Show(x, h, v)
  {
    assert (a + [v])[..|a|] == a;
  }

  /** Joining two non-empty lists is joining each and putting one delimiter between them. */
  lemma {:induction false} JoinConcat(x: Host, h: Heap, a: seq<Value>, b: seq<Value>, delimiter: string)
    requires a != [] && b != []
    ensures JoinText(x, h, a + b, delimiter) == JoinText(x, h, a, delimiter) + delimiter + JoinText(x, h, b, delimiter)
    decreases |b|
  {
    var b', v := b[..|b| - 1], b[|b| - 1];
    assert b == b' + [v];
    if b' == [] {
      JoinSnoc(x, h, a, v, delimiter);
    } else {
      var d, last := delimiter, Show(x, h, v);
      calc {
        JoinText(x, h, a + b, d);
        { assert a + b == (a + b') + [v]; JoinSnoc(x, h, a + b', v, d); }
        JoinText(x, h, a + b', d) + d + last;
        { JoinConcat(x, h, a, b', d); }
        JoinText(x, h, a, d) + d + JoinText(x, h, b', d) + d + last;
        { JoinSnoc(x, h, b', v, d); }
        JoinText(x, h, a, d) + d + JoinText(x, h, b, d);
      }
    }
  }

  /** The StringBuilder loop of join. */
  method Join(x: Host, h: Heap, elements: seq<Value>, delimiter: string) returns (s: string)
    ensures s == JoinText(x, h, elements, delimiter)
  {
    s := "";
    var i := 0;
    while i < |elements|
      invariant 0 <= i <= |elements|
      invariant s == JoinText(x, h, elements[..i], delimiter) + (if 0 < i < |elements| then delimiter else "")
    {
      assert elements[..i + 1][..i] == elements[..i];
      s := s + Show(x, h, elements[i]);
      if i < |elements| - 1 {
        s := s + delimiter;
      }
      i := i + 1;
    }
    assert elements[..i] == elements;
  }

  // ----- Types -----

  /** typeof: the kind of a value as the script names it. */
  function TypeName(v: Value): (t: string)
    ensures t != "object"
  {
    match v
    case Null => "null"
    case Num(_) => "number"
    case Str(_) => "string"
    case Bool(_) => "boolean"
    case List(_) => "array"
    case Dict(_) => "map"
    case _ => "function"
  }

  /** The `is*` tests, by native name. */
  function IsKind(name: string, v: Value): bool
    requires name in {"isNumber", "isString", "isBoolean", "isArray", "isMap", "isFunction", "isNull"}
  {
    match name
    case "isNumber" => v.Num?
    case "isString" => v.Str?
    case "isBoolean" => v.Bool?
    case "isArray" => v.List?
    case "isMap" => v.Dict?
    case "isFunction" => v.Closure? || v.Native?
    case _ => v.Null?
  }

  /** Each `is*` test holds exactly when typeof names the matching kind. */
  lemma {:induction false} IsKindAgreesWithTypeName(v: Value)
    ensures IsKind("isNumber", v) <==> TypeName(v) == "number"
    ensures IsKind("isString", v) <==> TypeName(v) == "string"
    ensures IsKind("isBoolean", v) <==> TypeName(v) == "boolean"
    ensures IsKind("isArray", v) <==> TypeName(v) == "array"
    ensures IsKind("isMap", v) <==> TypeName(v) == "map"
    ensures IsKind("isFunction", v) <==> TypeName(v) == "function"
    ensures IsKind("isNull", v) <==> TypeName(v) == "null"
  {
  }

  /** The character `(char) code` gives: the low 16 bits; None for a lone surrogate. */
  function CharOfCode(code: Int32): (r: Option<char>)
    ensures r.Some? ==> r.value as int == code % 0x1_0000
  {
    var u := code % 0x1_0000;
    if 0xD800 <= u < 0xE000 then None else Some(u as char)
  }

  // ----- Application -----

  /** Applying the native registered under `name` to an argument list. */
  function ApplyNative(x: Host, h: Heap, name: string, args: seq<Value>): (r: Result)
    ensures Grows(h, r.heap)
    ensures name !in {"push", "pop", "delete", "keys", "values"} ==> r.heap == h
  {
    if name in ArrayNames then ApplyArray(h, name, args)
    else if name in MapNames then ApplyMap(h, name, args)
    else if name in StringNames then ApplyString(x, h, name, args)
    else if name == "typeof" then
      if args == [] then Throw(h, "typeof() requires 1 argument") else Result(h, Normal(Str(TypeName(args[0]))))
    else if name in TypeNames then
      if args == [] then Throw(h, name + "() requires 1 argument") else Result(h, Normal(Bool(IsKind(name, args[0]))))
    else if name == "echo" then
      if args == [] then Throw(h, "Index 0 out of bounds for length 0") else Result(h, Normal(args[0]))
    else Result(h, Unsupported(name))
  }

  /** The list natives are picked out by their name list, ahead of the others. */
  lemma ArrayDispatch(x: Host, h: Heap, name: string, args: seq<Value>)
    requires name in ArrayNames
    ensures ApplyNative(x, h, name, args) == ApplyArray(h, name, args)
  {
  }

  /** The map natives are picked out by their name list, ahead of the others. */
  lemma MapDispatch(x: Host, h: Heap, name: string, args: seq<Value>)
    requires name in MapNames
    ensures ApplyNative(x, h, name, args) == ApplyMap(h, name, args)
  {
    assert name == "keys" || name == "values";
  }

  /** len, push, pop and delete. */
  function ApplyArray(h: Heap, name: string, args: seq<Value>): (r: Result)
    requires name in ArrayNames
    ensures Grows(h, r.heap)
    ensures name == "len" ==> r.heap == h
    ensures name == "len" && args != [] ==>
      (r.outcome.Normal? <==> args[0].List? || args[0].Str? || args[0].Dict?) &&
      (args[0].List? ==> r.outcome == Normal(Num(|ListAt(h, args[0].list)| as real))) &&
      (args[0].Str? ==> r.outcome == Normal(Num(|args[0].s| as real))) &&
      (args[0].Dict? ==> r.outcome == Normal(Num(|DictAt(h, args[0].dict)| as real))) &&
      (!r.outcome.Normal? ==> r.outcome == Failed(HostException("len() argument must be an array, string, or map")))
    ensures name == "pop" && args != [] && args[0].List? ==>
      var s := ListAt(h, args[0].list);
      (s == [] ==> r == Result(h, Failed(HostException("Cannot pop from an empty array")))) &&
      (s != [] ==> r.outcome == Normal(s[|s| - 1]) && r.heap == SetList(h, args[0].list, s[..|s| - 1]))
    ensures name == "delete" ==> r == Delete(h, args)
  {
    if name == "len" then
      if args == [] then Throw(h, "len() requires 1 argument")
      else match args[0]
        case List(i) => Result(h, Normal(Num(|ListAt(h, i)| as real)))
        case Str(s) => Result(h, Normal(Num(|s| as real)))
        case Dict(i) => Result(h, Normal(Num(|DictAt(h, i)| as real)))
        case _ => Throw(h, "len() argument must be an array, string, or map")
    else if name == "push" then
      if |args| < 2 then Throw(h, "push() requires 2 arguments")
      else if !args[0].List? then Throw(h, "First argument to push() must be an array")
      else Result(SetList(h, args[0].list, ListAt(h, args[0].list) + [args[1]]), Normal(args[1]))
    else if name == "pop" then
      if args == [] then Throw(h, "pop() requires 1 argument")
      else if !args[0].List? then Throw(h, "Argument to pop() must be an array")
      else
        var s := ListAt(h, args[0].list);
        if s == [] then Throw(h, "Cannot pop from an empty array")
        else Result(SetList(h, args[0].list, s[..|s| - 1]), Normal(s[|s| - 1]))
    else Delete(h, args)
  }

  /** delete: by index from a list, or by key from a map. */
  function Delete(h: Heap, args: seq<Value>): (r: Result)
    ensures Grows(h, r.heap)
  {
    if |args| < 2 then Throw(h, "delete() requires 2 arguments")
    else match args[0]
      case List(i) => ListDelete(h, i, args[1])
      case Dict(i) => MapDelete(h, i, args[1])
      case _ => Throw(h, "First argument to delete() must be an array or map")
  }

  /** delete on list `i`: the element at the truncated index leaves the list and is the result. */
  function ListDelete(h: Heap, i: nat, index: Value): (r: Result)
    ensures Grows(h, r.heap)
    ensures r.outcome.Normal? <==> index.Num? && 0 <= NumberIntValue(index.x) < |ListAt(h, i)|
    ensures r.outcome.Normal? ==> var s, k := ListAt(h, i), NumberIntValue(index.x);
      r.outcome.value == s[k] && r.heap == SetList(h, i, s[..k] + s[k + 1..])
    ensures !index.Num? ==> r == Result(h, Failed(HostException("Second argument to delete() must be a number for arrays")))
    ensures index.Num? && !(0 <= NumberIntValue(index.x) < |ListAt(h, i)|) ==>
      r == Result(h, Failed(HostException("Array index out of bounds: " + IntText(NumberIntValue(index.x)))))
  {
    if !index.Num? then Throw(h, "Second argument to delete() must be a number for arrays")
    else
      var s := ListAt(h, i);
      var k := NumberIntValue(index.x);
      if k < 0 || k >= |s| then Throw(h, "Array index out of bounds: " + IntText(k))
      else Result(SetList(h, i, RemoveAt(s, k)), Normal(s[k]))
  }

  /** delete on map `i`: the key's entry leaves the map and its value is the result; null when absent. */
  function MapDelete(h: Heap, i: nat, key: Value): (r: Result)
    ensures Grows(h, r.heap)
  {
    match KeyOf(key)
    case None => Throw(h, "Second argument to delete() for maps must be a string or number")
    case Some(k) =>
      var d := DictAt(h, i);
      if !HasKey(d, k) then Result(h, Normal(Null))
      else Result(SetDict(h, i, RemoveKey(d, k)), Normal(Get(d, k)))
  }

  /** keys and values: a fresh list of the map's keys or values. */
  function ApplyMap(h: Heap, name: string, args: seq<Value>): (r: Result)
    requires name in MapNames
    ensures Grows(h, r.heap)
  {
    if args == [] then Throw(h, name + "() requires 1 argument")
    else if !args[0].Dict? then Throw(h, "Argument to " + name + "() must be a map")
    else
      var d := DictAt(h, args[0].dict);
      var (h', v) := NewList(h, if name == "keys" then KeysOf(d) else ValuesOf(d));
      Result(h', Normal(v))
  }

  /** char, ord, chr, substr, startsWith, endsWith, trim and join. */
  function ApplyString(x: Host, h: Heap, name: string, args: seq<Value>): (r: Result)
    requires name in StringNames
    ensures r.heap == h
  {
    if name == "char" then
      if |args| < 2 then Throw(h, "char() requires 2 arguments")
      else if !args[0].Str? then Throw(h, "First argument to char() must be a string")
      else if !args[1].Num? then Throw(h, "Second argument to char() must be a number")
      else
        var s, index := args[0].s, NumberIntValue(args[1].x);
        if index < 0 || index >= |s| then Throw(h, "String index out of bounds: " + IntText(index))
        else Result(h, Normal(Str([s[index]])))
    else if name == "ord" then
      if args == [] then Throw(h, "ord() requires 1 argument")
      else if !args[0].Str? then Throw(h, "Argument to ord() must be a string")
      else if |args[0].s| != 1 then Throw(h, "Argument to ord() must be a single character")
      else Result(h, Normal(Num(args[0].s[0] as int as real)))
    else if name == "chr" then
      if args == [] then Throw(h, "chr() requires 1 argument")
      else if !args[0].Num? then Throw(h, "Argument to chr() must be a number")
      else match CharOfCode(NumberIntValue(args[0].x))
        case None => Result(h, Unsupported(name))
        case Some(c) => Result(h, Normal(Str([c])))
    else if name == "substr" then
      if |args| < 3 then Throw(h, "substr() requires 3 arguments")
      else if !args[0].Str? then Throw(h, "First argument to substr() must be a string")
      else if !args[1].Num? then Throw(h, "Second argument to substr() must be a number")
      else if !args[2].Num? then Throw(h, "Third argument to substr() must be a number")
      else if |args[0].s| > MaxInt then Result(h, Unsupported(name))
      else Result(h, SubstrAsWritten(args[0].s, NumberIntValue(args[1].x), NumberIntValue(args[2].x)))
    else if name == "startsWith" || name == "endsWith" then
      if |args| < 2 then Throw(h, name + "() requires 2 arguments")
      else if !args[0].Str? then Throw(h, "First argument to " + name + "() must be a string")
      else if !args[1].Str? then Throw(h, "Second argument to " + name + "() must be a string")
      else Result(h, Normal(Bool(if name == "startsWith" then StartsWith(args[0].s, args[1].s) else EndsWith(args[0].s, args[1].s))))
    else if name == "trim" then
      if args == [] then Throw(h, "trim() requires 1 argument")
      else if !args[0].Str? then Throw(h, "Argument to trim() must be a string")
      else Result(h, Normal(Str(Trim(args[0].s))))
    else
      if |args| < 2 then Throw(h, "join() requires 2 arguments")
      else if !args[0].List? then Throw(h, "First argument to join() must be an array")
      else if !args[1].Str? then Throw(h, "Second argument to join() must be a string")
      else Result(h, Normal(Str(JoinText(x, h, ListAt(h, args[0].list), args[1].s))))
  }

  // ----- Properties of the natives -----

  /** The substr native runs the code as written, so its int overflow reaches the script. */
  lemma SubstrNativeOverflow(x: Host, h: Heap)
    ensures ApplyString(x, h, "substr", [Str("hello"), Num(1.0), Num(2147483647.0)])
      == Result(h, Failed(HostException("begin 1, end " + IntText(MinInt) + ", length 5")))
  {
    assert NumberIntValue(1.0) == 1;
    assert NumberIntValue(2147483647.0) == MaxInt;
    SubstrOverflowExample();
  }

  /** push appends in place and returns the value; pop then takes it back off. */
  lemma {:induction false} PushThenPop(x: Host, h: Heap, i: nat, v: Value)
    requires i < |h.lists|
    ensures ApplyNative(x, h, "push", [List(i), v]) == Result(SetList(h, i, ListAt(h, i) + [v]), Normal(v))
    ensures var p := ApplyNative(x, h, "push", [List(i), v]).heap;
      ApplyNative(x, p, "pop", [List(i)]) == Result(h, Normal(v))
  {
    var p := SetList(h, i, ListAt(h, i) + [v]);
    assert ListAt(p, i) == ListAt(h, i) + [v];
    assert (ListAt(h, i) + [v])[..|ListAt(h, i) + [v]| - 1] == ListAt(h, i);
    assert SetList(p, i, ListAt(h, i)) == h;
  }

  /** push grows the list by one, which len reports; every other list is unchanged. */
  lemma {:induction false} PushGrowsLength(x: Host, h: Heap, i: nat, v: Value)
    requires i < |h.lists|
    ensures var p := ApplyNative(x, h, "push", [List(i), v]).heap;
      ApplyNative(x, p, "len", [List(i)]).outcome == Normal(Num((|ListAt(h, i)| + 1) as real)) &&
      forall j :: j != i ==> ListAt(p, j) == ListAt(h, j)
  {
  }

  /** delete on a list removes exactly the element at the truncated index and returns it. */
  lemma {:induction false} DeleteFromList(x: Host, h: Heap, i: nat, index: Value)
    requires index.Num? && 0 <= NumberIntValue(index.x) < |ListAt(h, i)| && i < |h.lists|
    ensures var k := NumberIntValue(index.x);
      ApplyNative(x, h, "delete", [List(i), index]) ==
        Result(SetList(h, i, ListAt(h, i)[..k] + ListAt(h, i)[k + 1..]), Normal(ListAt(h, i)[k]))
  {
  }

  /** delete on a map: an absent key changes nothing and gives null; a present one is removed. */
  lemma {:induction false} DeleteFromMap(x: Host, h: Heap, i: nat, key: Value)
    requires KeyOf(key).Some?
    ensures var d := DictAt(h, i); var k := KeyOf(key).value;
      ApplyNative(x, h, "delete", [Dict(i), key]) ==
        if HasKey(d, k) then Result(SetDict(h, i, RemoveKey(d, k)), Normal(Get(d, k))) else Result(h, Normal(Null))
  {
  }

  /** ord of the character char picks out is that character's code. */
  lemma {:induction false} OrdOfChar(x: Host, h: Heap, s: string, index: real)
    requires 0 <= NumberIntValue(index) < |s|
    ensures var c := ApplyNative(x, h, "char", [Str(s), Num(index)]);
      c.outcome.Normal? && ApplyNative(x, h, "ord", [c.outcome.value]).outcome == Normal(Num(s[NumberIntValue(index)] as int as real))
  {
    var ch := s[NumberIntValue(index)];
    assert ApplyNative(x, h, "char", [Str(s), Num(index)]) == ApplyString(x, h, "char", [Str(s), Num(index)]);
    assert ApplyString(x, h, "char", [Str(s), Num(index)]).outcome == Normal(Str([ch]));
    assert ApplyNative(x, h, "ord", [Str([ch])]) == ApplyString(x, h, "ord", [Str([ch])]);
  }

  /** chr inverts ord on the characters of the Basic Multilingual Plane. */
  lemma {:induction false} ChrOfOrd(x: Host, h: Heap, c: char)
    requires c as int < 0x1_0000
    ensures ApplyNative(x, h, "chr", [Num(c as int as real)]).outcome == Normal(Str([c]))
  {
    assert NumberIntValue(c as int as real) == c as int;
  }

  /** Every native reports a missing first argument as an exception, never as a script value. */
  lemma {:induction false} NoArgumentsFails(x: Host, h: Heap, name: string)
    requires name in LibraryNames() && name !in ForeignNames
    ensures ApplyNative(x, h, name, []).heap == h
    ensures ApplyNative(x, h, name, []).outcome.Failed?
  {
    assert name == "echo" || name in MapNames || name in ArrayNames || name in StringNames || name in TypeNames;
  }
}
