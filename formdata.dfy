/**
 * parseFormData (main/ModelContextProtocolHttpServer.java): the request body of the HTTP
 * transport turned into a map from names to values. A body whose trimmed text starts with
 * `{` is read as flat JSON (pieces between commas, each cut at colons); any other body as
 * URL-encoded form data (pieces between ampersands, each cut at equals signs). A piece is
 * kept when it cuts into exactly two parts, and a later piece overwrites an earlier one
 * with the same name. The two `substring(1, length - 1)` calls throw on a one-character
 * string; the model returns None for that exception.
 */
module FormData {
  import opened Wrappers
  import opened JavaStrings
  import Builtins

  /** What one piece of the body does to the map: nothing, one put, or an exception. */
  datatype Pair = Skip | Put(key: string, value: string) | Throws

  /**
   * A piece of the JSON branch: cut at colons; the name trimmed and stripped of every
   * double quote, the value trimmed and stripped of one pair of enclosing double quotes.
   */
  function JsonPair(piece: string): (p: Pair)
    ensures p.Put? ==> '"' !in p.key
    ensures p.Throws? <==> |Split(piece, ':')| == 2 && Builtins.Trim(Split(piece, ':')[1]) == "\""
    ensures p.Skip? <==> |Split(piece, ':')| != 2
  {
    var parts := Split(piece, ':');
    if |parts| != 2 then Skip
    else
      var key := Replace(Builtins.Trim(parts[0]), '"', "");
      var value := Builtins.Trim(parts[1]);
      if Builtins.StartsWith(value, "\"") && |value| >= 1 && value[|value| - 1] == '"' then
        if |value| < 2 then
          assert value == "\"";
          Throws
        else
          Put(key, value[1..|value| - 1])
      else
        assert value != "\"";
        Put(key, value)
  }

  /**
   * What a kept JSON piece puts: the trimmed text before the colon without its double
   * quotes, and the trimmed text after it, itself or with one pair of enclosing quotes removed.
   */
  lemma JsonPairParts(piece: string)
    ensures var p := JsonPair(piece);
      var parts := Split(piece, ':');
      p.Put? ==> (|parts| == 2 && p.key == Replace(Builtins.Trim(parts[0]), '"', "") &&
        (p.value == Builtins.Trim(parts[1]) || Builtins.Trim(parts[1]) == "\"" + p.value + "\""))
  {
    var parts := Split(piece, ':');
    if |parts| == 2 {
      var value := Builtins.Trim(parts[1]);
      if Builtins.StartsWith(value, "\"") && |value| >= 2 && value[|value| - 1] == '"' {
        assert value == "\"" + value[1..|value| - 1] + "\"";
      }
    }
  }

  /** A string that begins and ends with a character trim keeps is its own trim. */
  lemma TrimKeeps(s: string)
    requires s != [] && !Builtins.IsTrimmed(s[0]) && !Builtins.IsTrimmed(s[|s| - 1])
    ensures Builtins.Trim(s) == s
  {
    assert Builtins.LeadingSpace(s) == 0;
    assert s[0..] == s;
    assert Builtins.TrailingSpace(s) == 0;
  }

  /** Dropping every double quote from a quoted name that holds none gives back the name. */
  lemma Unquote(k: string)
    requires '"' !in k
    ensures Replace("\"" + k + "\"", '"', "") == k
  {
    ReplaceAppend("\"" + k, "\"", '"', "");
    ReplaceAppend("\"", k, '"', "");
    assert Replace("\"", '"', "") == [];
  }

  /** A piece with one colon whose two sides trim leaves alone: the name unquoted, the value as it is. */
  lemma JsonPairOfSides(name: string, value: string)
    requires ':' !in name && ':' !in value && value != []
    requires Builtins.Trim(name) == name && Builtins.Trim(value) == value
    ensures var p := JsonPair(name + [':'] + value);
      p == if Builtins.StartsWith(value, "\"") && value[|value| - 1] == '"' then
        (if |value| < 2 then Throws else Put(Replace(name, '"', ""), value[1..|value| - 1]))
      else Put(Replace(name, '"', ""), value)
  {
    SplitTwo(name, value, ':');
  }

  /** A name and a string written as a JSON pair are read back as that name and that string. */
  lemma JsonPairQuoted(k: string, v: string)
    requires '"' !in k && ':' !in k && ':' !in v
    ensures JsonPair("\"" + k + "\":\"" + v + "\"") == Put(k, v)
  {
    var name := "\"" + k + "\"";
    var value := "\"" + v + "\"";
    assert "\"" + k + "\":\"" + v + "\"" == name + [':'] + value;
    TrimKeeps(name);
    TrimKeeps(value);
    JsonPairOfSides(name, value);
    Unquote(k);
    assert Builtins.StartsWith(value, "\"");
    assert value[1..|value| - 1] == v;
  }

  /**
   * A name and an unquoted value (a number, say) written as a JSON pair are read back as
   * that name and that text.
   */
  lemma JsonPairBare(k: string, v: string)
    requires '"' !in k && ':' !in k && ':' !in v && v != []
    requires !Builtins.IsTrimmed(v[0]) && !Builtins.IsTrimmed(v[|v| - 1]) && v[0] != '"'
    ensures JsonPair("\"" + k + "\":" + v) == Put(k, v)
  {
    var name := "\"" + k + "\"";
    assert "\"" + k + "\":" + v == name + [':'] + v;
    TrimKeeps(name);
    TrimKeeps(v);
    JsonPairOfSides(name, v);
    Unquote(k);
  }

  /** A piece of the form branch: cut at equals signs, name and value taken as they are. */
  function FormPair(piece: string): (p: Pair)
    ensures !p.Throws?
    ensures p.Put? ==> '=' !in p.key && '=' !in p.value && p.key + "=" + p.value <= piece
    ensures p.Skip? <==> |Split(piece, '=')| != 2
  {
    var parts := Split(piece, '=');
    if |parts| == 2 then
      SplitPrefix(piece, '=');
      assert Join(parts, '=') == parts[0] + "=" + parts[1];
      Put(parts[0], parts[1])
    else Skip
  }

  /** The map the pieces build, put after put; None once a piece throws. */
  function Collect(pairs: seq<Pair>): (r: Option<map<string, string>>)
    ensures r.Some? ==> forall k :: k in r.value ==> exists i :: 0 <= i < |pairs| && pairs[i] == Put(k, r.value[k])
  {
    if pairs == [] then Some(map[])
    else
      match Collect(pairs[..|pairs| - 1])
      case None => None
      case Some(m) =>
        var last := pairs[|pairs| - 1];
        if last.Throws? then None
        else if last.Put? then
          var m' := m[last.key := last.value];
          assert forall k :: k in m && k != last.key ==> m'[k] == m[k];
          Some(m')
        else Some(m)
  }

  /** The pieces of the JSON branch of a trimmed body, between its first and last character. */
  function JsonPairs(trimmed: string): (p: seq<Pair>)
    requires |trimmed| >= 2
  {
    var pieces := Split(trimmed[1..|trimmed| - 1], ',');
    seq(|pieces|, i requires 0 <= i < |pieces| => JsonPair(pieces[i]))
  }

  /** The pieces of the form branch. */
  function FormPairs(body: string): (p: seq<Pair>)
  {
    var pieces := Split(body, '&');
    seq(|pieces|, i requires 0 <= i < |pieces| => FormPair(pieces[i]))
  }

  /** parseFormData; a null or empty body gives the empty map, and only the JSON branch can throw. */
  function ParsedForm(body: Option<string>): (r: Option<map<string, string>>)
    ensures body.None? || body == Some("") ==> r == Some(map[])
    ensures r.None? ==> body.Some? && Builtins.StartsWith(Builtins.Trim(body.value), "{")
  {
    if body.None? || body.value == "" then Some(map[])
    else
      var trimmed := Builtins.Trim(body.value);
      if Builtins.StartsWith(trimmed, "{") then
        if |trimmed| < 2 then None else Collect(JsonPairs(trimmed))
      else
        var r := Collect(FormPairs(body.value));
        NeverThrows(FormPairs(body.value));
        r
  }

  /** Pieces none of which throws always build a map. */
  lemma {:induction false} NeverThrows(pairs: seq<Pair>)
    requires forall i :: 0 <= i < |pairs| ==> !pairs[i].Throws?
    ensures Collect(pairs).Some?
  {
    if pairs != [] {
      NeverThrows(pairs[..|pairs| - 1]);
    }
  }

  /** The map is missing exactly when some piece throws. */
  lemma {:induction false} ThrowsSomewhere(pairs: seq<Pair>)
    ensures Collect(pairs).None? <==> exists i :: 0 <= i < |pairs| && pairs[i].Throws?
  {
    if pairs != [] {
      var init := pairs[..|pairs| - 1];
      ThrowsSomewhere(init);
      if exists i :: 0 <= i < |init| && init[i].Throws? {
        var i :| 0 <= i < |init| && init[i].Throws?;
        assert pairs[i].Throws?;
      }
      if exists i :: 0 <= i < |pairs| && pairs[i].Throws? {
        var i :| 0 <= i < |pairs| && pairs[i].Throws?;
        if i < |init| {
          assert init[i].Throws?;
        }
      }
    }
  }

  /** A name is in the map exactly when some piece puts it. */
  lemma {:induction false} PutNames(pairs: seq<Pair>, k: string)
    requires Collect(pairs).Some?
    ensures k in Collect(pairs).value <==> exists i :: 0 <= i < |pairs| && pairs[i].Put? && pairs[i].key == k
  {
    if pairs != [] {
      var init := pairs[..|pairs| - 1];
      PutNames(init, k);
      if exists i :: 0 <= i < |init| && init[i].Put? && init[i].key == k {
        var i :| 0 <= i < |init| && init[i].Put? && init[i].key == k;
        assert pairs[i] == init[i];
      }
      if exists i :: 0 <= i < |pairs| && pairs[i].Put? && pairs[i].key == k {
        var i :| 0 <= i < |pairs| && pairs[i].Put? && pairs[i].key == k;
        if i < |init| {
          assert init[i] == pairs[i];
        }
      }
    }
  }

  /** The later piece wins: a name maps to the value of the last piece that puts it. */
  lemma {:induction false} LaterPieceWins(pairs: seq<Pair>, i: nat, k: string, v: string)
    requires Collect(pairs).Some?
    requires i < |pairs| && pairs[i] == Put(k, v)
    requires forall j :: i < j < |pairs| ==> !pairs[j].Put? || pairs[j].key != k
    ensures k in Collect(pairs).value && Collect(pairs).value[k] == v
  {
    var init := pairs[..|pairs| - 1];
    if i < |init| {
      LaterPieceWins(init, i, k, v);
    }
  }

  /** parseFormData's loop: one put per piece that cuts in two, left to right. */
  method Fill(pairs: seq<Pair>) returns (result: Option<map<string, string>>)
    ensures result == Collect(pairs)
  {
    var m: map<string, string> := map[];
    var i := 0;
    while i < |pairs|
      invariant i <= |pairs|
      invariant Collect(pairs[..i]) == Some(m)
    {
      assert pairs[..i + 1][..i] == pairs[..i];
      var pair := pairs[i];
      if pair.Throws? {
        ThrowsSomewhere(pairs[..i + 1]);
        ThrowsSomewhere(pairs);
        assert pairs[..i + 1][i] == pairs[i];
        return None;
      }
      if pair.Put? {
        m := m[pair.key := pair.value];
      }
      i := i + 1;
    }
    assert pairs[..i] == pairs;
    return Some(m);
  }

  /** parseFormData: the branch on the trimmed body, then the loop over its pieces. */
  method ParseFormData(body: Option<string>) returns (result: Option<map<string, string>>)
    ensures result == ParsedForm(body)
  {
    if body.None? || body.value == "" {
      return Some(map[]);
    }
    var trimmed := Builtins.Trim(body.value);
    if Builtins.StartsWith(trimmed, "{") {
      if |trimmed| < 2 {
        return None;
      }
      result := Fill(JsonPairs(trimmed));
    } else {
      result := Fill(FormPairs(body.value));
    }
  }
}
