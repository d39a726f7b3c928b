/**
 * escapeJson (main/ModelContextProtocolHttpServer.java) and StringLiteral.escapeJsonString
 * (ast/StringLiteral.java), which have the same body: five `replace` calls, the backslash
 * first. The chain is shown equal to escaping one character at a time, which makes it
 * reversible; characters other than the five, control characters included, are copied
 * unchanged.
 */
module JsonEscape {
  import opened Wrappers
  import opened JavaStrings

  /** The replace chain, a null string giving the empty string. */
  function EscapeJson(s: Option<string>): (t: string)
    ensures s.None? ==> t == ""
    ensures s.Some? ==> t == Escaped(s.value)
  {
    if s.None? then "" else
      EscapedByChar(s.value);
      Replace(Replace(Replace(Replace(Replace(s.value, '\\', "\\\\"), '"', "\\\""), '\n', "\\n"), '\r', "\\r"), '\t', "\\t")
  }

  /** The escape of one character. */
  function EscapeChar(c: char): (t: string)
    ensures c !in "\\\"\n\r\t" <==> t == [c]
    ensures c in "\\\"\n\r\t" ==> |t| == 2 && t[0] == '\\'
  {
    if c == '\\' then "\\\\"
    else if c == '"' then "\\\""
    else if c == '\n' then "\\n"
    else if c == '\r' then "\\r"
    else if c == '\t' then "\\t"
    else [c]
  }

  /** Escaping character by character: the reference the replace chain is compared with. */
  function Escaped(s: string): string
  {
    if s == [] then [] else EscapeChar(s[0]) + Escaped(s[1..])
  }

  /** The chain on one character is that character's escape. */
  lemma ChainOfChar(c: char)
    ensures Replace(Replace(Replace(Replace(Replace([c], '\\', "\\\\"), '"', "\\\""), '\n', "\\n"), '\r', "\\r"), '\t', "\\t") == EscapeChar(c)
  {
    var a1 := Replace([c], '\\', "\\\\");
    assert a1 == if c == '\\' then "\\\\" else [c];
    var a2 := Replace(a1, '"', "\\\"");
    assert a2 == if c == '"' then "\\\"" else a1;
    var a3 := Replace(a2, '\n', "\\n");
    assert a3 == if c == '\n' then "\\n" else a2;
    var a4 := Replace(a3, '\r', "\\r");
    assert a4 == if c == '\r' then "\\r" else a3;
    assert Replace(a4, '\t', "\\t") == if c == '\t' then "\\t" else a4;
  }

  /** The sequential replace chain is the one-pass escape: earlier replacements are not re-escaped by later ones. */
  lemma {:induction false} EscapedByChar(s: string)
    ensures Replace(Replace(Replace(Replace(Replace(s, '\\', "\\\\"), '"', "\\\""), '\n', "\\n"), '\r', "\\r"), '\t', "\\t") == Escaped(s)
  {
    if s != [] {
      var c, rest := s[0], s[1..];
      assert s == [c] + rest;
      ReplaceAppend([c], rest, '\\', "\\\\");
      var a1, b1 := Replace([c], '\\', "\\\\"), Replace(rest, '\\', "\\\\");
      ReplaceAppend(a1, b1, '"', "\\\"");
      var a2, b2 := Replace(a1, '"', "\\\""), Replace(b1, '"', "\\\"");
      ReplaceAppend(a2, b2, '\n', "\\n");
      var a3, b3 := Replace(a2, '\n', "\\n"), Replace(b2, '\n', "\\n");
      ReplaceAppend(a3, b3, '\r', "\\r");
      var a4, b4 := Replace(a3, '\r', "\\r"), Replace(b3, '\r', "\\r");
      ReplaceAppend(a4, b4, '\t', "\\t");
      ChainOfChar(c);
      EscapedByChar(rest);
    }
  }

  /** Reading an escaped string back: a backslash and the letter after it stand for one character. */
  function Unescaped(t: string): (r: Option<string>)
  {
    if t == [] then Some([])
    else if t[0] == '\\' then
      if |t| < 2 then None
      else
        var c := if t[1] == 'n' then '\n' else if t[1] == 'r' then '\r' else if t[1] == 't' then '\t' else t[1];
        if t[1] in "\\\"nrt" then
          (match Unescaped(t[2..]) case Some(rest) => Some([c] + rest) case None => None)
        else None
    else (match Unescaped(t[1..]) case Some(rest) => Some([t[0]] + rest) case None => None)
  }

  /** Escaping loses nothing: the escaped text reads back as the original. */
  lemma {:induction false} UnescapeEscaped(s: string)
    ensures Unescaped(Escaped(s)) == Some(s)
  {
    if s != [] {
      var c, e, rest := s[0], EscapeChar(s[0]), Escaped(s[1..]);
      UnescapeEscaped(s[1..]);
      if |e| == 2 {
        assert (e + rest)[..2] == e && (e + rest)[2..] == rest;
      } else {
        assert (e + rest)[1..] == rest;
      }
      assert s == [c] + s[1..];
    }
  }

  /** Two strings with the same escape are the same string. */
  lemma EscapeInjective(s: string, s': string)
    requires Escaped(s) == Escaped(s')
    ensures s == s'
  {
    UnescapeEscaped(s);
    UnescapeEscaped(s');
  }

  /** The escape holds no raw newline, carriage return or tab. */
  lemma {:induction false} NoRawBreaks(s: string)
    ensures '\n' !in Escaped(s) && '\r' !in Escaped(s) && '\t' !in Escaped(s)
  {
    if s != [] {
      NoRawBreaks(s[1..]);
    }
  }

  /** A string holding none of the five escaped characters is its own escape. */
  lemma {:induction false} EscapeIdentity(s: string)
    requires forall i :: 0 <= i < |s| ==> s[i] !in "\\\"\n\r\t"
    ensures Escaped(s) == s
  {
    if s != [] {
      EscapeIdentity(s[1..]);
    }
  }

  /**
   * Every other control character passes through unescaped, where section 7 of RFC 8259
   * requires each character below U+0020 to be escaped.
   */
  lemma OtherControlPassesThrough(c: char, s: string)
    requires c < ' ' && c !in "\n\r\t"
    ensures EscapeJson(Some([c] + s)) == [c] + EscapeJson(Some(s))
  {
    var t := [c] + s;
    assert t[0] == c && t[1..] == s;
    assert Escaped(t) == EscapeChar(c) + Escaped(s);
  }
}
