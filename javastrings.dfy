/**
 * The two java.lang.String operations the HTTP server's helpers are built from, for a
 * single-character target: `replace`, and `split` on a separator that is not a regular
 * expression metacharacter.
 */
module JavaStrings {

  /** String.replace(c, r): every occurrence of `c`, left to right, becomes `r`. */
  function Replace(s: string, c: char, r: string): (t: string)
    ensures c !in r ==> c !in t
    ensures forall d :: d in t ==> d in s || d in r
    ensures c !in s ==> t == s
  {
    if s == [] then [] else (if s[0] == c then r else [s[0]]) + Replace(s[1..], c, r)
  }

  /** replace works piece by piece: replacing in a concatenation concatenates the replacements. */
  lemma {:induction false} ReplaceAppend(a: string, b: string, c: char, r: string)
    ensures Replace(a + b, c, r) == Replace(a, c, r) + Replace(b, c, r)
  {
    if a == [] {
      assert a + b == b;
    } else {
      assert (a + b)[0] == a[0];
      assert (a + b)[1..] == a[1..] + b;
      ReplaceAppend(a[1..], b, c, r);
    }
  }

  /**
   * The pieces of `s` between occurrences of `sep`, with nothing removed: always one more
   * piece than there are separators.
   */
  function Pieces(s: string, sep: char): (p: seq<string>)
    ensures |p| >= 1
    ensures forall i :: 0 <= i < |p| ==> sep !in p[i]
  {
    if s == [] then [[]]
    else
      var rest := Pieces(s[1..], sep);
      if s[0] == sep then [[]] + rest else [[s[0]] + rest[0]] + rest[1..]
  }

  /** The pieces joined back with the separator. */
  function Join(p: seq<string>, sep: char): string
  {
    if |p| <= 1 then (if p == [] then [] else p[0]) else p[0] + [sep] + Join(p[1..], sep)
  }

  /** Joining the pieces gives back the string they were cut from. */
  lemma {:induction false} JoinPieces(s: string, sep: char)
    ensures Join(Pieces(s, sep), sep) == s
  {
    if s != [] {
      var rest := Pieces(s[1..], sep);
      JoinPieces(s[1..], sep);
      if s[0] == sep {
        assert ([[]] + rest)[1..] == rest;
        assert s == [] + [sep] + s[1..];
      } else if |rest| == 1 {
        assert s == [s[0]] + rest[0];
      } else {
        var p := [[s[0]] + rest[0]] + rest[1..];
        assert p[1..] == rest[1..];
        assert Join(rest, sep) == rest[0] + [sep] + Join(rest[1..], sep);
      }
    }
  }

  /** The number of leading pieces left once the trailing empty ones are dropped. */
  function Kept(p: seq<string>): (n: nat)
    ensures n <= |p|
    ensures forall i :: n <= i < |p| ==> p[i] == []
    ensures n > 0 ==> p[n - 1] != []
  {
    if p == [] || p[|p| - 1] != [] then |p| else Kept(p[..|p| - 1])
  }

  /**
   * String.split(sep) with limit 0: a string without the separator is returned whole (even
   * the empty string); otherwise the pieces, with trailing empty pieces removed.
   */
  function Split(s: string, sep: char): (p: seq<string>)
    ensures sep !in s ==> p == [s]
    ensures sep in s ==> p == Pieces(s, sep)[..Kept(Pieces(s, sep))]
    ensures forall i :: 0 <= i < |p| ==> sep !in p[i]
  {
    if sep !in s then [s]
    else
      var all := Pieces(s, sep);
      all[..Kept(all)]
  }

  /** A string without the separator is one piece. */
  lemma {:induction false} PiecesWhole(s: string, sep: char)
    requires sep !in s
    ensures Pieces(s, sep) == [s]
  {
    if s != [] {
      PiecesWhole(s[1..], sep);
      assert [s[0]] + s[1..] == s;
    }
  }

  /** Cutting at the first separator: the piece before it, then the pieces of the rest. */
  lemma {:induction false} PiecesCut(a: string, b: string, sep: char)
    requires sep !in a
    ensures Pieces(a + [sep] + b, sep) == [a] + Pieces(b, sep)
  {
    var s := a + [sep] + b;
    if a == [] {
      assert s[0] == sep && s[1..] == b;
    } else {
      assert s[0] == a[0] && s[1..] == a[1..] + [sep] + b;
      PiecesCut(a[1..], b, sep);
      assert [a[0]] + a[1..] == a;
    }
  }

  /** Splitting two pieces joined by the separator gives them back, when the second is not empty. */
  lemma SplitTwo(a: string, b: string, sep: char)
    requires sep !in a && sep !in b && b != []
    ensures Split(a + [sep] + b, sep) == [a, b]
  {
    var s := a + [sep] + b;
    assert s[|a|] == sep;
    PiecesCut(a, b, sep);
    PiecesWhole(b, sep);
    assert Pieces(s, sep) == [a, b];
  }

  /** Splitting drops only empty pieces at the end: the kept ones, joined, begin the string. */
  lemma SplitPrefix(s: string, sep: char)
    ensures Join(Split(s, sep), sep) <= s
  {
    JoinPieces(s, sep);
    if sep in s {
      var all := Pieces(s, sep);
      JoinPrefix(all, Kept(all), sep);
    }
  }

  /** Joining the first n pieces gives a prefix of joining them all. */
  lemma {:induction false} JoinPrefix(p: seq<string>, n: nat, sep: char)
    requires n <= |p|
    ensures Join(p[..n], sep) <= Join(p, sep)
  {
    if n > 0 && |p| > 1 {
      if n == 1 {
        assert p[..1] == [p[0]];
      } else {
        JoinPrefix(p[1..], n - 1, sep);
        assert p[..n][1..] == p[1..][..n - 1];
      }
    }
  }
}
