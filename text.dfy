/**
 * Decimal text of integers, as Java's string concatenation renders an `int`, together with
 * the reading that takes such text back to its value.
 */
module Text {
  import opened Wrappers

  /** Lexer.isDigit: an ASCII decimal digit. */
  predicate IsDigit(c: char) { '0' <= c <= '9' }

  /** A non-empty run of decimal digits. */
  predicate IsDigits(s: string) {
    |s| > 0 && forall k :: 0 <= k < |s| ==> IsDigit(s[k])
  }

  function DigitChar(d: nat): (c: char)
    requires d < 10
    ensures IsDigit(c) && c as int - '0' as int == d
  {
    (d + '0' as int) as char
  }

  /** The shortest decimal text of `n`, without sign or leading zeros. */
  function NatText(n: nat): (s: string)
    ensures IsDigits(s)
    ensures |s| > 1 ==> s[0] != '0'
  {
    if n < 10 then [DigitChar(n)] else NatText(n / 10) + [DigitChar(n % 10)]
  }

  /** Decimal text of an int, with a leading '-' when it is negative. */
  function IntText(i: int): (s: string)
    ensures |s| > 0 && (s[0] == '-' <==> i < 0)
  {
    if i < 0 then "-" + NatText(-i) else NatText(i)
  }

  /** The value of a run of decimal digits, most significant first. */
  function DigitsValue(s: string): int {
    if s == [] then 0 else DigitsValue(s[..|s| - 1]) * 10 + (s[|s| - 1] as int - '0' as int)
  }

  /** Reads an optional '-' followed by digits; anything else is not an integer. */
  function IntValue(s: string): Option<int> {
    if |s| > 0 && s[0] == '-' && IsDigits(s[1..]) then Some(-DigitsValue(s[1..]))
    else if IsDigits(s) then Some(DigitsValue(s))
    else None
  }

  lemma {:induction false} NatTextValue(n: nat)
    ensures DigitsValue(NatText(n)) == n
  {
    if n >= 10 {
      NatTextValue(n / 10);
      var s := NatText(n);
      assert s[..|s| - 1] == NatText(n / 10);
    }
  }

  /** Reading the text of an int gives the int back. */
  lemma IntTextRoundTrip(i: int)
    ensures IntValue(IntText(i)) == Some(i)
  {
    if i < 0 {
      NatTextValue(-i);
      assert IntText(i)[1..] == NatText(-i);
    } else {
      NatTextValue(i);
    }
  }

  /** Distinct ints have distinct texts. */
  lemma IntTextInjective(i: int, j: int)
    ensures IntText(i) == IntText(j) ==> i == j
  {
    IntTextRoundTrip(i);
    IntTextRoundTrip(j);
  }

  /** Number text: a digit, then digits and at most one dot; no sign and no exponent. */
  predicate IsNumberText(t: string)
  {
    |t| > 0 && IsDigit(t[0]) &&
    (forall k :: 0 <= k < |t| ==> IsDigit(t[k]) || t[k] == '.') &&
    (forall i, j :: 0 <= i < j < |t| ==> !(t[i] == '.' && t[j] == '.'))
  }

  /** The index of the first occurrence of `c` in `s`, or |s| when there is none. */
  function IndexOf(s: string, c: char): (i: nat)
    ensures i <= |s| && (i < |s| ==> s[i] == c)
    ensures forall k :: 0 <= k < i ==> s[k] != c
  {
    if s == [] then 0 else if s[0] == c then 0 else 1 + IndexOf(s[1..], c)
  }

  function Pow10(n: nat): (p: nat)
    ensures p >= 1
  {
    if n == 0 then 1 else 10 * Pow10(n - 1)
  }

  /**
   * The exact value of number text: the digits before the dot, plus the digits after it
   * scaled down by their count. Other text is not a number. (The double nearest to this
   * value is what the Java code computes; rounding is not modelled.)
   */
  function DecimalValue(t: string): (r: Option<real>)
    ensures r.Some? <==> IsNumberText(t)
  {
    if !IsNumberText(t) then None
    else
      var d := IndexOf(t, '.');
      if d == |t| then Some(DigitsValue(t) as real)
      else Some(DigitsValue(t[..d]) as real + DigitsValue(t[d + 1..]) as real / Pow10(|t| - d - 1) as real)
  }

  /** Integer text reads back as the integer it renders. */
  lemma DecimalOfNatText(n: nat)
    ensures DecimalValue(NatText(n)) == Some(n as real)
  {
    NatTextValue(n);
    var t := NatText(n);
    assert IsNumberText(t);
    assert IndexOf(t, '.') == |t|;
  }

  lemma DecimalExamples()
    ensures DecimalValue("12.5") == Some(12.5)
    ensures DecimalValue("7.") == Some(7.0)
    ensures DecimalValue("1.2.3") == None
  {
    assert IndexOf("12.5", '.') == 2;
    assert "12.5"[..2] == "12" && "12.5"[3..] == "5";
    assert DigitsValue("12") == 12 by { assert "12"[..1] == "1"; }
    assert IndexOf("7.", '.') == 1;
    assert "7."[..1] == "7" && "7."[2..] == "";
    var t := "1.2.3";
    assert t[1] == '.' && t[3] == '.';
  }
}
