/**
 * Decimal rendering of integers, as JavaScript does when a number is placed
 * in a template literal or JSX text (`${n}`, `{results.length}`), and the
 * strict decimal reading that undoes it. JavaScript renders this way only
 * integers below 10^21 in magnitude (larger ones use exponent form, and
 * above 2^53 not every integer is representable); here every integer is.
 */
module Numerals {
  import opened Wrappers

  predicate IsDigit(c: char)
  {
    '0' <= c <= '9'
  }

  predicate AllDigits(s: string)
  {
    forall k :: 0 <= k < |s| ==> IsDigit(s[k])
  }

  function DigitChar(d: nat): (c: char)
    requires d < 10
    ensures IsDigit(c)
  {
    (48 + d) as char
  }

  function DigitValue(c: char): (d: nat)
    requires IsDigit(c)
    ensures d < 10 && DigitChar(d) == c
  {
    (c as int) - 48
  }

  /** A decimal numeral as JavaScript writes one: digits, no leading zero. */
  predicate IsNumeral(d: string)
  {
    |d| >= 1 && AllDigits(d) && (d == "0" || d[0] != '0')
  }

  /** Decimal digits of `n`, most significant first, no leading zero. */
  function NatToString(n: nat): (s: string)
    ensures IsNumeral(s)
    ensures s[0] == '0' ==> n == 0
    ensures n == 0 ==> s == "0"
  {
    if n < 10 then [DigitChar(n)]
    else NatToString(n / 10) + [DigitChar(n % 10)]
  }

  /** The number a string of decimal digits denotes. */
  function ValueOf(s: string): nat
    requires AllDigits(s)
  {
    if |s| == 0 then 0
    else 10 * ValueOf(s[..|s| - 1]) + DigitValue(s[|s| - 1])
  }

  /**
   * JavaScript's rendering of an integral number below 10^21 in magnitude:
   * a minus sign, then digits.
   */
  function IntToString(n: int): (s: string)
    ensures |s| >= 1
    ensures n >= 0 <==> IsDigit(s[0])
    ensures n < 0 ==> s[0] == '-' && s[1..] == NatToString(-n) && s[1] != '0'
  {
    if n < 0 then "-" + NatToString(-n) else NatToString(n)
  }

  /**
   * Strict reading of an optional minus sign followed by a numeral; a leading
   * zero (`0050`) and a negative zero (`-0`) are refused, so only the text
   * `IntToString` writes is accepted.
   */
  function ParseInt(s: string): (r: Option<int>)
    ensures r.Some? ==> |s| >= 1
  {
    if |s| >= 2 && s[0] == '-' && IsNumeral(s[1..]) && s[1] != '0' then
      Some(-(ValueOf(s[1..]) as int))
    else if IsNumeral(s) then Some(ValueOf(s))
    else None
  }

  lemma {:induction false} NatToStringRoundTrip(n: nat)
    ensures ValueOf(NatToString(n)) == n
  {
    if n >= 10 {
      var s := NatToString(n);
      assert s[..|s| - 1] == NatToString(n / 10);
      NatToStringRoundTrip(n / 10);
    }
  }

  /** A digit string reads as its value, with or without a minus sign. */
  lemma ParseDigits(d: string)
    requires IsNumeral(d)
    ensures ParseInt(d) == Some(ValueOf(d))
    ensures d[0] != '0' ==> ParseInt("-" + d) == Some(-(ValueOf(d) as int))
  {
    assert ("-" + d)[1..] == d;
  }

  /** Rendering then reading an integer gives it back. */
  lemma IntToStringRoundTrip(n: int)
    ensures ParseInt(IntToString(n)) == Some(n)
  {
    var m: nat := if n < 0 then -n else n;
    var d := NatToString(m);
    NatToStringRoundTrip(m);
    ParseDigits(d);
  }

  /** A numeral with a non-zero first digit denotes a positive number. */
  lemma {:induction false} LeadingDigitPositive(d: string)
    requires |d| >= 1 && AllDigits(d) && d[0] != '0'
    ensures ValueOf(d) > 0
  {
    if |d| > 1 {
      LeadingDigitPositive(d[..|d| - 1]);
    }
  }

  /** Every numeral is the rendering of the number it denotes. */
  lemma {:induction false} NumeralIsRendering(d: string)
    requires IsNumeral(d)
    ensures NatToString(ValueOf(d)) == d
  {
    var v := ValueOf(d);
    if |d| > 1 {
      var p := d[..|d| - 1];
      var last := DigitValue(d[|d| - 1]);
      LeadingDigitPositive(p);
      NumeralIsRendering(p);
      assert v == 10 * ValueOf(p) + last;
      assert v / 10 == ValueOf(p) && v % 10 == last;
      assert d == p + [DigitChar(last)];
    }
  }

  /** `ParseInt` accepts exactly the renderings: what it reads was written so. */
  lemma ParseIntExact(s: string, n: int)
    requires ParseInt(s) == Some(n)
    ensures IntToString(n) == s
  {
    if |s| >= 2 && s[0] == '-' && IsNumeral(s[1..]) && s[1] != '0' {
      LeadingDigitPositive(s[1..]);
      NumeralIsRendering(s[1..]);
      assert s == "-" + s[1..];
    } else {
      NumeralIsRendering(s);
    }
  }
}
