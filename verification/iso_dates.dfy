/**
 * Session dates are ISO calendar dates (`YYYY-MM-DD`), and both the session
 * list and the date inputs compare them as plain strings. This module shows
 * that for well-formed dates the string order is the calendar order.
 */
module IsoDates {
  import opened Numerals
  import LexOrder

  /** Four year digits, a dash, two month digits, a dash, two day digits. */
  predicate IsIsoDate(s: string)
  {
    && |s| == 10
    && AllDigits(s[..4]) && s[4] == '-'
    && AllDigits(s[5..7]) && s[7] == '-'
    && AllDigits(s[8..])
  }

  function Year(s: string): nat
    requires IsIsoDate(s)
  {
    ValueOf(s[..4])
  }

  function Month(s: string): nat
    requires IsIsoDate(s)
  {
    ValueOf(s[5..7])
  }

  function Day(s: string): nat
    requires IsIsoDate(s)
  {
    ValueOf(s[8..])
  }

  /** `a` is an earlier calendar day than `b`. */
  predicate Before(a: string, b: string)
    requires IsIsoDate(a) && IsIsoDate(b)
  {
    || Year(a) < Year(b)
    || (Year(a) == Year(b) && Month(a) < Month(b))
    || (Year(a) == Year(b) && Month(a) == Month(b) && Day(a) < Day(b))
  }

  /** Two digit strings of one length compare as the numbers they denote. */
  lemma {:induction false} DigitsOrder(a: string, b: string)
    requires |a| == |b| && AllDigits(a) && AllDigits(b)
    ensures LexOrder.Less(a, b) <==> ValueOf(a) < ValueOf(b)
    ensures a == b <==> ValueOf(a) == ValueOf(b)
  {
    if |a| > 0 {
      var n := |a| - 1;
      var a', b' := a[..n], b[..n];
      assert a == a' + [a[n]] && b == b' + [b[n]];
      DigitsOrder(a', b');
      LexOrder.LessConcat(a', [a[n]], b', [b[n]]);
      LexOrder.LessIrreflexive(a');
      assert LexOrder.Less([a[n]], [b[n]]) <==> a[n] < b[n];
      var x, y := ValueOf(a'), ValueOf(b');
      var d, e := DigitValue(a[n]), DigitValue(b[n]);
      assert ValueOf(a) == 10 * x + d && ValueOf(b) == 10 * y + e;
      assert a[n] < b[n] <==> d < e;
      assert a[n] == b[n] <==> d == e;
      if x < y {
        assert 10 * x + d < 10 * y + e;
      } else if y < x {
        assert 10 * y + e < 10 * x + d;
      }
    }
  }

  /** Equal leading characters drop out of the comparison. */
  lemma SameHead(a: string, b: string, k: nat)
    requires k <= |a| && k <= |b| && a[..k] == b[..k]
    ensures LexOrder.Less(a, b) <==> LexOrder.Less(a[k..], b[k..])
  {
    assert a == a[..k] + a[k..] && b == b[..k] + b[k..];
    LexOrder.LessConcat(a[..k], a[k..], b[..k], b[k..]);
    LexOrder.LessIrreflexive(a[..k]);
  }

  /** Strings that start with `k` digits compare by that number first, then by the rest. */
  lemma DigitsThenRest(a: string, b: string, k: nat)
    requires k <= |a| && k <= |b| && AllDigits(a[..k]) && AllDigits(b[..k])
    ensures LexOrder.Less(a, b) <==>
      || ValueOf(a[..k]) < ValueOf(b[..k])
      || (ValueOf(a[..k]) == ValueOf(b[..k]) && LexOrder.Less(a[k..], b[k..]))
  {
    assert a == a[..k] + a[k..] && b == b[..k] + b[k..];
    LexOrder.LessConcat(a[..k], a[k..], b[..k], b[k..]);
    DigitsOrder(a[..k], b[..k]);
  }

  /** For ISO dates, JavaScript's string `<` is the calendar order. */
  lemma StringOrderIsCalendarOrder(a: string, b: string)
    requires IsIsoDate(a) && IsIsoDate(b)
    ensures LexOrder.Less(a, b) <==> Before(a, b)
  {
    // Year, then the dash.
    DigitsThenRest(a, b, 4);
    assert a[4..][..1] == b[4..][..1] == "-";
    SameHead(a[4..], b[4..], 1);
    assert a[4..][1..] == a[5..] && b[4..][1..] == b[5..];
    // Month, then the dash.
    assert a[5..][..2] == a[5..7] && b[5..][..2] == b[5..7];
    DigitsThenRest(a[5..], b[5..], 2);
    assert a[5..][2..] == a[7..] && b[5..][2..] == b[7..];
    assert a[7..][..1] == b[7..][..1] == "-";
    SameHead(a[7..], b[7..], 1);
    assert a[7..][1..] == a[8..] && b[7..][1..] == b[8..];
    // Day.
    DigitsOrder(a[8..], b[8..]);
  }
}
