/**
 * JavaScript's `<` on strings: lexicographic comparison, element by element,
 * where a proper prefix is smaller than the longer string.
 *
 * Dafny's own `<` on sequences means "proper prefix", so the order is defined
 * here. Characters are compared by their Dafny code point; JavaScript compares
 * UTF-16 code units, and the two agree on every string without characters
 * outside the Basic Multilingual Plane (ISO dates in particular).
 */
module LexOrder {

  /** `a < b` on JavaScript strings. */
  predicate Less(a: string, b: string)
  {
    if |a| == 0 then |b| > 0
    else if |b| == 0 then false
    else if a[0] != b[0] then a[0] < b[0]
    else Less(a[1..], b[1..])
  }

  /** `!(b < a)`, i.e. `a <= b` on JavaScript strings. */
  predicate AtMost(a: string, b: string)
  {
    !Less(b, a)
  }

  lemma {:induction false} LessIrreflexive(a: string)
    ensures !Less(a, a)
  {
    if |a| > 0 {
      LessIrreflexive(a[1..]);
    }
  }

  lemma {:induction false} LessAsymmetric(a: string, b: string)
    ensures Less(a, b) ==> !Less(b, a)
  {
    if |a| > 0 && |b| > 0 && a[0] == b[0] {
      LessAsymmetric(a[1..], b[1..]);
    }
  }

  lemma {:induction false} LessTransitive(a: string, b: string, c: string)
    requires Less(a, b) && Less(b, c)
    ensures Less(a, c)
  {
    if |a| > 0 && a[0] == b[0] && b[0] == c[0] {
      LessTransitive(a[1..], b[1..], c[1..]);
    }
  }

  /** Any two strings are equal or ordered one way or the other. */
  lemma {:induction false} LessTotal(a: string, b: string)
    ensures a == b || Less(a, b) || Less(b, a)
  {
    if |a| > 0 && |b| > 0 && a[0] == b[0] {
      LessTotal(a[1..], b[1..]);
      if a[1..] == b[1..] {
        assert a == [a[0]] + a[1..] && b == [b[0]] + b[1..];
      }
    }
  }

  /** `AtMost` is the reflexive closure of `Less`. */
  lemma AtMostIsLessOrEqual(a: string, b: string)
    ensures AtMost(a, b) <==> a == b || Less(a, b)
  {
    LessTotal(a, b);
    LessAsymmetric(a, b);
    if a == b {
      LessIrreflexive(a);
    }
  }

  /** A proper prefix is smaller. */
  lemma {:induction false} PrefixIsLess(a: string, b: string)
    requires |a| < |b| && a == b[..|a|]
    ensures Less(a, b)
  {
    if |a| > 0 {
      PrefixIsLess(a[1..], b[1..]);
    }
  }

  /**
   * Comparing two strings that start with equally long prefixes compares the
   * prefixes first and the rest only when the prefixes are equal.
   */
  lemma {:induction false} LessConcat(p: string, s: string, q: string, t: string)
    requires |p| == |q|
    ensures Less(p + s, q + t) <==> Less(p, q) || (p == q && Less(s, t))
  {
    if |p| > 0 {
      assert (p + s)[1..] == p[1..] + s;
      assert (q + t)[1..] == q[1..] + t;
      LessConcat(p[1..], s, q[1..], t);
      if p[0] == q[0] && p[1..] == q[1..] {
        assert p == [p[0]] + p[1..] && q == [q[0]] + q[1..];
      }
    } else {
      assert p + s == s && q + t == t;
    }
  }
}
