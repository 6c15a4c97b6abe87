/**
 * The two string methods of the search page: `String.prototype.trim` and the
 * capitalisation `s.charAt(0).toUpperCase() + s.slice(1)`.
 */
module Text {

  /**
   * The characters `trim` removes: ECMAScript's WhiteSpace (tab, vertical
   * tab, form feed, no-break space, byte order mark and every space
   * separator of Unicode category Zs) and LineTerminator (line feed, carriage
   * return, line and paragraph separator).
   */
  predicate IsWhite(c: char)
  {
    var n := c as int;
    if n <= 0x20 then (0x09 <= n <= 0x0D) || n == 0x20
    else if n < 0x2000 then n == 0xA0 || n == 0x1680
    else if n <= 0x205F then n <= 0x200A || n == 0x2028 || n == 0x2029 || n == 0x202F || n == 0x205F
    else n == 0x3000 || n == 0xFEFF
  }

  /** Every character is whitespace: `s.trim()` is the falsy empty string. */
  predicate IsBlank(s: string)
  {
    forall k :: 0 <= k < |s| ==> IsWhite(s[k])
  }

  /** The first position at or after `i` that does not hold whitespace. */
  function TrimStartIndex(s: string, i: nat): (j: nat)
    requires i <= |s|
    ensures i <= j <= |s|
    ensures forall k :: i <= k < j ==> IsWhite(s[k])
    ensures j < |s| ==> !IsWhite(s[j])
    decreases |s| - i
  {
    if i < |s| && IsWhite(s[i]) then TrimStartIndex(s, i + 1) else i
  }

  /** The end of `s[lo..j]` once its trailing whitespace is dropped. */
  function TrimEndIndex(s: string, lo: nat, j: nat): (e: nat)
    requires lo <= j <= |s|
    ensures lo <= e <= j
    ensures forall k :: e <= k < j ==> IsWhite(s[k])
    ensures e > lo ==> !IsWhite(s[e - 1])
    decreases j
  {
    if j > lo && IsWhite(s[j - 1]) then TrimEndIndex(s, lo, j - 1) else j
  }

  /**
   * `r` is `s` with whitespace removed from both ends: a slice of `s` that
   * neither starts nor ends with whitespace, with only whitespace around it.
   */
  ghost predicate TrimmedFrom(s: string, r: string)
  {
    && (|r| > 0 ==> !IsWhite(r[0]) && !IsWhite(r[|r| - 1]))
    && exists i :: 0 <= i <= |s| - |r| && Around(s, r, i)
  }

  /** `r` sits at offset `i` of `s` and everything outside it is whitespace. */
  ghost predicate Around(s: string, r: string, i: int)
  {
    && 0 <= i <= |s| - |r|
    && s[i..i + |r|] == r
    && IsBlank(s[..i])
    && IsBlank(s[i + |r|..])
  }

  /** `s.trim()`. */
  function Trim(s: string): (r: string)
    ensures TrimmedFrom(s, r)
  {
    var b := TrimStartIndex(s, 0);
    var e := TrimEndIndex(s, b, |s|);
    AroundSlice(s, b, e);
    s[b..e]
  }

  /** A slice of `s` with only whitespace before and after it sits in `s` that way. */
  lemma AroundSlice(s: string, b: nat, e: nat)
    requires b <= e <= |s|
    requires forall k :: 0 <= k < b ==> IsWhite(s[k])
    requires forall k :: e <= k < |s| ==> IsWhite(s[k])
    ensures Around(s, s[b..e], b)
  {
    assert forall k :: 0 <= k < |s| - e ==> s[e..][k] == s[e + k];
  }

  /** Trimming yields the empty string exactly for blank input. */
  lemma TrimEmptyIffBlank(s: string)
    ensures Trim(s) == [] <==> IsBlank(s)
  {
    var r := Trim(s);
    var i :| 0 <= i <= |s| - |r| && Around(s, r, i);
    if r == [] {
      assert forall k :: 0 <= k < |s| ==> IsWhite(s[k]) by {
        forall k | 0 <= k < |s|
          ensures IsWhite(s[k])
        {
          if k < i {
            assert s[..i][k] == s[k];
          } else {
            assert s[i..][k - i] == s[k];
          }
        }
      }
    } else {
      assert s[i] == r[0];
    }
  }

  /** Trimming an already trimmed string changes nothing. */
  lemma TrimIdempotent(s: string)
    ensures Trim(Trim(s)) == Trim(s)
  {
    var r := Trim(s);
    if |r| > 0 {
      assert TrimStartIndex(r, 0) == 0;
      assert TrimEndIndex(r, 0, |r|) == |r|;
      assert r[0..|r|] == r;
    }
  }

  /** `c.toUpperCase()` on the ASCII letters; every other character is kept. */
  function UpperAscii(c: char): char
  {
    if 'a' <= c <= 'z' then (c as int - 32) as char else c
  }

  /** `c.toLowerCase()` on the ASCII letters; every other character is kept. */
  function LowerAscii(c: char): char
  {
    if 'A' <= c <= 'Z' then (c as int + 32) as char else c
  }

  /**
   * `s.charAt(0).toUpperCase() + s.slice(1)`: on the empty string `charAt(0)`
   * is empty, so the result is empty too.
   */
  function Capitalize(s: string): (r: string)
    ensures |r| == |s|
    ensures forall k :: 1 <= k < |s| ==> r[k] == s[k]
    ensures |r| > 0 ==> !('a' <= r[0] <= 'z')
    ensures |r| > 0 && !('a' <= s[0] <= 'z') ==> r == s
  {
    if |s| == 0 then "" else [UpperAscii(s[0])] + s[1..]
  }

  /** Lower-casing the first character again restores a lower-case word. */
  lemma CapitalizeRoundTrip(s: string)
    requires |s| > 0 && 'a' <= s[0] <= 'z'
    ensures var c := Capitalize(s); [LowerAscii(c[0])] + c[1..] == s
  {
    var c := Capitalize(s);
    assert c[1..] == s[1..];
    assert s == [s[0]] + s[1..];
  }
}
