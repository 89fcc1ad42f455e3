/** Character classes and digit strings shared by the coercion layer and the time parser. */
module Chars {

  /** ASCII decimal digit: what `\d` matches in a pattern compiled without the Unicode flag. */
  predicate IsDigit(c: char) {
    '0' <= c <= '9'
  }

  predicate AllDigits(s: string) {
    forall i :: 0 <= i < |s| ==> IsDigit(s[i])
  }

  /** The characters Python 2.7's `unicode.strip()` and `int()` treat as whitespace. */
  predicate IsWhitespace(c: char) {
    var n := c as int;
    (0x09 <= n <= 0x0D) || (0x1C <= n <= 0x20) || n == 0x85 || n == 0xA0 ||
    n == 0x1680 || n == 0x180E || (0x2000 <= n <= 0x200A) || n == 0x2028 || n == 0x2029 ||
    n == 0x202F || n == 0x205F || n == 0x3000
  }

  predicate AllWhitespace(s: string) {
    forall i :: 0 <= i < |s| ==> IsWhitespace(s[i])
  }

  // ---------------------------------------------------------------------------
  // Digit strings and natural numbers
  // ---------------------------------------------------------------------------

  function DigitValue(c: char): (d: nat)
    requires IsDigit(c)
    ensures d < 10
  {
    (c as int) - ('0' as int)
  }

  function DigitChar(d: nat): (c: char)
    requires d < 10
    ensures IsDigit(c) && DigitValue(c) == d
  {
    (('0' as int) + d) as char
  }

  /** The number a string of decimal digits denotes (most significant digit first). */
  function DigitsValue(s: string): nat
    requires AllDigits(s)
  {
    if s == [] then 0 else 10 * DigitsValue(s[..|s| - 1]) + DigitValue(s[|s| - 1])
  }

  function Pow10(k: nat): (r: nat)
    ensures r >= 1
  {
    if k == 0 then 1 else 10 * Pow10(k - 1)
  }

  /** Shortest decimal rendering of `n`. */
  function ShowNat(n: nat): (s: string)
    ensures |s| >= 1 && AllDigits(s)
  {
    if n < 10 then [DigitChar(n)] else ShowNat(n / 10) + [DigitChar(n % 10)]
  }

  /** Exactly `width` digits of `n`, zero-padded on the left (only the low digits if `n` is wider). */
  function PadNat(n: nat, width: nat): (s: string)
    ensures |s| == width && AllDigits(s)
  {
    if width == 0 then [] else PadNat(n / 10, width - 1) + [DigitChar(n % 10)]
  }

  lemma {:induction false} ShowNatValue(n: nat)
    ensures DigitsValue(ShowNat(n)) == n
  {
    var s := ShowNat(n);
    if n >= 10 {
      assert s[..|s| - 1] == ShowNat(n / 10);
      ShowNatValue(n / 10);
    }
  }

  lemma {:induction false} ShowNatBound(n: nat)
    ensures n < Pow10(|ShowNat(n)|)
  {
    if n >= 10 {
      ShowNatBound(n / 10);
    }
  }

  lemma {:induction false} Pow10Monotone(j: nat, k: nat)
    requires j <= k
    ensures Pow10(j) <= Pow10(k)
  {
    if j < k {
      Pow10Monotone(j, k - 1);
    }
  }

  lemma {:induction false} PadNatValue(n: nat, width: nat)
    requires n < Pow10(width)
    ensures DigitsValue(PadNat(n, width)) == n
  {
    var s := PadNat(n, width);
    if width > 0 {
      assert s[..|s| - 1] == PadNat(n / 10, width - 1);
      PadNatValue(n / 10, width - 1);
    }
  }

  /** A two-digit string is ten times its first digit plus its second. */
  lemma DigitsValueOfTwo(s: string)
    requires |s| == 2 && AllDigits(s)
    ensures DigitsValue(s) == 10 * DigitValue(s[0]) + DigitValue(s[1])
  {
    var first := s[..1];
    assert first[..0] == [] && first[0] == s[0];
    assert DigitsValue(first) == DigitValue(s[0]);
  }

  lemma AllDigitsConcat(a: string, b: string)
    requires AllDigits(a) && AllDigits(b)
    ensures AllDigits(a + b)
  {
  }

  lemma {:induction false} DigitsValueAppend(a: string, b: string)
    requires AllDigits(a) && AllDigits(b)
    ensures AllDigits(a + b)
    ensures DigitsValue(a + b) == DigitsValue(a) * Pow10(|b|) + DigitsValue(b)
  {
    if b == [] {
      assert a + b == a;
    } else {
      var ab, b' := a + b, b[..|b| - 1];
      assert ab[..|ab| - 1] == a + b' && ab[|ab| - 1] == b[|b| - 1];
      DigitsValueAppend(a, b');
      ShiftDigit(DigitsValue(ab), DigitsValue(a + b'), DigitsValue(b), DigitValue(b[|b| - 1]),
                 DigitsValue(a), Pow10(|b'|), DigitsValue(b'), Pow10(|b|));
    }
  }

  /** Appending a digit d multiplies by ten and adds d, on both sides of the equation. */
  lemma ShiftDigit(ab: nat, ab': nat, vb: nat, d: nat, x: nat, p: nat, y: nat, q: nat)
    requires ab == 10 * ab' + d && ab' == x * p + y && vb == 10 * y + d && q == 10 * p
    ensures ab == x * q + vb
  {
    assert 10 * (x * p) == x * (10 * p);
  }

  // ---------------------------------------------------------------------------
  // Python's str.strip()
  // ---------------------------------------------------------------------------

  /** The first position from i on that is not whitespace, or |s| when there is none. */
  function SkipSpace(s: string, i: nat): (n: nat)
    requires i <= |s|
    ensures i <= n <= |s| && forall k :: i <= k < n ==> IsWhitespace(s[k])
    ensures n < |s| ==> !IsWhitespace(s[n])
    decreases |s| - i
  {
    if i < |s| && IsWhitespace(s[i]) then SkipSpace(s, i + 1) else i
  }

  /** Skipping whitespace from i stops at j when only whitespace lies between and s[j] is not whitespace. */
  lemma SkipSpaceTo(s: string, i: nat, j: nat)
    requires i <= j < |s| && !IsWhitespace(s[j])
    requires forall k :: i <= k < j ==> IsWhitespace(s[k])
    ensures SkipSpace(s, i) == j
  {
  }

  /** The position just after the last character before j, from i on, that is not whitespace; i when there is none. */
  function SkipSpaceBack(s: string, i: nat, j: nat): (n: nat)
    requires i <= j <= |s|
    ensures i <= n <= j && forall k :: n <= k < j ==> IsWhitespace(s[k])
    ensures n > i ==> !IsWhitespace(s[n - 1])
    decreases j
  {
    if j > i && IsWhitespace(s[j - 1]) then SkipSpaceBack(s, i, j - 1) else j
  }

  /** Python's `strip()` with no argument: whitespace removed at both ends. */
  function Strip(s: string): (r: string)
    ensures |r| <= |s|
    ensures r == [] || (!IsWhitespace(r[0]) && !IsWhitespace(r[|r| - 1]))
  {
    var i := SkipSpace(s, 0);
    s[i..SkipSpaceBack(s, i, |s|)]
  }

  /** Only whitespace comes before position i and from position j on. */
  predicate SurroundedBy(s: string, i: nat, j: nat) {
    i <= j <= |s| &&
    (forall k :: 0 <= k < i ==> IsWhitespace(s[k])) &&
    (forall k :: j <= k < |s| ==> IsWhitespace(s[k]))
  }

  /** The text from i to j is empty, or neither begins nor ends with whitespace. */
  predicate Tight(s: string, i: nat, j: nat)
    requires i <= j <= |s|
  {
    i == j || (!IsWhitespace(s[i]) && !IsWhitespace(s[j - 1]))
  }

  /** `t` is `s` with a whitespace-only prefix and suffix removed, and nothing more can be removed. */
  ghost predicate IsStripOf(t: string, s: string) {
    exists i: nat, j: nat :: SurroundedBy(s, i, j) && Tight(s, i, j) && t == s[i..j]
  }

  /** Strip removes exactly the surrounding whitespace: it is a strip of `s` ... */
  lemma StripIsStrip(s: string)
    ensures IsStripOf(Strip(s), s)
  {
    var i := SkipSpace(s, 0);
    var j := SkipSpaceBack(s, i, |s|);
    assert SurroundedBy(s, i, j) && Tight(s, i, j);
  }

  /** ... and the only one: any text with only whitespace around it and none at its ends is the strip. */
  lemma StripOfSlice(s: string, i: nat, j: nat)
    requires SurroundedBy(s, i, j) && Tight(s, i, j)
    ensures Strip(s) == s[i..j]
  {
    var i0 := SkipSpace(s, 0);
    if i == j {
      assert forall k :: 0 <= k < |s| ==> IsWhitespace(s[k]);
      assert i0 == |s|;
    } else {
      assert i0 == i;
      assert SkipSpaceBack(s, i, |s|) == j;
    }
  }

  lemma StripUnique(s: string, t: string)
    requires IsStripOf(t, s)
    ensures t == Strip(s)
  {
    var i: nat, j: nat :| SurroundedBy(s, i, j) && Tight(s, i, j) && t == s[i..j];
    StripOfSlice(s, i, j);
  }

  /** A text with no whitespace at either end is its own strip. */
  lemma StripOfTrimmed(s: string)
    requires s == [] || (!IsWhitespace(s[0]) && !IsWhitespace(s[|s| - 1]))
    ensures Strip(s) == s
  {
    assert SurroundedBy(s, 0, |s|) && Tight(s, 0, |s|);
    StripOfSlice(s, 0, |s|);
  }

  /** Stripping twice is the same as stripping once. */
  lemma StripIdempotent(s: string)
    ensures Strip(Strip(s)) == Strip(s)
  {
    var i := SkipSpace(s, 0);
    var j := SkipSpaceBack(s, i, |s|);
    var t := Strip(s);
    if t != [] {
      assert t[0] == s[i] && t[|t| - 1] == s[j - 1];
    }
    StripOfTrimmed(t);
  }
}
