/**
 * Decimal numerals over ASCII digits: their value, the shortest numeral of a
 * natural number (Python's `str(int)`, Go's `strconv.Itoa`), and the two
 * left-padding operations the migration script uses, `format(n, "03d")`
 * and `str.zfill`.
 */
module Decimal {

  predicate IsDigit(c: char) {
    '0' <= c <= '9'
  }

  predicate AllDigits(s: string) {
    forall i :: 0 <= i < |s| ==> IsDigit(s[i])
  }

  function DigitChar(d: nat): (c: char)
    requires d < 10
    ensures IsDigit(c)
  {
    ['0', '1', '2', '3', '4', '5', '6', '7', '8', '9'][d]
  }

  function DigitValue(c: char): (d: nat)
    requires IsDigit(c)
    ensures d < 10
  {
    c as int - '0' as int
  }

  lemma DigitRoundTrip(d: nat)
    requires d < 10
    ensures DigitValue(DigitChar(d)) == d
  {
  }

  /** The value of a numeral, most significant digit first. */
  function Value(s: string): nat
    requires AllDigits(s)
  {
    if s == [] then 0 else 10 * Value(s[..|s| - 1]) + DigitValue(s[|s| - 1])
  }

  function Pow10(k: nat): (p: nat)
    ensures p >= 1
  {
    if k == 0 then 1 else 10 * Pow10(k - 1)
  }

  /** A numeral of `k` digits is below `10^k`. */
  lemma {:induction false} ValueBound(s: string)
    requires AllDigits(s)
    ensures Value(s) < Pow10(|s|)
    decreases |s|
  {
    if s != [] {
      ValueBound(s[..|s| - 1]);
    }
  }

  /** A numeral without superfluous leading zeros. */
  predicate Canonical(s: string) {
    |s| >= 1 && AllDigits(s) && (s[0] == '0' ==> |s| == 1)
  }

  /** The shortest numeral of `n`. */
  function FromNat(n: nat): (s: string)
    ensures Canonical(s)
    ensures Value(s) == n
    ensures n < 10 <==> |s| == 1
  {
    if n < 10 then
      [DigitChar(n)]
    else
      var init := FromNat(n / 10);
      var s := init + [DigitChar(n % 10)];
      assert s[..|s| - 1] == init;
      s
  }

  /** `k` copies of the character `0`. */
  function Zeros(k: nat): (z: string)
    ensures |z| == k
    ensures AllDigits(z)
    ensures forall i :: 0 <= i < k ==> z[i] == '0'
  {
    if k == 0 then [] else Zeros(k - 1) + ['0']
  }

  /** Shifting a sum by one decimal place. */
  lemma TimesTenStep(x: nat, p: nat, y: nat, d: nat)
    ensures 10 * (x * p + y) + d == x * (10 * p) + (10 * y + d)
  {
  }

  lemma {:induction false} ValueAppend(a: string, b: string)
    requires AllDigits(a) && AllDigits(b)
    ensures AllDigits(a + b)
    ensures Value(a + b) == Value(a) * Pow10(|b|) + Value(b)
    decreases |b|
  {
    var ab := a + b;
    assert AllDigits(ab) by {
      forall i | 0 <= i < |ab| ensures IsDigit(ab[i]) {
        if i < |a| {
          assert ab[i] == a[i];
        } else {
          assert ab[i] == b[i - |a|];
        }
      }
    }
    if b == [] {
      assert ab == a;
    } else {
      var b' := b[..|b| - 1];
      var last := b[|b| - 1];
      assert ab[..|ab| - 1] == a + b';
      assert ab[|ab| - 1] == last;
      ValueAppend(a, b');
      TimesTenStep(Value(a), Pow10(|b'|), Value(b'), DigitValue(last));
    }
  }

  lemma {:induction false} ValueZeros(k: nat)
    ensures Value(Zeros(k)) == 0
  {
    if k > 0 {
      assert Zeros(k)[..k - 1] == Zeros(k - 1);
      ValueZeros(k - 1);
    }
  }

  /** Leading zeros never change the value of a numeral. */
  lemma ValueZeroPrefix(k: nat, s: string)
    requires AllDigits(s)
    ensures AllDigits(Zeros(k) + s)
    ensures Value(Zeros(k) + s) == Value(s)
  {
    ValueAppend(Zeros(k), s);
    ValueZeros(k);
  }

  /** A canonical numeral is the one `FromNat` produces for its value. */
  lemma {:induction false} CanonicalIsFromNat(s: string)
    requires Canonical(s)
    ensures FromNat(Value(s)) == s
    decreases |s|
  {
    if |s| > 1 {
      var init := s[..|s| - 1];
      assert Canonical(init);
      CanonicalIsFromNat(init);
      var v := Value(s);
      assert v / 10 == Value(init) && v % 10 == DigitValue(s[|s| - 1]);
      assert FromNat(v) == FromNat(v / 10) + [DigitChar(v % 10)];
      assert DigitChar(DigitValue(s[|s| - 1])) == s[|s| - 1];
    } else {
      assert s[..0] == [];
      assert Value(s) == DigitValue(s[0]);
      assert s == [DigitChar(Value(s))];
    }
  }

  /** A number below `10^k` has at most `k` digits. */
  lemma {:induction false} FromNatLength(n: nat, k: nat)
    requires k >= 1 && n < Pow10(k)
    ensures |FromNat(n)| <= k
    decreases k
  {
    if n >= 10 {
      var q := n / 10;
      assert n == 10 * q + n % 10;
      assert k >= 2;
      assert q < Pow10(k - 1);
      FromNatLength(q, k - 1);
    }
  }

  /** Python's `format(n, "0<width>d")` for a non-negative `n`. */
  function ZeroPad(n: nat, width: nat): (s: string)
    ensures AllDigits(s)
    ensures |s| == if |FromNat(n)| >= width then |FromNat(n)| else width
    ensures Value(s) == n
  {
    var digits := FromNat(n);
    if |digits| >= width then digits
    else
      ValueZeroPrefix(width - |digits|, digits);
      Zeros(width - |digits|) + digits
  }

  predicate IsSign(c: char) {
    c == '+' || c == '-'
  }

  /**
   * Python's `str.zfill(width)`: pad on the left with `0` up to `width`
   * characters, inserting the zeros after a leading sign.
   */
  function ZFill(s: string, width: nat): string {
    if |s| >= width then s
    else if |s| > 0 && IsSign(s[0]) then [s[0]] + Zeros(width - |s|) + s[1..]
    else Zeros(width - |s|) + s
  }

  /** zfill reaches the width, and removing the zeros it inserted gives back the input. */
  lemma ZFillShape(s: string, width: nat)
    ensures |ZFill(s, width)| == if |s| >= width then |s| else width
    ensures var r := ZFill(s, width); var k := |r| - |s|;
      if k > 0 && |s| > 0 && IsSign(s[0]) then
        r[0] == s[0] && r[1..k + 1] == Zeros(k) && r[k + 1..] == s[1..]
      else
        r[..k] == Zeros(k) && r[k..] == s
  {
  }

  /** zfill of a numeral is a numeral of the same value. */
  lemma ZFillValue(s: string, width: nat)
    requires AllDigits(s)
    ensures AllDigits(ZFill(s, width))
    ensures Value(ZFill(s, width)) == Value(s)
  {
    if |s| < width {
      ValueZeroPrefix(width - |s|, s);
    }
  }

  /**
   * zfill is injective on canonical numerals (the text `str()` gives a
   * pandas integer column): two of them pad to the same code only if equal.
   */
  lemma ZFillInjective(a: string, b: string, width: nat)
    requires Canonical(a) && Canonical(b)
    requires ZFill(a, width) == ZFill(b, width)
    ensures a == b
  {
    ZFillValue(a, width);
    ZFillValue(b, width);
    CanonicalIsFromNat(a);
    CanonicalIsFromNat(b);
  }
}
