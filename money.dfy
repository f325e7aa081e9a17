/** Monetary arithmetic shared by the depreciation engine and the reports.
    Amounts are exact reals; the only rounding the program performs is
    `Math.round(x * 100) / 100`, which rounds to cents, halves upward. */
module Money {

  /** `Math.min` on two amounts. */
  function Min(a: real, b: real): (r: real)
    ensures r <= a && r <= b
    ensures r == a || r == b
  {
    if a <= b then a else b
  }

  /** `Math.min` never reverses the order of its arguments. */
  lemma MinMonotone(a: real, b: real, c: real, d: real)
    requires a <= c && b <= d
    ensures Min(a, b) <= Min(c, d)
  {
  }

  /** An amount with at most two fractional digits, as a DECIMAL(15, 2) column stores it. */
  predicate IsCents(x: real)
  {
    (x * 100.0).Floor as real == x * 100.0
  }

  /** `Math.round(x * 100) / 100`: the nearest cent, a half cent rounding toward +infinity. */
  function Round2(x: real): (r: real)
    ensures IsCents(r)
    ensures x - 0.005 < r <= x + 0.005
  {
    ((x * 100.0 + 0.5).Floor as real) / 100.0
  }

  /** Rounding leaves an amount that is already in cents unchanged. */
  lemma Round2OfCents(x: real)
    requires IsCents(x)
    ensures Round2(x) == x
  {
    var k := (x * 100.0).Floor;
    assert x * 100.0 + 0.5 == k as real + 0.5;
    assert (x * 100.0 + 0.5).Floor == k;
  }

  /** The difference of two cent amounts is a cent amount. */
  lemma CentsDifference(x: real, y: real)
    requires IsCents(x) && IsCents(y)
    ensures IsCents(x - y)
  {
    var i, j := (x * 100.0).Floor, (y * 100.0).Floor;
    assert (x - y) * 100.0 == (i - j) as real;
  }

  /** Rounding twice is rounding once. */
  lemma Round2Idempotent(x: real)
    ensures Round2(Round2(x)) == Round2(x)
  {
    Round2OfCents(Round2(x));
  }

  /** Rounding never reverses the order of two amounts. */
  lemma Round2Monotone(x: real, y: real)
    requires x <= y
    ensures Round2(x) <= Round2(y)
  {
    var a, b := (x * 100.0 + 0.5).Floor, (y * 100.0 + 0.5).Floor;
    assert a as real <= x * 100.0 + 0.5 <= y * 100.0 + 0.5 < b as real + 1.0;
    assert a <= b;
    assert a as real / 100.0 <= b as real / 100.0;
  }

  /** A bound on both sides that are cent amounts survives rounding. */
  lemma Round2Between(lo: real, x: real, hi: real)
    requires IsCents(lo) && IsCents(hi)
    requires lo <= x <= hi
    ensures lo <= Round2(x) <= hi
  {
    Round2Monotone(lo, x);
    Round2Monotone(x, hi);
    Round2OfCents(lo);
    Round2OfCents(hi);
  }
}
