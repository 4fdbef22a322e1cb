/**
 * Facts about real multiplication and division that the solver does not find on its own.
 * Each product is passed in by name so that a proof never has to expand it.
 */
module RealArith {
  lemma MulNonneg(x: real, y: real)
    requires x >= 0.0 && y >= 0.0
    ensures x * y >= 0.0
  {
  }

  /** Non-negativity for a product the caller has already named. */
  lemma ProductNonneg(x: real, y: real, p: real)
    requires x >= 0.0 && y >= 0.0 && p == x * y
    ensures p >= 0.0
  {
    MulNonneg(x, y);
  }

  lemma MulPositive(x: real, y: real)
    ensures x > 0.0 && y > 0.0 ==> x * y > 0.0
  {
  }

  lemma MulAtMost(x: real, t: real)
    requires x >= 0.0 && 0.0 <= t <= 1.0
    ensures 0.0 <= x * t <= x
  {
    MulNonneg(x, t);
    MulNonneg(x, 1.0 - t);
    assert x * (1.0 - t) == x - x * t;
  }

  /** The same bound, stated for a product the caller has already named. */
  lemma ProductAtMost(x: real, t: real, p: real)
    requires x >= 0.0 && 0.0 <= t <= 1.0 && p == x * t
    ensures 0.0 <= p <= x
  {
    MulAtMost(x, t);
  }

  /** A factor in [lo, 1] scales a non-negative x into [lo x, x]. */
  lemma ProductBetween(lo: real, q: real, x: real, p: real)
    requires 0.0 <= lo <= q <= 1.0 && p == q * x
    ensures x >= 0.0 ==> lo * x <= p <= x
    ensures x > 0.0 && lo > 0.0 ==> p > 0.0
  {
    if x >= 0.0 {
      MulNonneg(q - lo, x);
      MulNonneg(1.0 - q, x);
      assert (q - lo) * x == p - lo * x;
      assert (1.0 - q) * x == x - p;
    }
    MulPositive(lo, x);
  }

  lemma QuotientBounds(n: real, d: real)
    requires d > 0.0
    ensures n <= 0.0 ==> n / d <= 0.0
    ensures n >= d ==> n / d >= 1.0
  {
    var q := n / d;
    assert q * d == n;
    MulPositive(q, d);
    MulPositive(1.0 - q, d);
    assert (1.0 - q) * d == d - n;
  }

  /** Multiplication distributes over a difference of named products. */
  lemma ProductDifference(a: real, b: real, s: real, pa: real, pb: real)
    requires pa == a * s && pb == b * s
    ensures pb - pa == (b - a) * s
  {
  }

  lemma ProductAtLeastFactor(k: real, s: real, p: real)
    requires k >= 1.0 && s > 0.0 && p == k * s
    ensures p >= s
  {
    assert p - s == (k - 1.0) * s;
    MulNonneg(k - 1.0, s);
  }
}
