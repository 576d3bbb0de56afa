/** Small facts about integer and real multiplication that the solver does not find unaided. */
module Arithmetic {

  lemma MulNonneg(p: int, q: int)
    requires p >= 0 && q >= 0
    ensures p * q >= 0
  {}

  lemma MulLe(x: int, y: int, b: int)
    requires x <= y && b >= 0
    ensures x * b <= y * b
  {
    MulNonneg(y - x, b);
    assert (y - x) * b == y * b - x * b;
  }

  /** Distinct multiples of a positive `b` lie at least `b` apart. */
  lemma StepApart(x: int, y: int, b: int)
    requires x < y && b > 0
    ensures x * b + b <= y * b
  {
    MulLe(x + 1, y, b);
  }

  lemma CastMul(p: int, q: int)
    ensures (p * q) as real == p as real * q as real
  {}

  lemma DivMul(a: real, b: real)
    requires b > 0.0
    ensures (a / b) * b == a
  {}

  lemma FloorBetween(x: real, k: int)
    requires k as real <= x < k as real + 1.0
    ensures x.Floor == k
  {}

  lemma RealCancel(u: real, v: real, w: real)
    requires w > 0.0 && u * w <= v * w
    ensures u <= v
  {}

  lemma RealCancelLt(u: real, v: real, w: real)
    requires w > 0.0 && u * w < v * w
    ensures u < v
  {}

  /** A common positive factor cancels from a quotient (`pk` is `p * k`). */
  lemma QuotientCancel(m: int, p: int, k: int, pk: int)
    requires p > 0 && k > 0 && pk == p * k
    ensures (m * k) as real / pk as real == m as real / p as real
  {
    CastMul(m, k);
    CastMul(p, k);
    var x := m as real / p as real;
    DivMul(m as real, p as real);
    assert (m * k) as real == x * pk as real;
  }

  /** Multiplying a quotient by its own denominator times `k` leaves the numerator times `k`. */
  lemma QuotientTimes(m: int, p: int, k: int, pk: int)
    requires p > 0 && k > 0 && pk == p * k
    ensures (m as real / p as real) * pk as real == (m * k) as real
  {
    CastMul(m, k);
    CastMul(p, k);
    DivMul(m as real, p as real);
  }

  /** Multiplying a quotient by part of its denominator leaves a quotient by the rest. */
  lemma QuotientShrink(m: int, p: int, k: int, pk: int)
    requires p > 0 && k > 0 && pk == p * k
    ensures (m as real / pk as real) * k as real == m as real / p as real
  {
    CastMul(p, k);
    var x := m as real / pk as real;
    DivMul(m as real, pk as real);
    assert x * k as real * p as real == m as real;
    var y := x * k as real;
    assert y * p as real == m as real;
    DivMul(m as real, p as real);
    RealCancel(y, m as real / p as real, p as real);
    RealCancel(m as real / p as real, y, p as real);
  }

  /** Scaling by `p` and then by `q` is scaling by their product, also after the cast to `real`. */
  lemma ScaleTwice(m: int, p: int, q: int, r: int)
    requires r == p * q
    ensures (m * r) as real == (m * p) as real * q as real
  {
    assert m * r == (m * p) * q;
    CastMul(m * p, q);
  }

  /**
   * Truncating by `b` and then by `c` stays within the bounds of truncating
   * by `b * c` at once.
   */
  lemma NestedBounds(a: int, b: int, c: int, x: int, y: int)
    requires b > 0 && c > 0 && x >= 0 && y >= 0
    requires x * b <= a < x * b + b
    requires y * c <= x < y * c + c
    ensures y * (b * c) <= a < y * (b * c) + b * c
  {
    MulLe(y * c, x, b);
    MulLe(x + 1, y * c + c, b);
    assert (x + 1) * b == x * b + b;
    assert (y * c) * b == y * (b * c);
    assert (y * c + c) * b == y * (b * c) + b * c;
  }

  /** A quotient by `p`, scaled by `p * k`, is the numerator scaled by `k`. */
  lemma GrowQuotient(m: int, p: int, k: int, pk: int, whole: real, part: real)
    requires p > 0 && k > 0 && pk == p * k
    requires whole == m as real / p as real
    requires part == (m * k) as real
    ensures part == whole * pk as real
  {
    QuotientTimes(m, p, k, pk);
  }
}
