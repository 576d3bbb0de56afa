/**
 * The part of `java.math.BigDecimal` that the coin helpers rely on: a decimal
 * is an unbounded unscaled integer with a scale, worth `unscaled × 10^-scale`.
 * Every operation is stated against the exact rational value `Value(d)`.
 */
module BigDecimals {
  import opened JavaLong
  import opened Arithmetic

  datatype Decimal = Decimal(unscaled: int, scale: int)

  /** The three `RoundingMode`s the helpers use. */
  datatype RoundingMode = Up | Down | HalfUp

  function Abs(x: int): (r: nat) {
    if x < 0 then -x else x
  }

  function Pow10(n: nat): (r: nat)
    ensures r >= 1
  {
    if n == 0 then 1 else 10 * Pow10(n - 1)
  }

  lemma {:induction false} Pow10Add(a: nat, b: nat)
    ensures Pow10(a + b) == Pow10(a) * Pow10(b)
  {
    if a > 0 {
      Pow10Add(a - 1, b);
      calc {
        Pow10(a + b);
        10 * Pow10(a - 1 + b);
        10 * (Pow10(a - 1) * Pow10(b));
        (10 * Pow10(a - 1)) * Pow10(b);
      }
    }
  }

  lemma {:induction false} Pow10Split(a: nat, b: nat, c: nat)
    requires c == a + b
    ensures Pow10(c) == Pow10(a) * Pow10(b)
  {
    Pow10Add(a, b);
  }

  /** The exact value a decimal denotes. */
  function Value(d: Decimal): (v: real) {
    if d.scale >= 0 then d.unscaled as real / Pow10(d.scale) as real
    else (d.unscaled * Pow10(-d.scale)) as real
  }

  /** Truncation of a real toward zero. */
  function TruncReal(x: real): (r: int)
    ensures x >= 0.0 ==> r as real <= x < r as real + 1.0
    ensures x < 0.0 ==> r as real - 1.0 < x <= r as real
  {
    if x >= 0.0 then x.Floor else -((-x).Floor)
  }

  /**
   * `a / b` for `a >= 0`, `b > 0`, rounded to an integer the way `mode` says:
   * DOWN truncates, UP rounds any remainder up, HALF_UP rounds to the nearest
   * integer with ties going up.
   */
  function RoundMagnitude(a: nat, b: int, mode: RoundingMode): (q: nat)
    requires b > 0
    ensures mode == Down ==> q * b <= a < q * b + b
    ensures mode == Up ==> a <= q * b < a + b
    ensures mode == HalfUp ==> 2 * a - b < 2 * (q * b) <= 2 * a + b
  {
    var m := a / b;
    var rem := a % b;
    assert a == m * b + rem;
    assert (m + 1) * b == m * b + b;
    assert 2 * (m + 1) * b == 2 * (m * b) + 2 * b;
    assert 2 * m * b == 2 * (m * b);
    match mode
    case Down => m
    case Up => if rem == 0 then m else m + 1
    case HalfUp => if 2 * rem >= b then m + 1 else m
  }

  /**
   * `a / b` with `b > 0` rounded to an integer the way `mode` says, on the
   * magnitude, with the sign of `a`: DOWN truncates toward zero, UP rounds
   * away from zero, HALF_UP rounds to the nearest integer with ties away
   * from zero.
   */
  function DivRound(a: int, b: int, mode: RoundingMode): (q: int)
    requires b > 0
    ensures a > 0 ==> q >= 0
    ensures a < 0 ==> q <= 0
    ensures mode == Down ==> Abs(q) * b <= Abs(a) < Abs(q) * b + b
    ensures mode == Up ==> Abs(a) <= Abs(q) * b < Abs(a) + b
    ensures mode == HalfUp ==> 2 * Abs(a) - b < 2 * (Abs(q) * b) <= 2 * Abs(a) + b
  {
    var mag: int := RoundMagnitude(Abs(a), b, mode);
    if a < 0 then -mag else mag
  }

  /** The quotient of a truncating division is the only integer inside the DOWN bounds. */
  lemma {:induction false} DivDownUnique(a: int, b: int, q: int)
    requires b > 0
    requires a > 0 ==> q >= 0
    requires a < 0 ==> q <= 0
    requires Abs(q) * b <= Abs(a) < Abs(q) * b + b
    ensures q == DivRound(a, b, Down)
  {
    DivRoundUnique(a, b, Down, q);
  }

  /** The bounds `mode` puts on the magnitude `q` of the quotient `a / b`. */
  predicate InModeBounds(a: int, b: int, mode: RoundingMode, q: int) {
    match mode
    case Down => q * b <= a < q * b + b
    case Up => a <= q * b < a + b
    case HalfUp => 2 * a - b < 2 * (q * b) <= 2 * a + b
  }

  /** Under every rounding mode, at most one magnitude lies inside the mode's bounds. */
  lemma {:induction false} MagnitudeUnique(a: nat, b: int, mode: RoundingMode, x: nat, y: nat)
    requires b > 0
    requires InModeBounds(a, b, mode, x)
    requires InModeBounds(a, b, mode, y)
    ensures x == y
  {
    if x < y {
      StepApart(x, y, b);
    } else if y < x {
      StepApart(y, x, b);
    }
  }

  /**
   * The bounds define the rounding: a quotient with the dividend's sign whose
   * magnitude lies inside the mode's bounds is the one `DivRound` returns.
   */
  lemma {:induction false} DivRoundUnique(a: int, b: int, mode: RoundingMode, q: int)
    requires b > 0
    requires a > 0 ==> q >= 0
    requires a < 0 ==> q <= 0
    requires InModeBounds(Abs(a), b, mode, Abs(q))
    ensures q == DivRound(a, b, mode)
  {
    var p := DivRound(a, b, mode);
    assert InModeBounds(Abs(a), b, mode, Abs(p));
    MagnitudeUnique(Abs(a), b, mode, Abs(q), Abs(p));
  }

  /** Truncating twice is truncating once by the product of the divisors. */
  lemma {:induction false} DivDownNested(a: int, b: int, c: int, bc: int)
    requires b > 0 && c > 0 && bc == b * c
    ensures DivRound(DivRound(a, b, Down), c, Down) == DivRound(a, bc, Down)
  {
    var q1 := DivRound(a, b, Down);
    var q2 := DivRound(q1, c, Down);
    NestedBounds(Abs(a), b, c, Abs(q1), Abs(q2));
    DivDownUnique(a, bc, q2);
  }

  /** Truncating integer division agrees with truncating the exact quotient. */
  lemma {:induction false} DivDownIsTruncReal(a: int, b: int)
    requires b > 0
    ensures DivRound(a, b, Down) == TruncReal(a as real / b as real)
  {
    var k := Abs(DivRound(a, b, Down));
    FloorOfQuotient(Abs(a), b, k);
    if a < 0 {
      assert -(a as real / b as real) == Abs(a) as real / b as real;
    }
  }

  lemma {:induction false} FloorOfQuotient(a: nat, b: int, k: nat)
    requires b > 0
    requires k * b <= a < k * b + b
    ensures (a as real / b as real).Floor == k
  {
    var br, ar := b as real, a as real;
    var x := ar / br;
    DivMul(ar, br);
    CastMul(k, b);
    CastMul(k + 1, b);
    assert (k + 1) * b == k * b + b;
    RealCancel(k as real, x, br);
    RealCancelLt(x, (k + 1) as real, br);
    FloorBetween(x, k);
  }

  /** `new BigDecimal(long)`: scale 0. */
  function FromLong(v: Long): (r: Decimal)
    ensures Value(r) == v as real
  {
    Decimal(v, 0)
  }

  /**
   * `setScale(newScale, mode)`: widening the scale is exact; narrowing it
   * divides the unscaled value by a power of ten, rounding as `mode` says.
   */
  function SetScale(d: Decimal, newScale: int, mode: RoundingMode): (r: Decimal)
    ensures r.scale == newScale
    ensures newScale >= d.scale ==> Value(r) == Value(d)
    ensures newScale < d.scale ==>
      r.unscaled == DivRound(d.unscaled, Pow10(d.scale - newScale), mode)
  {
    if newScale >= d.scale then
      var r := Decimal(d.unscaled * Pow10(newScale - d.scale), newScale);
      WidenExact(d, r);
      r
    else
      Decimal(DivRound(d.unscaled, Pow10(d.scale - newScale), mode), newScale)
  }

  lemma {:induction false} WidenExact(d: Decimal, r: Decimal)
    requires r.scale >= d.scale
    requires r.unscaled == d.unscaled * Pow10(r.scale - d.scale)
    ensures Value(r) == Value(d)
  {
    var m, s, n := d.unscaled, d.scale, r.scale;
    assert r == Decimal(m * Pow10(n - s), n);
    if s >= 0 {
      WidenFromFraction(m, s, n);
    } else if n >= 0 {
      WidenFromWhole(m, s, n);
    } else {
      WidenWithinWhole(m, s, n);
    }
  }

  lemma {:induction false} WidenWithinWhole(m: int, s: int, n: int)
    requires s <= n < 0
    ensures Value(Decimal(m * Pow10(n - s), n)) == Value(Decimal(m, s))
  {
    Pow10Split(n - s, -n, -s);
    assert m * Pow10(n - s) * Pow10(-n) == m * Pow10(-s);
  }

  lemma {:induction false} WidenFromFraction(m: int, s: nat, n: nat)
    requires s <= n
    ensures Value(Decimal(m * Pow10(n - s), n)) == Value(Decimal(m, s))
  {
    Pow10Split(s, n - s, n);
    QuotientCancel(m, Pow10(s), Pow10(n - s), Pow10(n));
  }

  lemma {:induction false} WidenFromWhole(m: int, s: int, n: nat)
    requires s < 0
    ensures Value(Decimal(m * Pow10(n - s), n)) == Value(Decimal(m, s))
  {
    var w := m * Pow10(-s);
    Pow10Split(n, -s, n - s);
    assert m * Pow10(n - s) == w * Pow10(n);
    QuotientCancel(w, 1, Pow10(n), Pow10(n));
    assert w as real / 1 as real == w as real;
  }

  /** `x × 10^n`. */
  function TimesPow10(x: real, n: nat): (y: real) {
    x * Pow10(n) as real
  }

  /**
   * `movePointRight(n)`: the decimal with its scale lowered by `n` (worth
   * `Value(d) × 10^n`, by `MoveValue`), re-expressed at scale 0 when the
   * lowered scale would be negative.
   */
  function MovePointRight(d: Decimal, n: nat): (r: Decimal)
    ensures r.scale == if d.scale - n >= 0 then d.scale - n else 0
    ensures Value(r) == Value(Decimal(d.unscaled, d.scale - n))
  {
    var moved := Decimal(d.unscaled, d.scale - n);
    if moved.scale < 0 then SetScale(moved, 0, Down) else moved
  }

  /** Lowering the scale by `n` multiplies the value by 10^n. */
  lemma {:induction false} MoveValue(d: Decimal, n: nat)
    ensures Value(Decimal(d.unscaled, d.scale - n)) == TimesPow10(Value(d), n)
  {
    var m, s := d.unscaled, d.scale;
    if s - n >= 0 {
      ShrinkStep(m, s, n, Value(d), Value(Decimal(m, s - n)));
    } else if s >= 0 {
      GrowStep(m, s, n, Value(d), Value(Decimal(m, s - n)));
    } else {
      WholeStep(m, s, n, Value(d), Value(Decimal(m, s - n)));
    }
  }

  lemma {:induction false} WholeStep(m: int, s: int, n: nat, whole: real, part: real)
    requires s < 0
    requires whole == (m * Pow10(-s)) as real
    requires part == (m * Pow10(-(s - n))) as real
    ensures part == TimesPow10(whole, n)
  {
    Pow10Split(-s, n, -(s - n));
    ScaleTwice(m, Pow10(-s), Pow10(n), Pow10(-(s - n)));
  }

  lemma {:induction false} ShrinkStep(m: int, s: nat, n: nat, whole: real, part: real)
    requires n <= s
    requires whole == m as real / Pow10(s) as real
    requires part == m as real / Pow10(s - n) as real
    ensures part == TimesPow10(whole, n)
  {
    Pow10Split(s - n, n, s);
    QuotientShrink(m, Pow10(s - n), Pow10(n), Pow10(s));
  }

  lemma {:induction false} GrowStep(m: int, s: nat, n: nat, whole: real, part: real)
    requires s < n
    requires whole == m as real / Pow10(s) as real
    requires part == (m * Pow10(-(s - n))) as real
    ensures part == TimesPow10(whole, n)
  {
    var k := Pow10(n - s);
    assert Pow10(-(s - n)) == k;
    Pow10Split(s, n - s, n);
    GrowQuotient(m, Pow10(s), k, Pow10(n), whole, part);
  }

  /** `toBigInteger()`: the value with any fractional part discarded. */
  function ToBigInteger(d: Decimal): (r: int)
    ensures r == TruncReal(Value(d))
  {
    if d.scale <= 0 then
      FloorBetween((d.unscaled * Pow10(-d.scale)) as real, d.unscaled * Pow10(-d.scale));
      d.unscaled * Pow10(-d.scale)
    else
      DivDownIsTruncReal(d.unscaled, Pow10(d.scale));
      DivRound(d.unscaled, Pow10(d.scale), Down)
  }

  /** `longValue()`: the integer part, narrowed to the low-order 64 bits. */
  function LongValue(d: Decimal): (r: Long)
    ensures (TruncReal(Value(d)) - r) % TwoTo64 == 0
    ensures InLongRange(TruncReal(Value(d))) ==> r == TruncReal(Value(d))
  {
    LowBits64(ToBigInteger(d))
  }

  /**
   * Narrowing to a non-negative scale with DOWN and then taking the integer
   * part is the same as taking the integer part directly.
   */
  lemma {:induction false} TruncateThenTruncate(d: Decimal, n: nat)
    requires n < d.scale
    ensures ToBigInteger(SetScale(d, n, Down)) == ToBigInteger(d)
  {
    var m, s := d.unscaled, d.scale;
    var q := DivRound(m, Pow10(s - n), Down);
    assert SetScale(d, n, Down) == Decimal(q, n);
    Pow10Split(s - n, n, s);
    if n == 0 {
      DivDownExact(q, 1);
    } else {
      DivDownNested(m, Pow10(s - n), Pow10(n), Pow10(s));
    }
  }

  /**
   * Moving the point right by `n`, narrowing to scale `n` with DOWN and
   * taking the integer part truncates the moved value toward zero.
   */
  lemma {:induction false} TruncateMoved(d: Decimal, n: nat)
    ensures ToBigInteger(SetScale(MovePointRight(d, n), n, Down))
      == TruncReal(Value(Decimal(d.unscaled, d.scale - n)))
  {
    var moved := MovePointRight(d, n);
    if moved.scale > n {
      TruncateThenTruncate(moved, n);
    }
  }


  /**
   * The same chain stated on the exact value: it truncates `d × 10^n`
   * toward zero, whatever the scale of `d`.
   */
  lemma {:induction false} MoveTruncateDown(d: Decimal, n: nat)
    ensures ToBigInteger(SetScale(MovePointRight(d, n), n, Down))
      == TruncReal(TimesPow10(Value(d), n))
  {
    var k := ToBigInteger(SetScale(MovePointRight(d, n), n, Down));
    var x := Value(Decimal(d.unscaled, d.scale - n));
    assert k == TruncReal(x) by {
      TruncateMoved(d, n);
    }
    MoveValue(d, n);
    TruncOfEqual(k, x, TimesPow10(Value(d), n));
  }

  lemma TruncOfEqual(k: int, x: real, y: real)
    requires k == TruncReal(x) && x == y
    ensures k == TruncReal(y)
  {}

  /** Dividing an exact multiple truncates nothing. */
  lemma {:induction false} DivDownExact(k: int, b: int)
    requires b > 0
    ensures DivRound(k * b, b, Down) == k
  {
    assert Abs(k * b) == Abs(k) * b;
    DivDownUnique(k * b, b, k);
  }
}
