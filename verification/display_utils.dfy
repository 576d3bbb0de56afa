/**
 * The integer unit conversions of `DisplayUtils`: rounding a satoshi amount
 * to 4 BTC decimals, checking that an input already has at most 4 decimals,
 * scaling a decimal XMR amount to atomic units, and the XMR `reduceTo4Decimals`.
 * Each is written as the same chain of `BigDecimal` calls the helper makes;
 * the lemmas state what the chain amounts to.
 */
module DisplayUtils {
  import opened Wrappers
  import opened JavaLong
  import opened BigDecimals

  /** The class constant `scale`; the BTC helpers keep `scale + 1` decimals. */
  const Scale: int := 3
  /** `XmrCoin.SMALLEST_UNIT_EXPONENT`: one XMR is 10^12 atomic units. */
  const XmrSmallestUnitExponent: nat := 12
  /** 10^(scale + 1) satoshi: one unit in the fourth BTC decimal place. */
  const FourDecimalStep: int := 10000
  /**
   * The largest satoshi magnitude whose 4-decimal rounding still fits in a
   * `long`; from 9223372036854775000 on, the rounded value passes `Long.MAX_VALUE`.
   */
  const MaxRoundable: int := 9223372036854774999

  /** A bitcoinj `Coin`: a `long` number of satoshi. */
  datatype Coin = Coin(value: Long)

  /** An `XmrCoin`: a `long` number of atomic units. */
  datatype XmrCoin = XmrCoin(value: Long)

  const CoinZero: Coin := Coin(0)
  const XmrCoinZero: XmrCoin := XmrCoin(0)

  /**
   * The string parsers the helpers call but that are not part of this model:
   * `ParsingUtils.cleanDoubleInput`, `ParsingUtils.parseToCoin` (with the
   * formatter already applied) and the `BigDecimal(String)` constructor.
   * Each yields `None` where the Java call throws.
   */
  datatype Parsers = Parsers(
    cleanDoubleInput: string -> Option<string>,
    parseToCoin: string -> Option<Coin>,
    newBigDecimal: string -> Option<Decimal>)

  /**
   * `v` rounded to a multiple of 10,000 by the nearest-value rule, ties away
   * from zero: the reference meaning of "4 decimals, last place rounded".
   */
  predicate IsHalfUpStep(r: int, v: int) {
    && r % FourDecimalStep == 0
    && 2 * Abs(r - v) <= FourDecimalStep
    && (2 * Abs(r - v) == FourDecimalStep ==> Abs(r) > Abs(v))
  }

  predicate InRoundableRange(v: int) {
    -MaxRoundable <= v <= MaxRoundable
  }

  lemma Pow10Four()
    ensures Pow10(4) == FourDecimalStep
    ensures Pow10(8) == FourDecimalStep * FourDecimalStep
  {
    assert Pow10(1) == 10;
    assert Pow10(2) == 100;
    assert Pow10(3) == 1000;
    assert Pow10(4) == 10000;
    Pow10Add(4, 4);
  }

  /**
   * The rounding step of `parseToCoinWith4Decimals` on an already parsed
   * satoshi amount: `setScale(-scale - 1, HALF_UP)`, `setScale(scale + 1,
   * HALF_UP)`, `toBigInteger()`, `longValue()`.
   */
  function RoundToFourDecimals(sat: Long): (r: Long)
    ensures InRoundableRange(sat) ==> IsHalfUpStep(r, sat)
  {
    var coarse := SetScale(FromLong(sat), -Scale - 1, HalfUp);
    var widened := SetScale(coarse, Scale + 1, HalfUp);
    RoundingChain(sat);
    LowBits64(ToBigInteger(widened))
  }

  /** The chain is the half-up quotient by 10,000 scaled back up, before narrowing to `long`. */
  lemma {:induction false} RoundingChain(sat: Long)
    ensures var q := DivRound(sat, FourDecimalStep, HalfUp);
      && ToBigInteger(SetScale(SetScale(FromLong(sat), -Scale - 1, HalfUp), Scale + 1, HalfUp))
         == q * FourDecimalStep
      && (InRoundableRange(sat) ==> IsHalfUpStep(q * FourDecimalStep, sat)
                                    && InLongRange(q * FourDecimalStep))
  {
    Pow10Four();
    var q := DivRound(sat, FourDecimalStep, HalfUp);
    var coarse := SetScale(FromLong(sat), -Scale - 1, HalfUp);
    assert coarse == Decimal(q, -4);
    var widened := SetScale(coarse, Scale + 1, HalfUp);
    assert Value(widened) == (q * FourDecimalStep) as real;
    FloorIsSelf(q * FourDecimalStep);
    if InRoundableRange(sat) {
      HalfUpQuotientIsStep(sat, q);
    }
  }

  lemma FloorIsSelf(k: int)
    ensures TruncReal(k as real) == k
  {}

  lemma {:induction false} HalfUpQuotientIsStep(v: int, q: int)
    requires InRoundableRange(v)
    requires v > 0 ==> q >= 0
    requires v < 0 ==> q <= 0
    requires 2 * Abs(v) - FourDecimalStep < 2 * Abs(q) * FourDecimalStep <= 2 * Abs(v) + FourDecimalStep
    ensures IsHalfUpStep(q * FourDecimalStep, v)
    ensures InLongRange(q * FourDecimalStep)
  {
    var r := q * FourDecimalStep;
    assert r % FourDecimalStep == 0;
    assert Abs(r) == Abs(q) * FourDecimalStep;
  }

  /** The nearest-value rule with ties away from zero picks exactly one multiple of 10,000. */
  lemma {:induction false} HalfUpStepUnique(r1: int, r2: int, v: int)
    requires IsHalfUpStep(r1, v) && IsHalfUpStep(r2, v)
    ensures r1 == r2
  {
    var k1, k2 := r1 / FourDecimalStep, r2 / FourDecimalStep;
    assert r1 == k1 * FourDecimalStep;
    assert r2 == k2 * FourDecimalStep;
  }

  /**
   * For every amount whose rounding fits in a `long`, the chain is exactly
   * the nearest-multiple-of-10,000 rounding with ties away from zero.
   */
  lemma {:induction false} RoundToFourDecimalsIsHalfUp(sat: Long, r: int)
    requires InRoundableRange(sat)
    ensures IsHalfUpStep(r, sat) <==> r == RoundToFourDecimals(sat)
  {
    if IsHalfUpStep(r, sat) {
      HalfUpStepUnique(r, RoundToFourDecimals(sat), sat);
    }
  }

  /** An amount that already has at most 4 BTC decimals comes back unchanged. */
  lemma {:induction false} RoundToFourDecimalsKeepsSteps(sat: Long)
    requires sat % FourDecimalStep == 0
    ensures RoundToFourDecimals(sat) == sat
  {
    assert InRoundableRange(sat);
    assert IsHalfUpStep(sat, sat);
    HalfUpStepUnique(sat, RoundToFourDecimals(sat), sat);
  }

  /** Rounding twice is rounding once. */
  lemma {:induction false} RoundToFourDecimalsIdempotent(sat: Long)
    requires InRoundableRange(sat)
    ensures RoundToFourDecimals(RoundToFourDecimals(sat)) == RoundToFourDecimals(sat)
  {
    RoundToFourDecimalsKeepsSteps(RoundToFourDecimals(sat));
  }

  /**
   * Past the roundable range the rounded value leaves the `long` range and
   * `longValue()` wraps it to the opposite sign.
   */
  lemma {:induction false} RoundToFourDecimalsWrapsOutsideRange(sat: Long)
    requires !InRoundableRange(sat)
    ensures sat > 0 ==> RoundToFourDecimals(sat) < 0
    ensures sat < 0 ==> RoundToFourDecimals(sat) > 0
  {
    RoundingChain(sat);
    var q := DivRound(sat, FourDecimalStep, HalfUp);
    assert RoundToFourDecimals(sat) == LowBits64(q * FourDecimalStep);
    OutOfRangeQuotient(sat, q);
    if sat > 0 {
      LowBits64AboveMax(q * FourDecimalStep);
    } else {
      LowBits64BelowMin(q * FourDecimalStep);
    }
  }

  lemma {:induction false} OutOfRangeQuotient(v: Long, q: int)
    requires !InRoundableRange(v)
    requires v > 0 ==> q >= 0
    requires v < 0 ==> q <= 0
    requires 2 * Abs(v) - FourDecimalStep < 2 * Abs(q) * FourDecimalStep <= 2 * Abs(v) + FourDecimalStep
    ensures v > 0 ==> MaxLong < q * FourDecimalStep < TwoTo64
    ensures v < 0 ==> -TwoTo64 <= q * FourDecimalStep < MinLong
  {
  }

  /** An amount is left unchanged by the rounding exactly when it has at most 4 BTC decimals. */
  lemma {:induction false} RoundToFourDecimalsFixedPoints(sat: Long)
    ensures RoundToFourDecimals(sat) == sat <==> sat % FourDecimalStep == 0
  {
    if sat % FourDecimalStep == 0 {
      RoundToFourDecimalsKeepsSteps(sat);
    } else if !InRoundableRange(sat) {
      RoundToFourDecimalsWrapsOutsideRange(sat);
    }
  }

  /** The two examples of the doc comment, in satoshi, and their mirror images. */
  lemma {:induction false} RoundToFourDecimalsExamples()
    ensures RoundToFourDecimals(1234000) == 1230000
    ensures RoundToFourDecimals(1235000) == 1240000
    ensures RoundToFourDecimals(-1235000) == -1240000
  {
    RoundToFourDecimalsIsHalfUp(1234000, 1230000);
    RoundToFourDecimalsIsHalfUp(1235000, 1240000);
    RoundToFourDecimalsIsHalfUp(-1235000, -1240000);
  }

  /**
   * `parseToCoinWith4Decimals`: clean the input, parse it to a coin, round
   * to 4 decimals; any exception on the way yields `Coin.ZERO`.
   */
  function ParseToCoinWith4Decimals(input: string, p: Parsers): (c: Coin)
    ensures p.cleanDoubleInput(input).None? ==> c == CoinZero
    ensures p.cleanDoubleInput(input).Some? && p.parseToCoin(p.cleanDoubleInput(input).value).None?
      ==> c == CoinZero
    ensures p.cleanDoubleInput(input).Some? && p.parseToCoin(p.cleanDoubleInput(input).value).Some?
      ==> var v := p.parseToCoin(p.cleanDoubleInput(input).value).value.value;
          && c == Coin(RoundToFourDecimals(v))
          && (InRoundableRange(v) ==> IsHalfUpStep(c.value, v))
  {
    match p.cleanDoubleInput(input)
    case None => CoinZero
    case Some(cleaned) =>
      match p.parseToCoin(cleaned)
      case None => CoinZero
      case Some(coin) => Coin(RoundToFourDecimals(coin.value))
  }

  /**
   * `hasBtcValidDecimals`: the plain parse equals the 4-decimal parse. The
   * plain parse is outside any `try`, so where it throws the exception
   * propagates (`None`).
   */
  function HasBtcValidDecimals(input: string, p: Parsers): (r: Option<bool>)
    ensures r.None? <==> p.parseToCoin(input).None?
    ensures r == Some(true) <==>
      p.parseToCoin(input).Some? && p.parseToCoin(input).value == ParseToCoinWith4Decimals(input, p)
  {
    match p.parseToCoin(input)
    case None => None
    case Some(coin) => Some(coin == ParseToCoinWith4Decimals(input, p))
  }

  /**
   * When cleaning leaves the input as it is, an amount has valid BTC
   * decimals exactly when it is a whole number of 10,000 satoshi, that is,
   * when it has at most 4 decimal places.
   */
  lemma {:induction false} ValidDecimalsIffFourPlaces(input: string, p: Parsers)
    requires p.cleanDoubleInput(input) == Some(input)
    requires p.parseToCoin(input).Some?
    ensures HasBtcValidDecimals(input, p) == Some(true)
      <==> p.parseToCoin(input).value.value % FourDecimalStep == 0
  {
    RoundToFourDecimalsFixedPoints(p.parseToCoin(input).value.value);
  }

  /**
   * `parseToCoinWith12Decimals`: move the decimal point 12 places right,
   * `setScale(12, DOWN)`, `longValue()`; an unparsable input yields
   * `XmrCoin.ZERO`.
   */
  function ParseToCoinWith12Decimals(input: string, p: Parsers): (x: XmrCoin)
    ensures p.newBigDecimal(input).None? ==> x == XmrCoinZero
    ensures p.newBigDecimal(input).Some? ==>
      var atomic := TruncReal(TimesPow10(Value(p.newBigDecimal(input).value), XmrSmallestUnitExponent));
      && (atomic - x.value) % TwoTo64 == 0
      && (InLongRange(atomic) ==> x.value == atomic)
  {
    match p.newBigDecimal(input)
    case None => XmrCoinZero
    case Some(d) =>
      var moved := MovePointRight(d, XmrSmallestUnitExponent);
      var atomic := SetScale(moved, XmrSmallestUnitExponent, Down);
      MoveTruncateDown(d, XmrSmallestUnitExponent);
      LongOfTruncated(atomic, TimesPow10(Value(d), XmrSmallestUnitExponent));
      XmrCoin(LongValue(atomic))
  }

  lemma LongOfTruncated(d: Decimal, x: real)
    requires ToBigInteger(d) == TruncReal(x)
    ensures (TruncReal(x) - LongValue(d)) % TwoTo64 == 0
    ensures InLongRange(TruncReal(x)) ==> LongValue(d) == TruncReal(x)
  {}

  /** Worked cases: whole, fractional and sub-atomic inputs, of both signs. */
  lemma {:induction false} TwelveDecimalExamples(p: Parsers)
    requires p.newBigDecimal("1.5") == Some(Decimal(15, 1))
    requires p.newBigDecimal("0.0000000000019") == Some(Decimal(19, 13))
    requires p.newBigDecimal("-0.0000000000019") == Some(Decimal(-19, 13))
    ensures ParseToCoinWith12Decimals("1.5", p) == XmrCoin(1500000000000)
    ensures ParseToCoinWith12Decimals("0.0000000000019", p) == XmrCoin(1)
    ensures ParseToCoinWith12Decimals("-0.0000000000019", p) == XmrCoin(-1)
  {
    var atomUnit := Pow10(XmrSmallestUnitExponent);
    assert atomUnit == 1000000000000 by {
      Pow10Four();
      Pow10Add(4, 8);
    }
    assert Pow10(1) == 10;
    assert Pow10(13) == 10 * atomUnit;
    assert TimesPow10(Value(Decimal(15, 1)), XmrSmallestUnitExponent) == 1500000000000.0;
    FloorIsSelf(1500000000000);
    assert TimesPow10(Value(Decimal(19, 13)), XmrSmallestUnitExponent) == 1.9;
    assert TimesPow10(Value(Decimal(-19, 13)), XmrSmallestUnitExponent) == -1.9;
  }

  /**
   * `reduceTo4Decimals(XmrCoin, …)`: `new BigDecimal(coin.value)` has scale
   * 0, so `setScale(4, UP)` only appends zeros and `longValue()` gives the
   * same atomic value back.
   */
  function ReduceTo4Decimals(coin: XmrCoin): (r: XmrCoin)
    ensures r == coin
  {
    var widened := SetScale(FromLong(coin.value), Scale + 1, Up);
    FloorIsSelf(coin.value);
    XmrCoin(LongValue(widened))
  }
}
