# XMR fee service and coin-unit helpers, in Dafny

This project models two parts of the Bisq XMR integration.

1. **The `XmrFeeService` fee-rate state machine.** The service caches one
   per-byte transaction fee rate and starts at the default of 50. It raises
   any delivered rate to a floor, `minFeePerByte`, and counts the successful
   refreshes. When its callers are serialised, as they are on Bisq's user
   thread, its throttle gate passes at most one provider request every two
   minutes. The asynchronous `requestFees(resultHandler, faultHandler)`
   becomes three pure transitions on an immutable `FeeState` record:
   - `Request`: the gate, with the time passed in;
   - `OnSuccess`: a delivered result;
   - `OnFailure`: a failed result.

   Each transition reports the callbacks it runs. A run is any sequence of
   these events in any order, and the lemmas about runs state the service's
   invariants.
2. **The `DisplayUtils` helpers that convert coin units.**
   - `parseToCoinWith4Decimals` rounds a satoshi amount to 4 BTC decimals.
   - `hasBtcValidDecimals` compares the plain parse of the raw input with the 4-decimal parse of the cleaned input; a plain parse that throws propagates. When cleaning leaves the input unchanged, the check holds exactly when the amount has at most 4 decimals.
   - `parseToCoinWith12Decimals` scales a decimal XMR amount to atomic units.
   - `reduceTo4Decimals(XmrCoin)` returns the same atomic value, since `setScale(4, UP)` on an integer only appends zeros.

   Each is modelled as the same chain of `java.math.BigDecimal` calls that
   the Java makes:
   - `setScale` with `UP`, `DOWN` and `HALF_UP`;
   - `movePointRight`;
   - `toBigInteger`;
   - `longValue`.

   Lemmas state what each chain amounts to. They are checked against a
   real-valued reference meaning (`BigDecimals.Value`) and against the
   predicate `DisplayUtils.IsHalfUpStep`, which defines "nearest multiple of
   10,000, ties away from zero".

Files:
- `wrappers.dfy`: `Option`. `None` stands for a Java call that throws.
- `java_long.dfy`: the 64-bit `long` range and the low-64-bit wrap of `BigInteger.longValue`.
- `arithmetic.dfy`: small integer and real arithmetic lemmas.
- `big_decimal.dfy`: the `BigDecimal` operations the helpers use.
- `display_utils.dfy`: the coin-unit helpers.
- `fee_service.dfy`: the fee service.

## Model

| member | source | states |
|---|---|---|
| XmrFeeService.InitialState | core/src/main/java/bisq/core/provider/fee/XmrFeeService.java:93-99 | A fresh service has rate 50 (the default), counter 0, `lastRequest` 0 and no timestamp map. |
| XmrFeeService.Request | core/src/main/java/bisq/core/provider/fee/XmrFeeService.java:136-178 | The provider is contacted exactly when more than 120 s have passed since `lastRequest` (a strict comparison). An admitted request stamps `lastRequest := now` at once and runs no callback. A throttled request leaves the state as it was and runs the result handler, if one was given, as a no-op success. In this sequential model the handler runs at once and sees the counter at the time of the request. |
| XmrFeeService.OnSuccess | core/src/main/java/bisq/core/provider/fee/XmrFeeService.java:145-163 | The new rate is the delivered "BTC" rate, raised to the floor when below it, so it is never below the floor. The "bitcoinFeesTs" timestamp and the map are recorded, and the counter grows by one. The result handler runs after the increment and sees the new counter. The throttle stamp and the floor do not change. |
| XmrFeeService.OnFailure | core/src/main/java/bisq/core/provider/fee/XmrFeeService.java:165-170 | A failure changes no field. Only the fault handler runs, with "Could not load fees", and only if one was given. The result handler never runs. |
| XmrFeeService.OnAllServicesInitialized | core/src/main/java/bisq/core/provider/fee/XmrFeeService.java:118-121 | Sets the floor, then goes through the gate with no handlers. `lastRequest` becomes `now` exactly when the gate admits the request. The rate, the counter, the timestamp map and the source timestamp are untouched, so a rate cached earlier is not raised to the new floor. |
| XmrFeeService.InitializationFloored | core/src/main/java/bisq/core/provider/fee/XmrFeeService.java:118-121 | After initialisation, the floor invariant holds exactly when no delivered rate is below the new floor. |
| XmrFeeService.FlooredAfterInitialization | core/src/main/java/bisq/core/provider/fee/XmrFeeService.java:118-121 | From any state whose delivered rate is not below the new floor, initialisation followed by any run keeps the floor invariant. |
| XmrFeeService.EarlyRateNotRefloored | core/src/main/java/bisq/core/provider/fee/XmrFeeService.java:118-121 | A request admitted at 10,000 s receives rate 1 while the floor is still 0. Initialisation 50 s later sets the floor to 5, but its request is throttled. The cached rate stays at 1, below the floor, and the invariant fails. |
| XmrFeeService.GetTxFeePerByte | core/src/main/java/bisq/core/provider/fee/XmrFeeService.java:185-187 | The cached rate. Under the floor invariant, a delivered rate is at least the floor. The rate is at least the floor in every state reached after initialisation of a fresh service (`XmrFeeService.RateNeverBelowFloor`). `XmrFeeService.EarlyRateNotRefloored` shows it need not be after a rate delivered before initialisation. |
| XmrFeeService.GetTxFee | core/src/main/java/bisq/core/provider/fee/XmrFeeService.java:181-183 | The fee is the cached rate times the size and changes no state. A size of 0 costs 0. Once a rate has been delivered under the floor invariant, a size `n >= 0` costs at least floor × n. |
| XmrFeeService.TxFeeAdditive | core/src/main/java/bisq/core/provider/fee/XmrFeeService.java:181-183 | The fee is linear in the size: the fees of two parts add up to the fee of the whole. |
| XmrFeeService.TxFeeNeverBelowFloor | core/src/main/java/bisq/core/provider/fee/XmrFeeService.java:181-183 | After initialisation with a floor no higher than the default, whatever requests and results follow, `n >= 0` bytes never cost less than floor × n. |
| XmrFeeService.CounterCountsSuccesses | core/src/main/java/bisq/core/provider/fee/XmrFeeService.java:158 | Over any run, the counter grows by exactly the number of delivered results. Requests and failures add nothing. |
| XmrFeeService.FloorConstant | core/src/main/java/bisq/core/provider/fee/XmrFeeService.java:98 | No request or result changes the floor. |
| XmrFeeService.FloorInvariant | core/src/main/java/bisq/core/provider/fee/XmrFeeService.java:153-156 | Every run keeps the invariant "after a delivered rate, the rate is at least the floor". |
| XmrFeeService.RateNeverBelowFloor | core/src/main/java/bisq/core/provider/fee/XmrFeeService.java:118-121 | After initialisation with a floor no higher than the default, no run ever takes the rate below the floor. |
| XmrFeeService.RateStaysAboveFloor | core/src/main/java/bisq/core/provider/fee/XmrFeeService.java:153-156 | A rate that starts at or above the floor stays there over any run. |
| XmrFeeService.LastRequestMonotone | core/src/main/java/bisq/core/provider/fee/XmrFeeService.java:139-140 | Over any run, the throttle stamp never moves backwards. |
| XmrFeeService.GateMonotoneInTime | core/src/main/java/bisq/core/provider/fee/XmrFeeService.java:139 | A request that would be admitted at one time would also be admitted at any later time. |
| XmrFeeService.NothingElseChanges | core/src/main/java/bisq/core/provider/fee/XmrFeeService.java:166-178 | A run of failures and throttled requests leaves every field as it was. |
| XmrFeeService.ThrottledAfterStamp | core/src/main/java/bisq/core/provider/fee/XmrFeeService.java:139-142 | Once the stamp is at or after `lo`, every request up to `lo + 120` is throttled, whatever results arrive in between. |
| XmrFeeService.AtMostOneDispatchPerWindow | core/src/main/java/bisq/core/provider/fee/XmrFeeService.java:139-142 | When requests are serialised, however many fall in one 120-second window, and whatever results arrive meanwhile, at most one reaches the provider. A second request is throttled even before the first completes. |
| XmrFeeService.ThrottleScenario | core/src/main/java/bisq/core/provider/fee/XmrFeeService.java:136-178 | A request at t=1000 is admitted. One at t=1001 is throttled but still runs its result handler. One at t=1121 is admitted again. |
| XmrFeeService.FloorScenario | core/src/main/java/bisq/core/provider/fee/XmrFeeService.java:153-156 | A delivered rate of 3 under a floor of 5 becomes 5, and 250 bytes then cost 1250. |
| XmrFeeService.DefaultFeeScenario | core/src/main/java/bisq/core/provider/fee/XmrFeeService.java:64 | Before any delivery, 250 bytes cost 50 × 250 = 12500. |
| DisplayUtils.RoundToFourDecimals | desktop/src/main/java/bisq/desktop/util/DisplayUtils.java:299-300 | The `setScale(-4, HALF_UP)`, `setScale(4, HALF_UP)`, `toBigInteger`, `longValue` chain gives the nearest multiple of 10,000 sat, ties away from zero, for every amount within the roundable range. |
| DisplayUtils.RoundToFourDecimalsIsHalfUp | desktop/src/main/java/bisq/desktop/util/DisplayUtils.java:299-300 | Within the roundable range, `r` satisfies the half-up reference exactly when `r` is the chain's result (both directions). |
| DisplayUtils.HalfUpStepUnique | desktop/src/main/java/bisq/desktop/util/DisplayUtils.java:288-296 | At most one value is "v rounded half-up to 4 decimals", so the reference is a definition. |
| DisplayUtils.HalfUpQuotientIsStep | desktop/src/main/java/bisq/desktop/util/DisplayUtils.java:299-300 | Within the roundable range (±9223372036854774999 sat), the half-up quotient by 10,000, multiplied back, satisfies the reference and fits a Java `long`. |
| DisplayUtils.RoundToFourDecimalsKeepsSteps | desktop/src/main/java/bisq/desktop/util/DisplayUtils.java:299-300 | An amount that is already a multiple of 10,000 comes back unchanged, at any magnitude. |
| DisplayUtils.RoundToFourDecimalsIdempotent | desktop/src/main/java/bisq/desktop/util/DisplayUtils.java:299-300 | Within the roundable range (±9223372036854774999 sat), rounding a rounded amount changes nothing. |
| DisplayUtils.RoundToFourDecimalsFixedPoints | desktop/src/main/java/bisq/desktop/util/DisplayUtils.java:299-300 | The rounding leaves an amount unchanged exactly when it is a multiple of 10,000. |
| DisplayUtils.RoundToFourDecimalsWrapsOutsideRange | desktop/src/main/java/bisq/desktop/util/DisplayUtils.java:299-300 | Beyond ±9223372036854774999 sat, the rounded value overflows `long` and `longValue` returns a value of the opposite sign. |
| DisplayUtils.RoundToFourDecimalsExamples | desktop/src/main/java/bisq/desktop/util/DisplayUtils.java:288-296 | 0.01234 BTC (1234000 sat) becomes 1230000, 0.01235 BTC becomes 1240000, and -1235000 becomes -1240000. |
| DisplayUtils.ParseToCoinWith4Decimals | desktop/src/main/java/bisq/desktop/util/DisplayUtils.java:297-306 | A failure in cleaning or parsing yields `Coin.ZERO` and is not propagated. Otherwise the result is `RoundToFourDecimals` of the parsed amount. Within the roundable range (±9223372036854774999 sat), that is the amount rounded half-up to a multiple of 10,000 sat. Beyond that range, the `long` wraps as `DisplayUtils.RoundToFourDecimalsWrapsOutsideRange` states. |
| DisplayUtils.HasBtcValidDecimals | desktop/src/main/java/bisq/desktop/util/DisplayUtils.java:308-310 | True exactly when the plain parse equals the 4-decimal parse. A failing plain parse is outside the `try`, so its exception propagates (`None`). |
| DisplayUtils.ValidDecimalsIffFourPlaces | desktop/src/main/java/bisq/desktop/util/DisplayUtils.java:308-310 | For an input that cleaning leaves unchanged, it is valid exactly when the parsed amount is a whole number of 10,000 sat, that is, at most 4 BTC decimals. |
| DisplayUtils.ParseToCoinWith12Decimals | desktop/src/main/java/bisq/desktop/util/DisplayUtils.java:312-321 | An unparsable input gives `XmrCoin.ZERO`. Otherwise the result is the decimal value times 10^12, truncated toward zero, and agrees with it modulo 2^64, exactly so when it fits in a `long`. |
| DisplayUtils.TwelveDecimalExamples | desktop/src/main/java/bisq/desktop/util/DisplayUtils.java:312-321 | "1.5" becomes 1500000000000 atomic units. 1.9 atomic units truncate to 1, and -1.9 to -1 (toward zero). |
| DisplayUtils.ReduceTo4Decimals | desktop/src/main/java/bisq/desktop/util/DisplayUtils.java:344-347 | Returns the same atomic value: on a scale-0 `BigDecimal`, `setScale(4, UP)` only appends zeros. |
| BigDecimals.SetScale | desktop/src/main/java/bisq/desktop/util/DisplayUtils.java:299-300 | `setScale` gives the new scale. Widening keeps the numeric value. Narrowing divides the unscaled value by the power of ten using the rounding mode. |
| BigDecimals.DivRound | desktop/src/main/java/bisq/desktop/util/DisplayUtils.java:299-300 | Division with `UP`, `DOWN` or `HALF_UP` rounding keeps the dividend's sign and lies within the mode's bounds of the exact quotient. |
| BigDecimals.MagnitudeUnique | desktop/src/main/java/bisq/desktop/util/DisplayUtils.java:299-300 | For each of `DOWN`, `UP` and `HALF_UP`, at most one magnitude lies inside the mode's bounds. |
| BigDecimals.DivRoundUnique | desktop/src/main/java/bisq/desktop/util/DisplayUtils.java:299-300 | The bounds define the rounding: for every mode, a quotient with the dividend's sign whose magnitude lies inside the mode's bounds is exactly the one `DivRound` returns. |
| BigDecimals.MovePointRight | desktop/src/main/java/bisq/desktop/util/DisplayUtils.java:314 | `movePointRight(n)` lowers the scale by n, to no less than 0, and keeps the shifted value. |
| BigDecimals.FromLong | desktop/src/main/java/bisq/desktop/util/DisplayUtils.java:345 | `new BigDecimal(long)` denotes exactly the given integer. |
| BigDecimals.MoveValue | desktop/src/main/java/bisq/desktop/util/DisplayUtils.java:314 | Lowering the scale by n multiplies the value by 10^n. |
| BigDecimals.ToBigInteger | desktop/src/main/java/bisq/desktop/util/DisplayUtils.java:300 | `toBigInteger` truncates the value toward zero. |
| BigDecimals.MoveTruncateDown | desktop/src/main/java/bisq/desktop/util/DisplayUtils.java:314 | `movePointRight(n).setScale(n, DOWN).toBigInteger()` is the value times 10^n, truncated toward zero. |
| JavaLong.LowBits64 | desktop/src/main/java/bisq/desktop/util/DisplayUtils.java:315 | `longValue` keeps the low 64 bits: the result agrees with the input modulo 2^64 and equals it when it fits in a `long`. |
| BigDecimals.LongValue | desktop/src/main/java/bisq/desktop/util/DisplayUtils.java:315 | `longValue()` is the value truncated toward zero, narrowed to 64 bits: it agrees with the truncated value modulo 2^64 and equals it whenever that fits in a `long`. |

## Left out

- The asynchronous plumbing is not modelled: `UserThread.execute`, the Guava future and callback, and `FeeRequest`/`FeeProvider`. A provider result is an event the caller fires, in any order and any number of times.
- Concurrent callers are not modelled. The Java gate at XmrFeeService.java:139-140 is an unsynchronised check-then-set on a plain `long` field. Two threads calling `requestFees` at once could both pass it. The model, and every throttle lemma (`XmrFeeService.AtMostOneDispatchPerWindow`, `XmrFeeService.ThrottledAfterStamp`), assumes serialised callers, as on Bisq's user thread.
- The deferred timing of handlers is not modelled. In the Java, a throttled request's result handler is queued on `UserThread` (XmrFeeService.java:174-177) and runs later. If a success callback is queued ahead of it, the handler sees the counter after that increment. In the model, the handler runs immediately, with the counter as it stood at the request.
- The fee-service log calls are not modelled. These are the floor warning at XmrFeeService.java:154, the rate log at :159, the failure warning at :167 and the throttle debug log at :173. None of them changes state.
- `Instant.now()` is not modelled; the current epoch second is a parameter of `Request`.
- The five-minute `UserThread.runPeriodically` timer is not modelled; it only schedules further `Request` events.
- The JavaFX `IntegerProperty` observers are not modelled. The counter is a plain number.
- XmrFeeService.GetTxFeePerByte: promises the floor only under the floor invariant, and the Java does not always keep that invariant. A rate delivered before `onAllServicesInitialized` sets the floor (XmrFeeService.java:119) is not raised to it. Raising happens only in the success callback (:153-156), so the low rate stays until the next delivered result. `XmrFeeService.EarlyRateNotRefloored` gives such an order of events. The floor lemmas (`XmrFeeService.RateNeverBelowFloor`, `XmrFeeService.TxFeeNeverBelowFloor`, `XmrFeeService.FlooredAfterInitialization`) hold only for runs that start at initialisation of a fresh service, or of a state with no rate below the new floor.
- `XmrFeeService.OnAllServicesInitialized` reading the floor from `BisqEnvironment` is not modelled. The floor is a parameter.
- The static DAO fee getters (`getMinMakerFee`, `getTakerFeePerXmr`, `getMinTakerFee`) are left out. They depend on `DaoStateService`, `PeriodService` and `XmrCoin.fromCoin2XmrCoin`, none of which is part of this model.
- XmrFeeService.OnSuccess: requires both the "bitcoinFeesTs" key and the "BTC" key. When either is missing, the Java unboxes a null and throws partway through the callback, after already storing the timestamp map. That partial update is not modelled.
- XmrFeeService.GetTxFee: uses unbounded integers, so a `long` overflow in `XmrCoin.multiply` is not modelled; the semantics of that class are not part of this model. Negative sizes are accepted, as the Java accepts them.
- XmrFeeService.CounterCountsSuccesses: the counter is unbounded, so the wrap of the Java `int` after 2^31 - 1 updates is not modelled.
- XmrFeeService.Request: the subtraction `now - lastRequest` is on unbounded integers. The Java `long` difference could only wrap for times more than 2^63 seconds apart.
- Exceptions are modelled as `None`: `ParsingUtils.cleanDoubleInput`, `ParsingUtils.parseToCoin` and the `BigDecimal(String)` constructor are not part of this model. They are function parameters that return `None` where the Java call throws. The `BSFormatter` arguments are folded into them.
- The null-input cases and the warning logs in the `catch` blocks are not modelled.
- DisplayUtils.ParseToCoinWith4Decimals: the half-up meaning holds only for parsed amounts within ±9223372036854774999 sat. Beyond that range, the result is the wrapped `longValue()`, for example a negative coin for `Long.MAX_VALUE`. That wrap is stated through `DisplayUtils.RoundToFourDecimalsWrapsOutsideRange`.
- DisplayUtils.RoundToFourDecimals: states the half-up meaning only within ±9223372036854774999 sat. Beyond that, the rounded value overflows `long`, and `DisplayUtils.RoundToFourDecimalsWrapsOutsideRange` states what happens instead.
- `BigDecimal` scales are unbounded integers, so the `ArithmeticException` on a scale overflowing `int` is not modelled.
- `hasXmrValidDecimals` and `reduceTo4Decimals(Coin)` are left out. The first only asks whether `BigDecimal` accepts a string. The second round-trips through the formatter and the parser, which are not part of this model.
- The date, volume, price, direction and account-age formatting helpers of `DisplayUtils` are left out. They are formatting code built on `Res`, `DateFormat` and `BSFormatter`.
