/**
 * The fee-rate state machine of `XmrFeeService`: a cached per-byte rate with
 * a floor, an update counter, and a throttle gate that, for callers that
 * are serialised, lets at most one provider request through per two
 * minutes. The asynchronous pieces of `requestFees` become three
 * transitions the caller fires in any order: the gate (`Request`), a
 * delivered result (`OnSuccess`) and a failed one (`OnFailure`). The
 * current time is a parameter.
 */
module XmrFeeService {
  import opened Wrappers
  import opened JavaLong

  /** `XMR_DEFAULT_TX_FEE`: the per-byte rate used until the provider delivers one. */
  const DefaultTxFee: Long := 50
  /** `MIN_PAUSE_BETWEEN_REQUESTS_IN_MIN` */
  const MinPauseBetweenRequestsInMin: int := 2
  /** The throttle window in seconds. */
  const MinPauseSeconds: int := MinPauseBetweenRequestsInMin * 60
  /** Key of the source timestamp in the provider's first map. */
  const TimestampKey: string := "bitcoinFeesTs"
  /** Key of the per-byte rate in the provider's second map. */
  const RateKey: string := "BTC"
  /** The message handed to the fault handler. */
  const FaultMessage: string := "Could not load fees"

  /** The instance fields of the service. */
  datatype FeeState = FeeState(
    feeUpdateCounter: nat,
    txFeePerByte: Long,
    timeStampMap: Option<map<string, Long>>,
    lastRequest: Long,
    minFeePerByte: Long,
    epochInSecondAtLastRequest: Long)

  /** Which of the two optional callbacks a `requestFees` call was given. */
  datatype Handlers = Handlers(hasResultHandler: bool, hasFaultHandler: bool)

  /** `requestFees()` and `requestFees(resultHandler)` pass no fault handler. */
  const NoHandlers: Handlers := Handlers(false, false)

  /** A callback run, with the update counter it observes when it runs. */
  datatype Callback =
    | ResultHandlerRun(counterSeen: nat)
    | FaultHandlerRun(message: string)

  /** The effect of the throttle gate: the new state, whether the provider is contacted, the callbacks run. */
  datatype Gate = Gate(state: FeeState, dispatched: bool, callbacks: seq<Callback>)

  /** The effect of a delivered or failed provider result. */
  datatype Completion = Completion(state: FeeState, callbacks: seq<Callback>)

  /** A field-initialised service: the floor is still 0 until the services are initialised. */
  const Initial: FeeState := FeeState(0, DefaultTxFee, None, 0, 0, 0)

  lemma InitialState()
    ensures Initial.txFeePerByte == 50
    ensures Initial.feeUpdateCounter == 0
    ensures Initial.lastRequest == 0
    ensures Initial.timeStampMap.None?
  {}

  /** The result handler, when there is one, running with the counter as it stands. */
  function ResultCallbacks(h: Handlers, counter: nat): (cs: seq<Callback>)
  {
    if h.hasResultHandler then [ResultHandlerRun(counter)] else []
  }

  /**
   * The gate at the start of `requestFees(resultHandler, faultHandler)`: a
   * request is admitted only when more than two minutes have passed since
   * the last admitted one, and `lastRequest` is stamped at once, before any
   * result arrives. A throttled request changes nothing and runs the result
   * handler as a no-op success.
   */
  function Request(s: FeeState, now: Long, h: Handlers): (g: Gate)
    ensures g.dispatched <==> now - s.lastRequest > MinPauseSeconds
    ensures g.dispatched ==> g.state == s.(lastRequest := now) && g.callbacks == []
    ensures !g.dispatched ==> g.state == s
    ensures !g.dispatched ==> g.callbacks == ResultCallbacks(h, s.feeUpdateCounter)
  {
    if now - s.lastRequest > MinPauseSeconds then
      Gate(s.(lastRequest := now), true, [])
    else
      Gate(s, false, ResultCallbacks(h, s.feeUpdateCounter))
  }

  /** A provider result the success callback can read without a null key. */
  predicate Deliverable(timestamps: map<string, Long>, rates: map<string, Long>) {
    TimestampKey in timestamps && RateKey in rates
  }

  /**
   * The success callback: record the timestamp map and its source
   * timestamp, take the BTC rate raised to the floor, count the update,
   * then run the result handler, which sees the new counter.
   */
  function OnSuccess(s: FeeState, timestamps: map<string, Long>, rates: map<string, Long>, h: Handlers): (c: Completion)
    requires Deliverable(timestamps, rates)
    ensures c.state.txFeePerByte >= s.minFeePerByte
    ensures c.state.txFeePerByte == rates[RateKey] || c.state.txFeePerByte == s.minFeePerByte
    ensures rates[RateKey] >= s.minFeePerByte ==> c.state.txFeePerByte == rates[RateKey]
    ensures c.state.feeUpdateCounter == s.feeUpdateCounter + 1
    ensures c.state.epochInSecondAtLastRequest == timestamps[TimestampKey]
    ensures c.state.timeStampMap == Some(timestamps)
    ensures c.state.lastRequest == s.lastRequest && c.state.minFeePerByte == s.minFeePerByte
    ensures c.callbacks == ResultCallbacks(h, c.state.feeUpdateCounter)
  {
    var delivered := rates[RateKey];
    var rate := if delivered < s.minFeePerByte then s.minFeePerByte else delivered;
    var next := s.(timeStampMap := Some(timestamps),
                   epochInSecondAtLastRequest := timestamps[TimestampKey],
                   txFeePerByte := rate,
                   feeUpdateCounter := s.feeUpdateCounter + 1);
    Completion(next, ResultCallbacks(h, next.feeUpdateCounter))
  }

  /** The failure callback: nothing changes; only the fault handler, if any, runs. */
  function OnFailure(s: FeeState, h: Handlers): (c: Completion)
    ensures c.state == s
    ensures forall i :: 0 <= i < |c.callbacks| ==> c.callbacks[i] == FaultHandlerRun(FaultMessage)
    ensures |c.callbacks| == if h.hasFaultHandler then 1 else 0
  {
    Completion(s, if h.hasFaultHandler then [FaultHandlerRun(FaultMessage)] else [])
  }

  /** `getTxFeePerByte`: the cached rate. */
  function GetTxFeePerByte(s: FeeState): (r: Long)
    ensures Floored(s) && s.feeUpdateCounter > 0 ==> r >= s.minFeePerByte
  {
    s.txFeePerByte
  }

  /**
   * `getTxFee(sizeInBytes)`: the cached rate times the size; a pure read.
   * Once a rate has been delivered under the floor invariant, no size is
   * priced below the floor.
   */
  function GetTxFee(s: FeeState, sizeInBytes: int): (fee: int)
    ensures sizeInBytes == 0 ==> fee == 0
    ensures Floored(s) && s.feeUpdateCounter > 0 && sizeInBytes >= 0
      ==> fee >= s.minFeePerByte * sizeInBytes
  {
    var rate := GetTxFeePerByte(s);
    assert sizeInBytes >= 0 && rate >= s.minFeePerByte
      ==> (rate - s.minFeePerByte) * sizeInBytes >= 0;
    rate * sizeInBytes
  }

  /** The fee is linear in the size: pricing two parts separately costs the same as the whole. */
  lemma TxFeeAdditive(s: FeeState, a: int, b: int)
    ensures GetTxFee(s, a + b) == GetTxFee(s, a) + GetTxFee(s, b)
  {
    assert s.txFeePerByte * (a + b) == s.txFeePerByte * a + s.txFeePerByte * b;
  }

  /**
   * `onAllServicesInitialized`: set the floor from the network configuration
   * (a parameter here) and make a first request with no handlers.
   */
  function OnAllServicesInitialized(s: FeeState, minFeePerByte: Long, now: Long): (g: Gate)
    ensures g.state.minFeePerByte == minFeePerByte
    ensures g.dispatched <==> now - s.lastRequest > MinPauseSeconds
    ensures g.callbacks == []
    ensures g.state.feeUpdateCounter == s.feeUpdateCounter && g.state.txFeePerByte == s.txFeePerByte
    ensures g.state.lastRequest == if g.dispatched then now else s.lastRequest
    ensures g.state.timeStampMap == s.timeStampMap
    ensures g.state.epochInSecondAtLastRequest == s.epochInSecondAtLastRequest
  {
    Request(s.(minFeePerByte := minFeePerByte), now, NoHandlers)
  }

  /**
   * Initialisation raises the floor but does not re-apply it to the cached
   * rate: the floor invariant holds afterwards exactly when no rate below
   * the new floor has been delivered yet.
   */
  lemma InitializationFloored(s: FeeState, minFeePerByte: Long, now: Long)
    ensures Floored(OnAllServicesInitialized(s, minFeePerByte, now).state)
      <==> (s.feeUpdateCounter > 0 ==> s.txFeePerByte >= minFeePerByte)
  {}

  /**
   * Whatever state initialisation starts from, if no rate below the new
   * floor has been delivered, every run afterwards keeps the floor invariant.
   */
  lemma {:induction false} FlooredAfterInitialization(s: FeeState, minFeePerByte: Long, now: Long, events: seq<Event>)
    requires AllWellFormed(events)
    requires s.feeUpdateCounter > 0 ==> s.txFeePerByte >= minFeePerByte
    ensures Floored(Run(OnAllServicesInitialized(s, minFeePerByte, now).state, events))
  {
    InitializationFloored(s, minFeePerByte, now);
    FloorInvariant(OnAllServicesInitialized(s, minFeePerByte, now).state, events);
  }

  /**
   * A rate delivered before initialisation stays below the floor set
   * afterwards: a request at 10,000 s is admitted, the provider delivers 1
   * while the floor is still 0, and initialisation 50 s later sets the floor
   * to 5 but is throttled, so the cached rate stays at 1.
   */
  lemma EarlyRateNotRefloored()
    ensures var first := Request(Initial, 10000, NoHandlers);
      var delivered := OnSuccess(first.state, map[TimestampKey := 10000], map[RateKey := 1], NoHandlers);
      var init := OnAllServicesInitialized(delivered.state, 5, 10050);
      && first.dispatched
      && !init.dispatched
      && init.state.feeUpdateCounter == 1
      && GetTxFeePerByte(init.state) == 1 < init.state.minFeePerByte
      && !Floored(init.state)
  {}

  // ---------------------------------------------------------------------------
  // Runs: any sequence of requests and provider results, in any order.
  // ---------------------------------------------------------------------------

  datatype Event =
    | RequestFees(now: Long, handlers: Handlers)
    | FeesDelivered(timestamps: map<string, Long>, rates: map<string, Long>, handlers: Handlers)
    | FeesFailed(handlers: Handlers)

  predicate WellFormed(e: Event) {
    e.FeesDelivered? ==> Deliverable(e.timestamps, e.rates)
  }

  predicate AllWellFormed(events: seq<Event>) {
    forall i :: 0 <= i < |events| ==> WellFormed(events[i])
  }

  function Step(s: FeeState, e: Event): (next: FeeState)
    requires WellFormed(e)
  {
    match e
    case RequestFees(now, h) => Request(s, now, h).state
    case FeesDelivered(ts, rates, h) => OnSuccess(s, ts, rates, h).state
    case FeesFailed(h) => OnFailure(s, h).state
  }

  function Run(s: FeeState, events: seq<Event>): (last: FeeState)
    requires AllWellFormed(events)
    decreases |events|
  {
    if events == [] then s else Run(Step(s, events[0]), events[1..])
  }

  /** How many requests of a run get past the gate and reach the provider. */
  function Dispatches(s: FeeState, events: seq<Event>): (n: nat)
    requires AllWellFormed(events)
    decreases |events|
  {
    if events == [] then 0
    else
      var e := events[0];
      (if e.RequestFees? && Request(s, e.now, e.handlers).dispatched then 1 else 0)
        + Dispatches(Step(s, e), events[1..])
  }

  /** How many provider results of a run are successes. */
  function Successes(events: seq<Event>): (n: nat)
    decreases |events|
  {
    if events == [] then 0
    else (if events[0].FeesDelivered? then 1 else 0) + Successes(events[1..])
  }

  /** The floor holds once the provider has delivered a rate. */
  predicate Floored(s: FeeState) {
    s.feeUpdateCounter > 0 ==> s.txFeePerByte >= s.minFeePerByte
  }

  /** The counter grows by exactly one per delivered result and by nothing else. */
  lemma {:induction false} CounterCountsSuccesses(s: FeeState, events: seq<Event>)
    requires AllWellFormed(events)
    ensures Run(s, events).feeUpdateCounter == s.feeUpdateCounter + Successes(events)
    decreases |events|
  {
    if events != [] {
      CounterCountsSuccesses(Step(s, events[0]), events[1..]);
    }
  }

  /** No run changes the floor. */
  lemma {:induction false} FloorConstant(s: FeeState, events: seq<Event>)
    requires AllWellFormed(events)
    ensures Run(s, events).minFeePerByte == s.minFeePerByte
    decreases |events|
  {
    if events != [] {
      FloorConstant(Step(s, events[0]), events[1..]);
    }
  }

  /** Every run keeps the floor invariant. */
  lemma {:induction false} FloorInvariant(s: FeeState, events: seq<Event>)
    requires AllWellFormed(events)
    requires Floored(s)
    ensures Floored(Run(s, events))
    decreases |events|
  {
    if events != [] {
      FloorInvariant(Step(s, events[0]), events[1..]);
    }
  }

  /** From the initial state, a floor no higher than the default rate is never undercut. */
  lemma {:induction false} RateNeverBelowFloor(floor: Long, now: Long, events: seq<Event>)
    requires AllWellFormed(events)
    requires floor <= DefaultTxFee
    ensures Run(OnAllServicesInitialized(Initial, floor, now).state, events).txFeePerByte >= floor
    decreases |events|
  {
    var s := OnAllServicesInitialized(Initial, floor, now).state;
    RateStaysAboveFloor(s, events);
    FloorConstant(s, events);
  }

  lemma {:induction false} RateStaysAboveFloor(s: FeeState, events: seq<Event>)
    requires AllWellFormed(events)
    requires s.txFeePerByte >= s.minFeePerByte
    ensures Run(s, events).txFeePerByte >= Run(s, events).minFeePerByte
    decreases |events|
  {
    if events != [] {
      RateStaysAboveFloor(Step(s, events[0]), events[1..]);
    }
  }

  /** The throttle stamp only moves forward. */
  lemma {:induction false} LastRequestMonotone(s: FeeState, events: seq<Event>)
    requires AllWellFormed(events)
    ensures Run(s, events).lastRequest >= s.lastRequest
    decreases |events|
  {
    if events != [] {
      LastRequestMonotone(Step(s, events[0]), events[1..]);
    }
  }

  /** A request admitted at some time would also be admitted at any later time. */
  lemma GateMonotoneInTime(s: FeeState, now: Long, later: Long, h: Handlers, h': Handlers)
    requires now <= later
    requires Request(s, now, h).dispatched
    ensures Request(s, later, h').dispatched
  {}

  /** Failures and throttled requests leave every field as it was. */
  lemma {:induction false} NothingElseChanges(s: FeeState, events: seq<Event>)
    requires AllWellFormed(events)
    requires forall i :: 0 <= i < |events| ==> !events[i].FeesDelivered?
    requires Dispatches(s, events) == 0
    ensures Run(s, events) == s
    decreases |events|
  {
    if events != [] {
      assert Step(s, events[0]) == s;
      NothingElseChanges(s, events[1..]);
    }
  }

  /**
   * Once the stamp is at or after `lo`, requests made no later than two
   * minutes after `lo` are all throttled, whatever results arrive meanwhile.
   */
  lemma {:induction false} ThrottledAfterStamp(s: FeeState, lo: int, events: seq<Event>)
    requires AllWellFormed(events)
    requires s.lastRequest >= lo
    requires forall i :: 0 <= i < |events| && events[i].RequestFees? ==> events[i].now <= lo + MinPauseSeconds
    ensures Dispatches(s, events) == 0
    decreases |events|
  {
    if events != [] {
      ThrottledAfterStamp(Step(s, events[0]), lo, events[1..]);
    }
  }

  /**
   * However many requests arrive within one two-minute window, and whatever
   * results are delivered in between, at most one reaches the provider.
   */
  lemma {:induction false} AtMostOneDispatchPerWindow(s: FeeState, lo: int, events: seq<Event>)
    requires AllWellFormed(events)
    requires forall i :: 0 <= i < |events| && events[i].RequestFees? ==>
      lo <= events[i].now <= lo + MinPauseSeconds
    ensures Dispatches(s, events) <= 1
    decreases |events|
  {
    if events != [] {
      var e := events[0];
      if e.RequestFees? && Request(s, e.now, e.handlers).dispatched {
        ThrottledAfterStamp(Step(s, e), lo, events[1..]);
      } else {
        AtMostOneDispatchPerWindow(Step(s, e), lo, events[1..]);
      }
    }
  }

  /** A rate below the floor is replaced by the floor, and the fee follows. */
  lemma FloorScenario()
    ensures var s := OnAllServicesInitialized(Initial, 5, 1000).state;
      var c := OnSuccess(s, map[TimestampKey := 1000], map[RateKey := 3], NoHandlers);
      && c.state.txFeePerByte == 5
      && GetTxFee(c.state, 250) == 1250
  {}

  /**
   * Two requests one second apart: only the first reaches the provider, yet
   * the second still gets its completion; 121 seconds later a third is
   * admitted again.
   */
  lemma ThrottleScenario()
    ensures var first := Request(Initial, 1000, NoHandlers);
      var second := Request(first.state, 1001, Handlers(true, false));
      var third := Request(second.state, 1121, NoHandlers);
      && first.dispatched
      && !second.dispatched && second.callbacks == [ResultHandlerRun(0)]
      && third.dispatched
  {}

  /** The default rate prices a 250-byte transaction at 12,500. */
  lemma DefaultFeeScenario()
    ensures GetTxFee(OnAllServicesInitialized(Initial, 5, 1000).state, 250) == 12500
  {}

  /**
   * After initialisation with a floor no higher than the default, whatever
   * requests and results follow, no transaction is priced below floor × size.
   */
  lemma {:induction false} TxFeeNeverBelowFloor(floor: Long, now: Long, events: seq<Event>, sizeInBytes: int)
    requires AllWellFormed(events)
    requires floor <= DefaultTxFee
    requires sizeInBytes >= 0
    ensures GetTxFee(Run(OnAllServicesInitialized(Initial, floor, now).state, events), sizeInBytes)
      >= floor * sizeInBytes
  {
    RateNeverBelowFloor(floor, now, events);
    PricedAtLeast(Run(OnAllServicesInitialized(Initial, floor, now).state, events), floor, sizeInBytes);
  }

  /** A cached rate of at least `floor` prices every size at least at the floor. */
  lemma {:induction false} PricedAtLeast(s: FeeState, floor: int, sizeInBytes: int)
    requires s.txFeePerByte >= floor
    requires sizeInBytes >= 0
    ensures GetTxFee(s, sizeInBytes) >= floor * sizeInBytes
  {
    var d, n := s.txFeePerByte - floor, sizeInBytes;
    assert d * n >= 0;
    assert GetTxFee(s, n) == floor * n + d * n;
  }
}
