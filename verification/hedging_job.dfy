/** The hedging job: one polling cycle of one pool (`hedgingPool`) and the
    pass over both pools (`hedging`). Every exchange and pool read is an
    input, so a cycle is a pure function from the pool's state and those
    responses to the pool's next state and what happened. */
module HedgingJob {
  import opened Optional
  import opened Decimal
  import opened PoolAmount
  import opened Exchange

  /** Wei per ETH (`Constant.UNIT_ETH`). The proofs use only that it is
      positive. */
  const UNIT_ETH: real := 1000000000000000000.0

  /** Scale of the quotients expressed in ETH. */
  const ETH_SCALE: nat := 18

  /** What the step keeps per pool between cycles: the previous snapshot
      (the comparison baseline), the running unresolved exposure in each
      asset, and the two configured thresholds. */
  datatype PoolState = PoolState(
    previous: Option<Snapshot>,
    accEth: real,
    accErc20: real,
    ethThreshold: real,
    erc20Threshold: real)

  /** Everything one cycle reads from outside: the exchange price, the five
      pool reads, the order's state right after the settlement wait and its
      state after the cancellation request. */
  datatype Responses = Responses(price: Option<real>, reading: Reading, first: OrderView, second: OrderView)

  /** Why a cycle ended before placing an order. */
  datatype Skip = PriceUnavailable | IncompleteSnapshot | FirstObservation | Unchanged | SameSign | BelowThreshold

  /** An exception that escapes the step: `BigInteger.pow` of a negative
      exponent, a division by zero, or a null dereference. */
  datatype Fault = NegativeExponent | DivisionByZero | NullPointer

  /** How the placed order was folded back into the accumulators. */
  datatype Settlement = Cleared | Remainder(ethBack: real, erc20Back: real) | Unreconciled

  /** What a cycle did: skipped before ordering, traded, or threw. A cycle
      that placed an order also records whether it then asked the exchange
      to cancel that order. */
  datatype Outcome =
    | Skipped(why: Skip)
    | Traded(order: MarketOrder, settlement: Settlement, cancelSent: bool)
    | Failed(fault: Fault, sent: Option<MarketOrder>, cancelSent: bool)

  datatype StepResult = StepResult(state: PoolState, outcome: Outcome)

  /** The order a cycle placed, if any. */
  function Sent(o: Outcome): Option<MarketOrder> {
    match o
    case Skipped(_) => None
    case Traded(order, _, _) => Some(order)
    case Failed(_, sent, _) => sent
  }

  /** Whether a cycle sent a cancellation request for its order. */
  function CancelRequested(o: Outcome): bool {
    match o
    case Skipped(_) => false
    case Traded(_, _, cancelSent) => cancelSent
    case Failed(_, _, cancelSent) => cancelSent
  }

  /** `isAll`: both values pass the comparison. */
  predicate IsAll(one: real, two: real, compare: real -> bool) {
    compare(one) && compare(two)
  }

  predicate IsAllNegative(one: real, two: real) {
    IsAll(one, two, x => 0.0 >= x)
  }

  predicate IsAllPositive(one: real, two: real) {
    IsAll(one, two, x => 0.0 <= x)
  }

  /** The sign gate lets a cycle through exactly when the two deltas have
      strictly opposite signs; a zero delta always closes it. */
  function SignGateOpen(deltaEth: real, deltaErc20: real): (open: bool)
    ensures open <==> (deltaEth < 0.0 < deltaErc20) || (deltaErc20 < 0.0 < deltaEth)
  {
    !(IsAllNegative(deltaEth, deltaErc20) || IsAllPositive(deltaEth, deltaErc20))
  }

  /** The threshold gate lets a cycle through when at least one delta
      reaches its threshold. */
  function ThresholdReached(s: PoolState, deltaEth: real, deltaErc20: real): (reached: bool)
    ensures reached <==> Abs(deltaEth) >= s.ethThreshold || Abs(deltaErc20) >= s.erc20Threshold
  {
    !(Abs(deltaEth) < s.ethThreshold && Abs(deltaErc20) < s.erc20Threshold)
  }

  /** The per-cycle change in the participant's share of each reserve:
      added to the old share it gives the new one, and while the
      participant's balance and the total supply stay put it is the
      participant's pro-rata part of the change in the reserve. */
  function DeltaEth(before: Snapshot, after: Snapshot): (d: real)
    requires before.totalSupply != 0 && after.totalSupply != 0
    ensures MyEth(before) + d == MyEth(after)
    ensures after.balance == before.balance && after.totalSupply == before.totalSupply ==>
      d * after.totalSupply as real == (after.eth - before.eth) as real * after.balance as real
  {
    ShareOfChange(before.eth, after.eth, before, after);
    MyEth(after) - MyEth(before)
  }

  function DeltaErc20(before: Snapshot, after: Snapshot): (d: real)
    requires before.totalSupply != 0 && after.totalSupply != 0
    ensures MyErc20(before) + d == MyErc20(after)
    ensures after.balance == before.balance && after.totalSupply == before.totalSupply ==>
      d * after.totalSupply as real == (after.erc20 - before.erc20) as real * after.balance as real
  {
    ShareOfChange(before.erc20, after.erc20, before, after);
    MyErc20(after) - MyErc20(before)
  }

  /** The sizing-time values of a hedge: the ERC20 worth of the ETH
      exposure, the ETH worth of the ERC20 exposure, the exposure picked to
      trade (in wei), that exposure in ETH truncated to 18 places, and the
      order sent. */
  datatype Sizing = Sizing(actualErc20: real, actualEth: real, actualDealEth: real, dealEth: real, order: MarketOrder)

  /** The ERC20 worth, in minor units, of `eth` ETH at `price`. */
  function Erc20Worth(eth: real, price: real, decimals: nat): real {
    eth * price * Ten(decimals)
  }

  /** A positive amount at a positive price is worth a positive amount. */
  lemma WorthOfPositive(eth: real, price: real, decimals: nat)
    requires eth > 0.0 && price > 0.0
    ensures Erc20Worth(eth, price, decimals) > 0.0
  {
    assert eth * price > 0.0;
  }

  /** The ERC20 worth, in minor units, of an ETH exposure of `accEth` wei
      at the exchange price: the exposure in ETH (rounded half-up to 18
      places) times the price times 10^decimals. Its sign is the price's. */
  function ActualErc20(accEth: real, price: real, decimals: nat): (v: real)
    ensures price >= 0.0 ==> v >= 0.0
    ensures price <= 0.0 ==> v <= 0.0
  {
    var inEth := RoundHalfUp(Abs(accEth) / UNIT_ETH, ETH_SCALE);
    SignOfProduct(inEth, price * Ten(decimals));
    Erc20Worth(inEth, price, decimals)
  }

  lemma SignOfProduct(a: real, b: real)
    requires a >= 0.0
    ensures b >= 0.0 ==> a * b >= 0.0
    ensures b <= 0.0 ==> a * b <= 0.0
  {
  }

  /** The magnitude of a product is the product of the magnitudes. */
  lemma AbsProduct(a: real, b: real)
    ensures Abs(a * b) == Abs(a) * Abs(b)
  {
    if a < 0.0 && b >= 0.0 {
      assert a * b <= 0.0;
    } else if a >= 0.0 && b < 0.0 {
      assert a * b <= 0.0;
    }
  }

  lemma ScaleBound(a: real, b: real, c: real)
    requires a <= b && 0.0 <= c
    ensures a * c <= b * c
  {
  }

  /** An error of at most half a unit of 1/t in an amount becomes an error of
      at most half |price| * u units once the amount is priced and scaled by
      u; the factors are plain values here. */
  lemma PricedError(x: real, e: real, price: real, u: real, t: real)
    requires t > 0.0 && u > 0.0
    requires WithinHalfStep(x, e, t)
    ensures Abs(x * price * u - e * price * u) * t <= 0.5 * Abs(price) * u
  {
    var d := x - e;
    var f := price * u;
    assert x * price * u - e * price * u == d * f;
    AbsProduct(d, f);
    AbsScale(price, u);
    ScaleBound(Abs(d) * t, 0.5, Abs(f));
    assert Abs(d) * Abs(f) * t == Abs(d) * t * Abs(f);
  }

  /** The sizing-time ERC20 worth is the exact worth of the ETH exposure
      up to the half-up rounding of that exposure to 18 places. */
  lemma ActualErc20IsWorthOfExposure(accEth: real, price: real, decimals: nat)
    ensures Abs(ActualErc20(accEth, price, decimals) - Erc20Worth(Abs(accEth) / UNIT_ETH, price, decimals))
      * Ten(ETH_SCALE) <= 0.5 * Abs(price) * Ten(decimals)
  {
    var e := Abs(accEth) / UNIT_ETH;
    var x := RoundHalfUp(e, ETH_SCALE);
    RoundHalfUpBounds(e, ETH_SCALE);
    assert ActualErc20(accEth, price, decimals) == Erc20Worth(x, price, decimals);
    WorthError(x, e, price, decimals, ETH_SCALE);
  }

  /** Pricing two amounts that differ by at most half a unit of the last
      place at `scale` gives worths that differ by at most half
      |price| * 10^decimals units of that place. */
  lemma WorthError(x: real, e: real, price: real, decimals: nat, scale: nat)
    requires WithinHalfStep(x, e, Ten(scale))
    ensures Abs(Erc20Worth(x, price, decimals) - Erc20Worth(e, price, decimals)) * Ten(scale)
      <= 0.5 * Abs(price) * Ten(decimals)
  {
    var u, t := Ten(decimals), Ten(scale);
    assert Erc20Worth(x, price, decimals) - Erc20Worth(e, price, decimals)
      == x * price * u - e * price * u;
    PricedError(x, e, price, u, t);
  }

  /** The ETH worth, in wei, of an ERC20 exposure of `accErc20` minor units
      at the exchange price: the exposure in tokens (rounded half-up to
      `decimals` places) divided by the price (rounded half-up to 18
      places) times UNIT_ETH. */
  function ActualEth(accErc20: real, price: real, decimals: nat): (v: real)
    requires price != 0.0
    ensures price > 0.0 ==> v >= 0.0
    ensures accErc20 == 0.0 ==> v == 0.0
  {
    var tokens := Abs(accErc20) / Ten(decimals);
    QuotientSign(Abs(accErc20), Ten(decimals));
    var inTokens := RoundHalfUp(tokens, decimals);
    QuotientSign(inTokens, price);
    var inEth := RoundHalfUp(inTokens / price, ETH_SCALE);
    inEth * UNIT_ETH
  }

  lemma QuotientSign(a: real, b: real)
    requires b != 0.0
    ensures a == 0.0 ==> a / b == 0.0
    ensures a >= 0.0 && b > 0.0 ==> a / b >= 0.0
  {
  }

  /** `actualDealEth / UNIT_ETH`, truncated to 18 places: never more than
      the exact quotient and short of it by less than 10^-18. */
  function DealEth(actualDealEth: real): (v: real)
    requires actualDealEth >= 0.0
    ensures 0.0 <= v <= actualDealEth / UNIT_ETH
    ensures ShortOfOneStep(v, actualDealEth / UNIT_ETH, Ten(ETH_SCALE))
    ensures HasScale(v, ETH_SCALE)
  {
    RoundDownBounds(actualDealEth / UNIT_ETH, ETH_SCALE);
    RoundDown(actualDealEth / UNIT_ETH, ETH_SCALE)
  }

  /** Sizes and directs the hedge for accumulated exposures `accEth` (wei)
      and `accErc20` (ERC20 minor units) at the exchange `price`, for a
      token with `decimals` digits. */
  function Size(accEth: real, accErc20: real, price: real, decimals: nat): (z: Sizing)
    requires price != 0.0
    ensures z.actualErc20 == ActualErc20(accEth, price, decimals)
    ensures z.actualEth == ActualEth(accErc20, price, decimals)
    ensures Abs(accErc20) > z.actualErc20 ==> z.actualDealEth == Abs(accEth)
    ensures Abs(accErc20) <= z.actualErc20 ==> z.actualDealEth == z.actualEth
    ensures z.actualDealEth >= 0.0
    ensures z.dealEth == DealEth(z.actualDealEth)
    ensures 0.0 <= z.dealEth <= z.actualDealEth / UNIT_ETH
    ensures z.order == Direct(accEth, z.dealEth, price)
  {
    var actualErc20 := ActualErc20(accEth, price, decimals);
    var actualEth := ActualEth(accErc20, price, decimals);
    var actualDealEth := if Abs(accErc20) > actualErc20 then Abs(accEth) else actualEth;
    assert actualDealEth >= 0.0 by {
      if Abs(accErc20) <= actualErc20 && price < 0.0 {
        assert accErc20 == 0.0;
      }
    }
    var dealEth := DealEth(actualDealEth);
    Sizing(actualErc20, actualEth, actualDealEth, dealEth, Direct(accEth, dealEth, price))
  }

  /** The order that hedges an ETH exposure of sign `accEth`: when the
      participant is short ETH, buy `dealEth` ETH by spending its ERC20
      worth `dealEth * price`; otherwise sell `dealEth` ETH. */
  function Direct(accEth: real, dealEth: real, price: real): (o: MarketOrder)
    ensures o.Buy? <==> accEth < 0.0
    ensures o.Buy? ==> o.erc20Amount == dealEth * price
    ensures o.Sell? ==> o.ethAmount == dealEth
  {
    var dealErc20 := dealEth * price;
    if 0.0 > accEth then Buy(dealErc20) else Sell(dealEth)
  }

  /** Folds the settled order back into the post-absorb state `s`
      (`s.accEth` is the exposure that was sized). */
  function Settle(s: PoolState, z: Sizing, price: real, decimals: nat, first: OrderView, second: OrderView): (r: StepResult)
    ensures r.state.previous == s.previous
    ensures r.state.ethThreshold == s.ethThreshold && r.state.erc20Threshold == s.erc20Threshold
    ensures Sent(r.outcome) == Some(z.order)
    ensures CancelRequested(r.outcome) <==> first.state == PARTIAL_FILLED
    ensures first.state == FILLED ==>
      r.state.accEth == 0.0 && r.state.accErc20 == s.accErc20 - z.actualErc20
    ensures first.state != FILLED && !(first.state == PARTIAL_FILLED && CancelSettled(second.state)) ==>
      r.state == s
    ensures (second.amount.None? || second.filledAmount.None?) && first.state != FILLED ==> r.state == s
    ensures r.outcome.Failed? <==>
      first.state == PARTIAL_FILLED && CancelSettled(second.state)
      && second.amount.Some? && second.filledAmount.Some?
      && second.price.Some? && first.price.None?
    ensures r.outcome.Failed? ==> r.state == s && r.outcome.fault == NullPointer
  {
    if first.state == FILLED then
      var cleared := s.(accEth := s.accEth + -s.accEth, accErc20 := s.accErc20 + -z.actualErc20);
      StepResult(cleared, Traded(z.order, Cleared, false))
    else if first.state == PARTIAL_FILLED && CancelSettled(second.state)
      && second.filledAmount.Some? && second.amount.Some? then
      if second.price.Some? && first.price.None? then
        StepResult(s, Failed(NullPointer, Some(z.order), true))
      else
        var unfilled := second.amount.value - second.filledAmount.value;
        var p := if second.price.Some? && first.price.value > 0.0 then second.price.value else price;
        var ethBack := (if 0.0 > s.accEth then unfilled else -unfilled) * UNIT_ETH;
        var worth := Erc20Worth(unfilled, p, decimals);
        var erc20Back := if 0.0 > s.accEth then -worth else worth;
        var adjusted := s.(accEth := s.accEth + ethBack, accErc20 := s.accErc20 + erc20Back);
        StepResult(adjusted, Traded(z.order, Remainder(ethBack, erc20Back), true))
    else
      StepResult(s, Traded(z.order, Unreconciled, first.state == PARTIAL_FILLED))
  }

  /** `hedgingPool`: one polling cycle of one pool. */
  function HedgingPool(s: PoolState, io: Responses): (r: StepResult)
    ensures r.state.ethThreshold == s.ethThreshold && r.state.erc20Threshold == s.erc20Threshold
    ensures r.state.previous == s.previous
      || (io.price.Some? && Read(io.reading).Some? && r.state.previous == Read(io.reading))
    ensures Sent(r.outcome).Some? ==>
      s.previous.Some? && r.state.previous.Some? && r.state.previous != s.previous
    ensures CancelRequested(r.outcome) ==> Sent(r.outcome).Some? && io.first.state == PARTIAL_FILLED
  {
    if io.price.None? then
      StepResult(s, Skipped(PriceUnavailable))
    else
      var price := io.price.value;
      match Read(io.reading)
      case None => StepResult(s, Skipped(IncompleteSnapshot))
      case Some(snap) =>
        var decimals := IntValue(snap.decimals);
        if decimals < 0 then
          StepResult(s, Failed(NegativeExponent, None, false))
        else
          var s1 := s.(previous := Some(snap));
          match s.previous
          case None => StepResult(s1, Skipped(FirstObservation))
          case Some(before) =>
            if snap == before then
              StepResult(s1, Skipped(Unchanged))
            else if snap.totalSupply == 0 || before.totalSupply == 0 then
              StepResult(s1, Failed(DivisionByZero, None, false))
            else
              var deltaEth := DeltaEth(before, snap);
              var deltaErc20 := DeltaErc20(before, snap);
              var s2 := s1.(accEth := s1.accEth + deltaEth, accErc20 := s1.accErc20 + deltaErc20);
              if !SignGateOpen(deltaEth, deltaErc20) then
                StepResult(s2, Skipped(SameSign))
              else if !ThresholdReached(s, deltaEth, deltaErc20) then
                StepResult(s2, Skipped(BelowThreshold))
              else if price == 0.0 then
                StepResult(s2, Failed(DivisionByZero, None, false))
              else
                Settle(s2, Size(s2.accEth, s2.accErc20, price, decimals), price, decimals, io.first, io.second)
  }

  /** The two pools the job hedges, in the order it visits them. */
  datatype Pools = Pools(hbtc: PoolState, usdt: PoolState)

  /** One pass: the pools' next states and each pool's cycle outcome (None
      for a pool the pass did not reach). */
  datatype Pass = Pass(pools: Pools, hbtc: Option<Outcome>, usdt: Option<Outcome>)

  /** `hedging`: when the run flag is off nothing happens; otherwise the
      HBTC pool's cycle runs, then the USDT pool's. An exception in the HBTC
      cycle escapes the pass, so the USDT pool is not reached. */
  function Hedging(start: bool, pools: Pools, hbtcIo: Responses, usdtIo: Responses): (p: Pass)
    ensures !start ==> p == Pass(pools, None, None)
    ensures start ==> p.hbtc.Some? && p.pools.hbtc == HedgingPool(pools.hbtc, hbtcIo).state
    ensures p.usdt.Some? <==> start && !HedgingPool(pools.hbtc, hbtcIo).outcome.Failed?
    ensures p.usdt.None? ==> p.pools.usdt == pools.usdt
    ensures p.usdt.Some? ==> p.pools.usdt == HedgingPool(pools.usdt, usdtIo).state
  {
    if !start then
      Pass(pools, None, None)
    else
      var h := HedgingPool(pools.hbtc, hbtcIo);
      if h.outcome.Failed? then
        Pass(pools.(hbtc := h.state), Some(h.outcome), None)
      else
        var u := HedgingPool(pools.usdt, usdtIo);
        Pass(Pools(h.state, u.state), Some(h.outcome), Some(u.outcome))
  }
}
