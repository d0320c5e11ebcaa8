/** What one hedging cycle promises, stated against the pool's state before
    the cycle, and what a sequence of cycles keeps. */
module HedgingProperties {
  import opened Optional
  import opened Decimal
  import opened PoolAmount
  import opened Exchange
  import opened HedgingJob

  /** The cycle gets as far as comparing two different snapshots: a price
      and a complete reading came back, the decimals are a usable exponent,
      there is a baseline, the pool moved, and both supplies are non-zero. */
  predicate Compared(s: PoolState, io: Responses) {
    && io.price.Some?
    && Read(io.reading).Some?
    && IntValue(Read(io.reading).value.decimals) >= 0
    && s.previous.Some?
    && Read(io.reading).value != s.previous.value
    && Read(io.reading).value.totalSupply != 0
    && s.previous.value.totalSupply != 0
  }

  /** This cycle's change in the participant's share of each reserve. */
  function CycleDeltaEth(s: PoolState, io: Responses): real
    requires Compared(s, io)
  {
    DeltaEth(s.previous.value, Read(io.reading).value)
  }

  function CycleDeltaErc20(s: PoolState, io: Responses): real
    requires Compared(s, io)
  {
    DeltaErc20(s.previous.value, Read(io.reading).value)
  }

  /** The state once the new baseline is stored and the deltas absorbed. */
  function Absorbed(s: PoolState, io: Responses): (a: PoolState)
    requires Compared(s, io)
    ensures a.previous == Read(io.reading)
    ensures a.accEth - s.accEth == CycleDeltaEth(s, io)
    ensures a.accErc20 - s.accErc20 == CycleDeltaErc20(s, io)
    ensures a.ethThreshold == s.ethThreshold && a.erc20Threshold == s.erc20Threshold
  {
    s.(previous := Read(io.reading),
       accEth := s.accEth + CycleDeltaEth(s, io),
       accErc20 := s.accErc20 + CycleDeltaErc20(s, io))
  }

  /** The cycle passes both gates and the price can be divided by. */
  predicate Hedges(s: PoolState, io: Responses) {
    && Compared(s, io)
    && SignGateOpen(CycleDeltaEth(s, io), CycleDeltaErc20(s, io))
    && ThresholdReached(s, CycleDeltaEth(s, io), CycleDeltaErc20(s, io))
    && io.price.value != 0.0
  }

  /** The decimals of the cycle's reading, as the exponent the cycle uses. */
  function Exponent(io: Responses): nat
    requires io.price.Some? && Read(io.reading).Some? && IntValue(Read(io.reading).value.decimals) >= 0
  {
    IntValue(Read(io.reading).value.decimals)
  }

  /** The sizing of a hedging cycle, made on the absorbed accumulators. */
  function CycleSizing(s: PoolState, io: Responses): Sizing
    requires Hedges(s, io)
  {
    var a := Absorbed(s, io);
    Size(a.accEth, a.accErc20, io.price.value, Exponent(io))
  }

  /** Without a price, or with any pool read missing, the cycle changes
      nothing and places no order; the baseline is not written. */
  lemma MissingInputChangesNothing(s: PoolState, io: Responses)
    requires io.price.None? || Read(io.reading).None?
    ensures HedgingPool(s, io).state == s
    ensures HedgingPool(s, io).outcome.Skipped?
    ensures io.price.None? ==> HedgingPool(s, io).outcome.why == PriceUnavailable
  {
  }

  /** A decimals value whose 32-bit narrowing is negative makes
      `BigInteger.pow` throw before the baseline is written. */
  lemma NegativeExponentChangesNothing(s: PoolState, io: Responses)
    requires io.price.Some? && Read(io.reading).Some?
    requires IntValue(Read(io.reading).value.decimals) < 0
    ensures HedgingPool(s, io) == StepResult(s, Failed(NegativeExponent, None, false))
  {
  }

  /** Once the inputs are present, the new snapshot becomes the baseline
      whatever happens next. A first observation, or a snapshot equal to the
      baseline, ends the cycle there with the accumulators untouched. */
  lemma BaselineAlwaysReplaced(s: PoolState, io: Responses)
    requires io.price.Some? && Read(io.reading).Some?
    requires IntValue(Read(io.reading).value.decimals) >= 0
    ensures HedgingPool(s, io).state.previous == Read(io.reading)
    ensures s.previous.None? ==>
      HedgingPool(s, io) == StepResult(s.(previous := Read(io.reading)), Skipped(FirstObservation))
    ensures s.previous == Read(io.reading) ==>
      HedgingPool(s, io) == StepResult(s, Skipped(Unchanged))
  {
  }

  /** Every cycle that compares two snapshots but places no order leaves
      the accumulators at their old values plus this cycle's deltas. */
  lemma SkipsKeepAbsorbedDeltas(s: PoolState, io: Responses)
    requires Compared(s, io)
    requires Sent(HedgingPool(s, io).outcome).None?
    ensures HedgingPool(s, io).state == Absorbed(s, io)
  {
  }

  /** An order is placed exactly when the cycle compares two snapshots
      whose instantaneous deltas have strictly opposite signs, at least one
      delta reaches its threshold, and the price is not zero. */
  lemma OrderPlacedIffGatesPass(s: PoolState, io: Responses)
    ensures Sent(HedgingPool(s, io).outcome).Some? <==> Hedges(s, io)
  {
    var r := HedgingPool(s, io);
    if Hedges(s, io) {
      HedgingCycleSettles(s, io);
    }
  }

  /** The gates look only at the instantaneous deltas: two pools that agree
      on everything but their accumulators place an order in the same
      cycles. */
  lemma GatesIgnoreAccumulators(s: PoolState, t: PoolState, io: Responses)
    requires t == s.(accEth := t.accEth, accErc20 := t.accErc20)
    ensures Sent(HedgingPool(s, io).outcome).Some? <==> Sent(HedgingPool(t, io).outcome).Some?
  {
    OrderPlacedIffGatesPass(s, io);
    OrderPlacedIffGatesPass(t, io);
    if Compared(s, io) {
      assert CycleDeltaEth(s, io) == CycleDeltaEth(t, io);
      assert CycleDeltaErc20(s, io) == CycleDeltaErc20(t, io);
    }
  }

  /** A zero delta in either asset never produces an order, whatever the
      thresholds and accumulators. */
  lemma ZeroDeltaNeverHedges(s: PoolState, io: Responses)
    requires Compared(s, io)
    requires CycleDeltaEth(s, io) == 0.0 || CycleDeltaErc20(s, io) == 0.0
    ensures HedgingPool(s, io) == StepResult(Absorbed(s, io), Skipped(SameSign))
  {
  }

  /** A hedging cycle sizes on the absorbed accumulators, sends the one
      order that sizing directs, and settles it against the absorbed state. */
  lemma HedgingCycleSettles(s: PoolState, io: Responses)
    requires Hedges(s, io)
    ensures HedgingPool(s, io)
      == Settle(Absorbed(s, io), CycleSizing(s, io), io.price.value, Exponent(io), io.first, io.second)
  {
  }

  /** The order a hedging cycle sends: a buy iff the accumulated ETH
      exposure is negative, for an ETH amount at most the picked exposure
      in ETH. */
  lemma OrderFollowsAccumulatedExposure(s: PoolState, io: Responses)
    requires Hedges(s, io)
    ensures var z := CycleSizing(s, io);
      && Sent(HedgingPool(s, io).outcome) == Some(z.order)
      && (z.order.Buy? <==> Absorbed(s, io).accEth < 0.0)
      && 0.0 <= z.dealEth <= z.actualDealEth / UNIT_ETH
      && (Abs(Absorbed(s, io).accErc20) > z.actualErc20 ==> z.actualDealEth == Abs(Absorbed(s, io).accEth))
  {
    HedgingCycleSettles(s, io);
  }

  /** A first query that reports "filled" zeroes the ETH accumulator and
      takes the sizing-time ERC20 worth off the ERC20 accumulator. */
  lemma FilledClearsSizedExposure(s: PoolState, io: Responses)
    requires Hedges(s, io)
    requires io.first.state == FILLED
    ensures HedgingPool(s, io).state.accEth == 0.0
    ensures HedgingPool(s, io).state.accErc20 == Absorbed(s, io).accErc20 - CycleSizing(s, io).actualErc20
    ensures io.price.value > 0.0 ==> CycleSizing(s, io).actualErc20 >= 0.0
    ensures HedgingPool(s, io).outcome == Traded(CycleSizing(s, io).order, Cleared, false)
  {
    HedgingCycleSettles(s, io);
  }

  /** After a full fill, the order's reported amounts, price and the second
      query play no part: two cycles that differ only there end alike. */
  lemma FilledIgnoresReportedAmounts(s: PoolState, io: Responses, first': OrderView, second': OrderView)
    requires Hedges(s, io)
    requires io.first.state == FILLED && first'.state == FILLED
    ensures HedgingPool(s, io) == HedgingPool(s, io.(first := first', second := second'))
  {
    var io' := io.(first := first', second := second');
    HedgingCycleSettles(s, io);
    HedgingCycleSettles(s, io');
    assert Absorbed(s, io) == Absorbed(s, io') && CycleSizing(s, io) == CycleSizing(s, io');
    FilledSettleIgnoresReports(Absorbed(s, io), CycleSizing(s, io), io.price.value, Exponent(io),
                               io.first, io.second, first', second');
  }

  /** `Settle` on its own: a "filled" first state decides the settlement
      whatever else either query reports. */
  lemma FilledSettleIgnoresReports(a: PoolState, z: Sizing, price: real, d: nat,
                                   first: OrderView, second: OrderView, first': OrderView, second': OrderView)
    requires first.state == FILLED && first'.state == FILLED
    ensures Settle(a, z, price, d, first, second) == Settle(a, z, price, d, first', second')
  {
  }

  /** Selling ETH on a full fill moves a negative ERC20 accumulator further
      from zero: the fill subtracts the ERC20 worth on both sides, although
      a sell brings ERC20 in. */
  lemma FilledSellDeepensErc20Shortfall(s: PoolState, io: Responses)
    requires Hedges(s, io)
    requires io.first.state == FILLED && io.price.value > 0.0
    requires Absorbed(s, io).accEth > 0.0 && Absorbed(s, io).accErc20 < 0.0
    ensures CycleSizing(s, io).order.Sell?
    ensures HedgingPool(s, io).state.accErc20 <= Absorbed(s, io).accErc20
  {
    FilledClearsSizedExposure(s, io);
  }

  /** The price the remainder is valued at: the re-queried price when it is
      present and the first query's price is positive, else the exchange
      price of the cycle. */
  function RemainderPrice(io: Responses): real
    requires io.price.Some?
    requires io.second.price.Some? ==> io.first.price.Some?
  {
    if io.second.price.Some? && io.first.price.value > 0.0 then io.second.price.value else io.price.value
  }

  /** `r` is the absorbed state `a` with the remainder of `order` added back:
      `unfilled` ETH in wei on the ETH leg and its `worth` in minor units on
      the ERC20 leg, the ERC20 leg negated for a buy and the ETH leg negated
      for a sell. */
  predicate ReturnsRemainder(a: PoolState, r: StepResult, order: MarketOrder, unfilled: real, worth: real) {
    && r.outcome.Traded? && r.outcome.order == order && r.outcome.settlement.Remainder?
    && r.state.previous == a.previous
    && r.state.ethThreshold == a.ethThreshold && r.state.erc20Threshold == a.erc20Threshold
    && r.state.accEth == a.accEth + r.outcome.settlement.ethBack
    && r.state.accErc20 == a.accErc20 + r.outcome.settlement.erc20Back
    && (a.accEth < 0.0 ==>
          r.outcome.settlement.ethBack == unfilled * UNIT_ETH && r.outcome.settlement.erc20Back == -worth)
    && (a.accEth >= 0.0 ==>
          r.outcome.settlement.ethBack == -unfilled * UNIT_ETH && r.outcome.settlement.erc20Back == worth)
  }

  /** A partial fill whose cancellation settled, with both amounts
      reported, adds the unfilled remainder back at the remainder price. */
  lemma PartialFillReturnsRemainder(s: PoolState, io: Responses)
    requires Hedges(s, io)
    requires io.first.state == PARTIAL_FILLED && CancelSettled(io.second.state)
    requires io.second.amount.Some? && io.second.filledAmount.Some?
    requires io.second.price.Some? ==> io.first.price.Some?
    ensures ReturnsRemainder(Absorbed(s, io), HedgingPool(s, io), CycleSizing(s, io).order,
                             io.second.amount.value - io.second.filledAmount.value,
                             Erc20Worth(io.second.amount.value - io.second.filledAmount.value,
                                        RemainderPrice(io), Exponent(io)))
  {
    HedgingCycleSettles(s, io);
    SettleReturnsRemainder(Absorbed(s, io), CycleSizing(s, io), io.price.value, Exponent(io), io.first, io.second,
                           RemainderPrice(io));
  }

  /** `Settle` on its own: the remainder legs of a settled cancellation. */
  lemma SettleReturnsRemainder(a: PoolState, z: Sizing, price: real, d: nat, first: OrderView, second: OrderView,
                                p: real)
    requires first.state == PARTIAL_FILLED && CancelSettled(second.state)
    requires second.amount.Some? && second.filledAmount.Some?
    requires second.price.Some? ==> first.price.Some?
    requires p == if second.price.Some? && first.price.value > 0.0 then second.price.value else price
    ensures ReturnsRemainder(a, Settle(a, z, price, d, first, second), z.order,
                             second.amount.value - second.filledAmount.value,
                             Erc20Worth(second.amount.value - second.filledAmount.value, p, d))
  {
  }

  /** With a positive remainder valued at a positive price, the two legs
      added back have opposite signs, and the ETH leg is positive exactly
      on the buy side. */
  lemma RemainderLegsOppose(s: PoolState, io: Responses)
    requires Hedges(s, io)
    requires io.first.state == PARTIAL_FILLED && CancelSettled(io.second.state)
    requires io.second.amount.Some? && io.second.filledAmount.Some?
    requires io.second.price.Some? ==> io.first.price.Some?
    requires io.second.amount.value > io.second.filledAmount.value
    requires RemainderPrice(io) > 0.0
    ensures var st := HedgingPool(s, io).outcome.settlement;
      && HedgingPool(s, io).outcome.Traded? && st.Remainder?
      && (st.ethBack > 0.0 <==> CycleSizing(s, io).order.Buy?)
      && (st.ethBack > 0.0 <==> st.erc20Back < 0.0)
  {
    PartialFillReturnsRemainder(s, io);
    OrderFollowsAccumulatedExposure(s, io);
    var unfilled := io.second.amount.value - io.second.filledAmount.value;
    WorthOfPositive(unfilled, RemainderPrice(io), Exponent(io));
  }

  /** A cycle asks the exchange to cancel exactly when it placed an order
      and the first query after the wait reported "partial-filled". */
  lemma CancelIffPartialFill(s: PoolState, io: Responses)
    ensures CancelRequested(HedgingPool(s, io).outcome)
      <==> Hedges(s, io) && io.first.state == PARTIAL_FILLED
  {
    if Hedges(s, io) {
      HedgingCycleSettles(s, io);
    } else {
      OrderPlacedIffGatesPass(s, io);
    }
  }

  /** A partial fill whose re-query reports a price while the first query
      reported none dereferences the null price: the exception escapes with
      the order already sent and the accumulators as absorbed. */
  lemma PartialFillNullFirstPriceThrows(s: PoolState, io: Responses)
    requires Hedges(s, io)
    requires io.first.state == PARTIAL_FILLED && CancelSettled(io.second.state)
    requires io.second.amount.Some? && io.second.filledAmount.Some?
    requires io.second.price.Some? && io.first.price.None?
    ensures HedgingPool(s, io) == StepResult(Absorbed(s, io), Failed(NullPointer, Some(CycleSizing(s, io).order), true))
  {
    HedgingCycleSettles(s, io);
  }

  /** Every other settlement leaves the accumulators as absorbed: a first
      state other than "filled" or "partial-filled", a cancellation that did
      not settle, or a missing amount. */
  lemma UnsettledKeepsAbsorbed(s: PoolState, io: Responses)
    requires Hedges(s, io)
    requires io.first.state != FILLED
    requires io.first.state != PARTIAL_FILLED || !CancelSettled(io.second.state)
      || io.second.amount.None? || io.second.filledAmount.None?
    ensures HedgingPool(s, io) == StepResult(Absorbed(s, io), Traded(CycleSizing(s, io).order, Unreconciled,
      io.first.state == PARTIAL_FILLED))
  {
    HedgingCycleSettles(s, io);
  }

  /** With the run flag off a pass touches neither pool; with it on, each
      pool's next state depends only on that pool's own state and reads. */
  lemma PoolsAreIndependent(start: bool, pools: Pools, others: Pools, hbtcIo: Responses, usdtIo: Responses,
                            otherHbtcIo: Responses, otherUsdtIo: Responses)
    requires pools.hbtc == others.hbtc && hbtcIo == otherHbtcIo
    ensures !start ==> Hedging(start, pools, hbtcIo, usdtIo).pools == pools
    ensures Hedging(start, pools, hbtcIo, usdtIo).pools.hbtc == Hedging(start, others, otherHbtcIo, otherUsdtIo).pools.hbtc
    ensures pools.usdt == others.usdt && usdtIo == otherUsdtIo ==>
      Hedging(start, pools, hbtcIo, usdtIo) == Hedging(start, others, otherHbtcIo, otherUsdtIo)
  {
  }

  /** The USDT pool's cycle does not see the HBTC pool: when the HBTC cycle
      completes, the USDT pool ends as its own cycle alone would leave it. */
  lemma UsdtIgnoresHbtc(pools: Pools, hbtc': PoolState, hbtcIo: Responses, hbtcIo': Responses, usdtIo: Responses)
    requires !HedgingPool(pools.hbtc, hbtcIo).outcome.Failed?
    requires !HedgingPool(hbtc', hbtcIo').outcome.Failed?
    ensures Hedging(true, pools, hbtcIo, usdtIo).pools.usdt
      == Hedging(true, pools.(hbtc := hbtc'), hbtcIo', usdtIo).pools.usdt
      == HedgingPool(pools.usdt, usdtIo).state
  {
  }

  /** A pool driven through a sequence of cycles: its final state and each
      cycle's outcome, in order. */
  function Replay(s: PoolState, ios: seq<Responses>): (r: (PoolState, seq<Outcome>))
    ensures |r.1| == |ios|
    ensures r.0.ethThreshold == s.ethThreshold && r.0.erc20Threshold == s.erc20Threshold
    ensures s.previous.Some? ==> r.0.previous.Some?
    decreases |ios|
  {
    if |ios| == 0 then (s, [])
    else
      var step := HedgingPool(s, ios[0]);
      var rest := Replay(step.state, ios[1..]);
      (rest.0, [step.outcome] + rest.1)
  }

  /** A baseline the share formula can read: present, with a non-zero
      supply. */
  predicate Based(s: PoolState) {
    s.previous.Some? && s.previous.value.totalSupply != 0
  }

  /** One cycle that ends in a skip moves each accumulator by exactly the
      change in the participant's share between the old and new baseline. */
  lemma SkippedCycleTracksShare(s: PoolState, io: Responses)
    requires Based(s)
    requires HedgingPool(s, io).outcome.Skipped?
    ensures Based(HedgingPool(s, io).state)
    ensures HedgingPool(s, io).state.accEth - s.accEth
      == MyEth(HedgingPool(s, io).state.previous.value) - MyEth(s.previous.value)
    ensures HedgingPool(s, io).state.accErc20 - s.accErc20
      == MyErc20(HedgingPool(s, io).state.previous.value) - MyErc20(s.previous.value)
  {
  }

  /** Skipped cycles never reset exposure: across any run of cycles that
      all end in skips, each accumulator grows by exactly the change in the
      participant's share between the first and the last baseline. */
  lemma {:induction false} SkippedRunTracksShare(s: PoolState, ios: seq<Responses>)
    requires Based(s)
    requires forall i :: 0 <= i < |ios| ==> Replay(s, ios).1[i].Skipped?
    ensures Based(Replay(s, ios).0)
    ensures Replay(s, ios).0.accEth - s.accEth == MyEth(Replay(s, ios).0.previous.value) - MyEth(s.previous.value)
    ensures Replay(s, ios).0.accErc20 - s.accErc20
      == MyErc20(Replay(s, ios).0.previous.value) - MyErc20(s.previous.value)
    decreases |ios|
  {
    if |ios| > 0 {
      var step := HedgingPool(s, ios[0]);
      var rest := Replay(step.state, ios[1..]);
      assert Replay(s, ios) == (rest.0, [step.outcome] + rest.1);
      assert Replay(s, ios).1[0] == step.outcome;
      SkippedCycleTracksShare(s, ios[0]);
      forall i | 0 <= i < |ios[1..]|
        ensures rest.1[i].Skipped?
      {
        assert rest.1[i] == Replay(s, ios).1[i + 1];
      }
      SkippedRunTracksShare(step.state, ios[1..]);
    }
  }
}
