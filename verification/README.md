# CoFiX hedger: the per-pool hedging step in Dafny

This project models the hedging job of the CoFiX hedger
(`HedgingJobServiceImpl`). Once per polling cycle, for each of two pools
(HBTC, then USDT), the job does the following:

- reads the exchange price and a five-field pool snapshot;
- compares the snapshot with the one it stored last cycle;
- adds the participant's change in pro-rata ETH and ERC20 holdings to a running
  per-pool accumulator;
- when the instantaneous changes have opposite signs and one of them reaches
  its threshold, sends one market order sized from the accumulators;
- after the settlement wait, folds the order's outcome back into the
  accumulators.

The model is functional. A pool's state (`HedgingJob.PoolState`) holds:

- the previous snapshot, which is the comparison baseline;
- the two accumulators;
- the two thresholds.

A cycle (`HedgingJob.HedgingPool`) is a pure function of that state and of
every external response (`HedgingJob.Responses`). Those responses are the
price, the five pool reads, and the order's first and second status
queries. A cycle returns the next state and an `Outcome`:

- a skip with its reason;
- a trade with the order sent and how it was settled;
- or an exception that escapes the step, with the order if one was already
  sent.

A trade or an exception also records whether the step asked the exchange to
cancel the order (`cancelOrder`, line 186).

Amounts are exact `real`s. The two BigDecimal rounding modes the step uses
are modelled digit-exactly with `Floor`:

- HALF_UP at scale 18 and at scale `decimals`;
- DOWN at scale 18.

`decimals.intValue()` is modelled as Java's 32-bit narrowing.

Modules:

- `Decimal` (decimal.dfy): powers of ten, `RoundHalfUp`, `RoundDown`,
  `IntValue`.
- `PoolAmount` (pool_amount.dfy): the snapshot, the nullable reads, and the
  pro-rata shares.
- `Exchange` (exchange.dfy): order states, status views and market orders.
- `HedgingJob` (hedging_job.dfy): the sign and threshold gates, sizing,
  settlement, the cycle and the two-pool pass.
- `HedgingProperties` (hedging_properties.dfy): the cycle's properties, and
  a replay of many cycles with an invariant proved by induction.

Two behaviours of the code are kept exactly as written:

- After a partial fill, the guard at line 203 tests the FIRST query's price
  (`order.getPrice()`), but it assigns the SECOND query's price
  (`order2.getPrice()`) as the remainder price. The comment at line 202
  ("Prevent the interface from returning 0") suggests that the price being
  assigned was meant to be tested. The first query's price is also
  dereferenced without a null check. So a null first price together with a
  non-null re-queried price throws (`PartialFillNullFirstPriceThrows`).
- A full fill subtracts the sizing-time ERC20 worth whichever side the order
  was on. On the sell side this pushes a negative ERC20 accumulator further
  from zero (`FilledSellDeepensErc20Shortfall`).

## Model

| member | source | states |
|---|---|---|
| HedgingJob.SignGateOpen | Hedging/src/main/java/io/cofix/hedging/service/serviceImpl/HedgingJobServiceImpl.java:41-51 | `isAllNegative(a,b) \|\| isAllPositive(a,b)` is false exactly when the two deltas have strictly opposite signs, so a zero delta always closes the gate |
| HedgingJob.ThresholdReached | Hedging/src/main/java/io/cofix/hedging/service/serviceImpl/HedgingJobServiceImpl.java:119-123 | the cycle goes on exactly when at least one absolute delta is at or above its threshold (both comparisons strict) |
| HedgingJob.DeltaEth | Hedging/src/main/java/io/cofix/hedging/service/serviceImpl/HedgingJobServiceImpl.java:103-106 | the ETH delta added to the old share gives the new share; with balance and supply unchanged it is the participant's pro-rata part of the change in the ETH reserve |
| HedgingJob.DeltaErc20 | Hedging/src/main/java/io/cofix/hedging/service/serviceImpl/HedgingJobServiceImpl.java:104-107 | the same for the ERC20 delta and the ERC20 reserve |
| Exchange.CancelSettled | Hedging/src/main/java/io/cofix/hedging/service/serviceImpl/HedgingJobServiceImpl.java:190-192 | after a cancellation the remainder is reconciled on "canceled", "partial-canceled" or "filled"; an order still reported as "partial-filled" is not settled, and "filled" always is |
| PoolAmount.Read | Hedging/src/main/java/io/cofix/hedging/service/serviceImpl/HedgingJobServiceImpl.java:63-82 | a snapshot exists exactly when none of balance, totalSupply, eth, erc20, decimals is null, and it carries those five values |
| PoolAmount.ProRata | Hedging/src/main/java/io/cofix/hedging/service/serviceImpl/HedgingJobServiceImpl.java:103-107 | the participant's share times the total supply equals reserve times balance |
| PoolAmount.ProRataExtremes | Hedging/src/main/java/io/cofix/hedging/service/serviceImpl/HedgingJobServiceImpl.java:103-104 | holding every share means owning the whole reserve; holding none means owning nothing |
| PoolAmount.ProRataExample | Hedging/src/main/java/io/cofix/hedging/service/serviceImpl/HedgingJobServiceImpl.java:103-104 | 100 of 1000 shares of a 500 / 2,000,000 pool own 50 and 200,000 |
| Decimal.IntValue | Hedging/src/main/java/io/cofix/hedging/service/serviceImpl/HedgingJobServiceImpl.java:86 | `intValue()` yields a 32-bit value congruent to the input modulo 2^32 |
| Decimal.IntValueOfInt | Hedging/src/main/java/io/cofix/hedging/service/serviceImpl/HedgingJobServiceImpl.java:86 | a decimals value that fits in an int passes through the narrowing unchanged |
| Decimal.Pow10 | Hedging/src/main/java/io/cofix/hedging/service/serviceImpl/HedgingJobServiceImpl.java:86 | 10^n is at least 1, and at least 10 for n > 0 |
| Decimal.RoundHalfUp | Hedging/src/main/java/io/cofix/hedging/service/serviceImpl/HedgingJobServiceImpl.java:137-138 | a HALF_UP divide keeps the sign of the exact value (zero stays zero) |
| Decimal.RoundHalfUpBounds | Hedging/src/main/java/io/cofix/hedging/service/serviceImpl/HedgingJobServiceImpl.java:137-138 | a HALF_UP divide at a scale has no digits beyond that scale and is within half a unit of the last digit of the exact value |
| Decimal.RoundDown | Hedging/src/main/java/io/cofix/hedging/service/serviceImpl/HedgingJobServiceImpl.java:157 | a DOWN divide moves toward zero and never past it |
| Decimal.RoundDownBounds | Hedging/src/main/java/io/cofix/hedging/service/serviceImpl/HedgingJobServiceImpl.java:157 | a DOWN divide at a scale has no digits beyond that scale and loses less than one unit of the last digit |
| Decimal.RoundDownFixesScaled | Hedging/src/main/java/io/cofix/hedging/service/serviceImpl/HedgingJobServiceImpl.java:157 | truncating a value that already fits the scale leaves it unchanged |
| Decimal.RoundHalfUpFixesScaled | Hedging/src/main/java/io/cofix/hedging/service/serviceImpl/HedgingJobServiceImpl.java:138 | rounding half-up a value that already fits the scale leaves it unchanged |
| Decimal.RoundHalfUpTiesAway | Hedging/src/main/java/io/cofix/hedging/service/serviceImpl/HedgingJobServiceImpl.java:137-138 | HALF_UP's tie rule: a value exactly halfway between two decimals at the scale moves away from zero by half a unit, so its magnitude grows |
| Decimal.RoundHalfUpExamples | Hedging/src/main/java/io/cofix/hedging/service/serviceImpl/HedgingJobServiceImpl.java:137-138 | 2.5 and -2.5 round to 3 and -3 at scale 0; 0.125 rounds to 0.13 at scale 2 |
| HedgingJob.ActualErc20 | Hedging/src/main/java/io/cofix/hedging/service/serviceImpl/HedgingJobServiceImpl.java:136-140 | the ERC20 worth of the ETH exposure has the sign of the price |
| HedgingJob.ActualErc20IsWorthOfExposure | Hedging/src/main/java/io/cofix/hedging/service/serviceImpl/HedgingJobServiceImpl.java:136-140 | that worth differs from the exact worth of the exposure at the price by at most the half-unit rounding of the ETH amount, scaled by price and 10^decimals |
| HedgingJob.WorthError | Hedging/src/main/java/io/cofix/hedging/service/serviceImpl/HedgingJobServiceImpl.java:136-140 | pricing two ETH amounts within half a unit of the last place of each other gives ERC20 worths within half of abs(price) times 10^decimals of those units |
| HedgingJob.ActualEth | Hedging/src/main/java/io/cofix/hedging/service/serviceImpl/HedgingJobServiceImpl.java:144-148 | the ETH worth of the ERC20 exposure is non-negative at a positive price and zero for a zero exposure |
| HedgingJob.DealEth | Hedging/src/main/java/io/cofix/hedging/service/serviceImpl/HedgingJobServiceImpl.java:157 | `dealEth` is at least 0, at most `actualDealEth / UNIT_ETH`, less than 10^-18 below it, and has at most 18 decimal places |
| HedgingJob.Size | Hedging/src/main/java/io/cofix/hedging/service/serviceImpl/HedgingJobServiceImpl.java:136-165 | the traded exposure is the absolute ETH accumulator when the absolute ERC20 accumulator exceeds the ETH exposure's ERC20 worth, and the ERC20 exposure's ETH worth otherwise; it is never negative, at any non-zero price |
| HedgingJob.Direct | Hedging/src/main/java/io/cofix/hedging/service/serviceImpl/HedgingJobServiceImpl.java:157-165 | the order is a buy for `dealEth * price` exactly when the ETH accumulator is negative, otherwise a sell for `dealEth` |
| HedgingJob.Settle | Hedging/src/main/java/io/cofix/hedging/service/serviceImpl/HedgingJobServiceImpl.java:174-223 | settling sends exactly the sized order and keeps baseline and thresholds. On "filled" the ETH accumulator becomes 0 and the ERC20 accumulator loses the sizing-time worth. Any state other than "filled" or a settled partial fill keeps the accumulators. It throws exactly on a null first-query price with a non-null re-queried price. It requests a cancellation exactly when the first query reports "partial-filled" |
| HedgingJob.HedgingPool | Hedging/src/main/java/io/cofix/hedging/service/serviceImpl/HedgingJobServiceImpl.java:53-224 | a cycle never changes the thresholds. It replaces the baseline only with a complete fresh reading. It sends an order only when there was a baseline and the pool moved. It requests a cancellation only for an order it sent, after a "partial-filled" first query |
| HedgingJob.Hedging | Hedging/src/main/java/io/cofix/hedging/service/serviceImpl/HedgingJobServiceImpl.java:230-240 | with START off nothing changes. Otherwise the HBTC cycle runs first, and the USDT cycle runs exactly when the HBTC cycle did not throw |
| HedgingProperties.Absorbed | Hedging/src/main/java/io/cofix/hedging/service/serviceImpl/HedgingJobServiceImpl.java:89-112 | after the comparison the baseline is the new snapshot and each accumulator has grown by exactly this cycle's delta |
| HedgingProperties.MissingInputChangesNothing | Hedging/src/main/java/io/cofix/hedging/service/serviceImpl/HedgingJobServiceImpl.java:55-82 | a null price or any null pool read leaves baseline and accumulators unchanged, with no order |
| HedgingProperties.NegativeExponentChangesNothing | Hedging/src/main/java/io/cofix/hedging/service/serviceImpl/HedgingJobServiceImpl.java:84-91 | a negative exponent throws before the baseline is written |
| HedgingProperties.BaselineAlwaysReplaced | Hedging/src/main/java/io/cofix/hedging/service/serviceImpl/HedgingJobServiceImpl.java:88-101 | past those checks the baseline always becomes the new snapshot. A first observation, or an unchanged snapshot, then ends the cycle with nothing absorbed and no order |
| HedgingProperties.SkipsKeepAbsorbedDeltas | Hedging/src/main/java/io/cofix/hedging/service/serviceImpl/HedgingJobServiceImpl.java:103-123 | every cycle that compares snapshots but sends no order ends with accumulators equal to the old ones plus the deltas |
| HedgingProperties.OrderPlacedIffGatesPass | Hedging/src/main/java/io/cofix/hedging/service/serviceImpl/HedgingJobServiceImpl.java:114-165 | an order is sent if and only if the snapshots were compared, the instantaneous deltas have opposite signs, one reaches its threshold, and the price is non-zero |
| HedgingProperties.GatesIgnoreAccumulators | Hedging/src/main/java/io/cofix/hedging/service/serviceImpl/HedgingJobServiceImpl.java:114-123 | whether an order is sent does not depend on the accumulated values, only on the instantaneous deltas |
| HedgingProperties.ZeroDeltaNeverHedges | Hedging/src/main/java/io/cofix/hedging/service/serviceImpl/HedgingJobServiceImpl.java:114-117 | a zero delta in either asset ends the cycle as a same-sign skip, with the deltas absorbed |
| HedgingProperties.HedgingCycleSettles | Hedging/src/main/java/io/cofix/hedging/service/serviceImpl/HedgingJobServiceImpl.java:125-175 | a hedging cycle sizes on the absorbed accumulators and settles the one order against the absorbed state |
| HedgingProperties.OrderFollowsAccumulatedExposure | Hedging/src/main/java/io/cofix/hedging/service/serviceImpl/HedgingJobServiceImpl.java:152-165 | the single order sent is a buy exactly when the accumulated ETH exposure is negative. Its ETH amount is between 0 and the picked exposure in ETH |
| HedgingProperties.FilledClearsSizedExposure | Hedging/src/main/java/io/cofix/hedging/service/serviceImpl/HedgingJobServiceImpl.java:177-181 | on "filled" the ETH accumulator ends at 0 and the ERC20 accumulator at absorbed minus the sizing-time worth, which is non-negative at a positive price |
| HedgingProperties.FilledIgnoresReportedAmounts | Hedging/src/main/java/io/cofix/hedging/service/serviceImpl/HedgingJobServiceImpl.java:177-181 | after "filled", the reported amount, filled amount, price and the second query have no effect on the result |
| HedgingProperties.FilledSettleIgnoresReports | Hedging/src/main/java/io/cofix/hedging/service/serviceImpl/HedgingJobServiceImpl.java:177-181 | the same, stated for any absorbed state and sizing: two "filled" reports settle identically whatever else they carry |
| HedgingProperties.FilledSellDeepensErc20Shortfall | Hedging/src/main/java/io/cofix/hedging/service/serviceImpl/HedgingJobServiceImpl.java:159-181 | on a filled sell at a positive price, a negative ERC20 accumulator does not move toward zero |
| HedgingProperties.PartialFillReturnsRemainder | Hedging/src/main/java/io/cofix/hedging/service/serviceImpl/HedgingJobServiceImpl.java:182-223 | after a partial fill and a settled cancellation with both amounts present, the remainder `amount - filled` comes back. It is added in wei to the ETH leg and at the remainder price, times 10^decimals, to the ERC20 leg. The ERC20 leg is negated on a buy and the ETH leg on a sell |
| HedgingProperties.SettleReturnsRemainder | Hedging/src/main/java/io/cofix/hedging/service/serviceImpl/HedgingJobServiceImpl.java:190-220 | the same remainder legs, stated for any absorbed state and sizing |
| HedgingProperties.RemainderLegsOppose | Hedging/src/main/java/io/cofix/hedging/service/serviceImpl/HedgingJobServiceImpl.java:207-219 | with a positive remainder at a positive price, the two legs have opposite signs, and the ETH leg is positive exactly on the buy side |
| HedgingProperties.PartialFillNullFirstPriceThrows | Hedging/src/main/java/io/cofix/hedging/service/serviceImpl/HedgingJobServiceImpl.java:199-204 | a non-null re-queried price with a null first-query price throws, with the order sent and the accumulators as absorbed |
| HedgingProperties.CancelIffPartialFill | Hedging/src/main/java/io/cofix/hedging/service/serviceImpl/HedgingJobServiceImpl.java:182-186 | a cycle asks the exchange to cancel its order exactly when it placed one and the first query reported "partial-filled" |
| HedgingProperties.UnsettledKeepsAbsorbed | Hedging/src/main/java/io/cofix/hedging/service/serviceImpl/HedgingJobServiceImpl.java:178-223 | any other first state, an unsettled cancellation, or a missing amount leaves the accumulators as absorbed |
| HedgingProperties.PoolsAreIndependent | Hedging/src/main/java/io/cofix/hedging/service/serviceImpl/HedgingJobServiceImpl.java:231-240 | with START off a pass changes neither pool. The HBTC pool's result never depends on the USDT pool's state or reads |
| HedgingProperties.UsdtIgnoresHbtc | Hedging/src/main/java/io/cofix/hedging/service/serviceImpl/HedgingJobServiceImpl.java:238-239 | when the HBTC cycle does not throw, the USDT pool ends as its own cycle alone leaves it |
| HedgingProperties.Replay | Hedging/src/main/java/io/cofix/hedging/service/serviceImpl/HedgingJobServiceImpl.java:230-240 | any number of cycles keeps the thresholds, and once a baseline exists it is never dropped |
| HedgingProperties.SkippedCycleTracksShare | Hedging/src/main/java/io/cofix/hedging/service/serviceImpl/HedgingJobServiceImpl.java:89-123 | a skipped cycle moves each accumulator by exactly the change in the participant's share between old and new baseline |
| HedgingProperties.SkippedRunTracksShare | Hedging/src/main/java/io/cofix/hedging/service/serviceImpl/HedgingJobServiceImpl.java:103-123 | across any run of skipped cycles, each accumulator grows by exactly the share change between the first and the last baseline, so skips never reset exposure |

## Left out

- Spring wiring, logging and `toPlainString` formatting are left out. The
  amounts are sent as exact decimals.
- The two-second `Thread.sleep` and its `InterruptedException` handler are
  left out. The wait is a no-op between sending the order and the first
  query.
- The Huobi trading client and the pool service are left out. Their
  results (price, the five reads, the order's two status views) are inputs.
  A null order returned by `getOrderById` is not modelled. A null order
  state is any string other than the four recognised ones.
- `START` is a parameter of `Hedging`, not process-wide mutable state.
- `PoolAmountVo` is not part of this model. `getMyEth` / `getMyErc20` are
  taken as the exact pro-rata quotient `reserve * balance / totalSupply`.
  This is an assumption: a BigDecimal division either rounds at some scale
  or throws on a non-terminating quotient such as 1/3, and which one the
  Java code does is not visible. A zero total supply is taken to throw a division by zero. Equality is
  taken as equality of the five fields.
- `Constant` is not part of this model. `UNIT_ETH` is taken as 10^18 (wei
  per ETH). Only its positivity is used in the proofs.
- `BigInteger.pow` for very large exponents, and the resulting memory
  exhaustion, are not modelled. Any non-negative narrowed exponent is
  accepted.
- HedgingJob.ActualEth: states only the sign of the ETH worth, not its
  distance from the exact quotient, which carries two successive roundings.
