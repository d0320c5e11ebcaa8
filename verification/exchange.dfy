/** What the hedging step sends to, and reads back from, the exchange. */
module Exchange {
  import opened Optional

  /** Order states the step recognises; every other state string (including
      a null one) falls through its branches. */
  const FILLED: string := "filled"
  const PARTIAL_FILLED: string := "partial-filled"
  const CANCELED: string := "canceled"
  const PARTIAL_CANCELED: string := "partial-canceled"

  /** One status query of an order: its state and the three amounts the step
      reads, each of which may be null. */
  datatype OrderView = OrderView(state: string, amount: Option<real>, filledAmount: Option<real>, price: Option<real>)

  /** A market order: a buy spends `erc20Amount` of the quote token on ETH,
      a sell sells `ethAmount` ETH. */
  datatype MarketOrder = Buy(erc20Amount: real) | Sell(ethAmount: real)

  /** The states after a cancellation in which the step folds the unfilled
      remainder back into the accumulators: the order is no longer open,
      whether it was cancelled or completed meanwhile. An order still
      reported as partially filled has not settled. */
  predicate CancelSettled(state: string): (settled: bool)
    ensures settled ==> state != PARTIAL_FILLED
    ensures state == FILLED ==> settled
  {
    state == CANCELED || state == PARTIAL_CANCELED || state == FILLED
  }
}
