/** One observation of a pool (the repository's `PoolAmountVo`) and the
    participant's pro-rata share of its two reserves. */
module PoolAmount {
  import opened Optional

  /** A complete snapshot: the participant's share balance, the pool's total
      share supply, the ETH reserve and the ERC20 reserve (both in the
      token's smallest unit) and the ERC20 token's decimals. Two snapshots
      are equal exactly when all five fields are. */
  datatype Snapshot = Snapshot(balance: int, totalSupply: int, eth: int, erc20: int, decimals: int)

  /** The five pool reads of one cycle; each read may come back null. */
  datatype Reading = Reading(
    balance: Option<int>,
    totalSupply: Option<int>,
    eth: Option<int>,
    erc20: Option<int>,
    decimals: Option<int>)

  /** The snapshot a reading describes, or None when any read is missing. */
  function Read(r: Reading): (o: Option<Snapshot>)
    ensures o.None? <==>
      r.balance.None? || r.totalSupply.None? || r.eth.None? || r.erc20.None? || r.decimals.None?
    ensures o.Some? ==>
      Some(o.value.balance) == r.balance && Some(o.value.totalSupply) == r.totalSupply
      && Some(o.value.eth) == r.eth && Some(o.value.erc20) == r.erc20
      && Some(o.value.decimals) == r.decimals
  {
    match (r.balance, r.totalSupply, r.eth, r.erc20, r.decimals)
    case (Some(b), Some(t), Some(e), Some(c), Some(d)) => Some(Snapshot(b, t, e, c, d))
    case _ => None
  }

  /** The participant's share of a reserve: reserve * balance / totalSupply,
      as an exact quotient. */
  function ProRata(reserve: int, s: Snapshot): (mine: real)
    requires s.totalSupply != 0
    ensures mine * s.totalSupply as real == reserve as real * s.balance as real
  {
    reserve as real * s.balance as real / s.totalSupply as real
  }

  /** `getMyEth`: the participant's share of the ETH reserve. */
  function MyEth(s: Snapshot): real
    requires s.totalSupply != 0
  {
    ProRata(s.eth, s)
  }

  /** `getMyErc20`: the participant's share of the ERC20 reserve. */
  function MyErc20(s: Snapshot): real
    requires s.totalSupply != 0
  {
    ProRata(s.erc20, s)
  }

  /** With the same balance and supply on both sides, the change in the
      participant's share is its pro-rata part of the change in the
      reserve. */
  lemma ShareOfChange(r0: int, r1: int, before: Snapshot, after: Snapshot)
    requires before.totalSupply != 0 && after.totalSupply != 0
    ensures after.balance == before.balance && after.totalSupply == before.totalSupply ==>
      (ProRata(r1, after) - ProRata(r0, before)) * after.totalSupply as real
      == (r1 - r0) as real * after.balance as real
  {
    if after.balance == before.balance && after.totalSupply == before.totalSupply {
      var t := after.totalSupply as real;
      assert (ProRata(r1, after) - ProRata(r0, before)) * t
        == ProRata(r1, after) * t - ProRata(r0, before) * t;
    }
  }

  /** A holder of every share owns the whole reserve, and a holder of no
      share owns nothing. */
  lemma ProRataExtremes(reserve: int, s: Snapshot)
    requires s.totalSupply != 0
    ensures s.balance == s.totalSupply ==> ProRata(reserve, s) == reserve as real
    ensures s.balance == 0 ==> ProRata(reserve, s) == 0.0
  {
  }

  /** 100 of 1000 shares in a pool holding 500 ETH and 2,000,000 ERC20 own
      50 ETH and 200,000 ERC20. */
  lemma ProRataExample()
    ensures var s := Snapshot(100, 1000, 500, 2000000, 6);
      MyEth(s) == 50.0 && MyErc20(s) == 200000.0
  {
  }
}
