/** Emission against the pool totals, on every chain reachable from genesis. */
module Supply {
  import opened Types
  import opened Data
  import opened Oracles
  import opened Ledgers
  import opened Replay
  import opened Consensus
  import opened Emission
  import Pools
  import ShieldedPool

  /** Net value that bundles move out of the ring pool. */
  function CrossSum(bundles: seq<Bundle>): int {
    if bundles == [] then 0 else CrossSum(bundles[1..]) - bundles[0].valueBalance as int
  }

  lemma {:induction false} ScanMovesCrossings(
    p: ShieldedPool.PoolState, bundles: seq<Bundle>, acc: ShieldedPool.Scan)
    requires ShieldedPool.ScanBundles(p, bundles, acc).Ok?
    ensures var totals := ShieldedPool.ScanBundles(p, bundles, acc).value.totals;
            totals.ring == acc.totals.ring - CrossSum(bundles) &&
            totals.shielded == acc.totals.shielded + CrossSum(bundles)
    decreases |bundles|
  {
    if bundles != [] {
      var step := ShieldedPool.ScanBundle(p, bundles[0], acc).value;
      Pools.CrossingIsConservative(acc.totals, bundles[0].Cross().value);
      ScanMovesCrossings(p, bundles[1..], step);
    }
  }

  lemma CreditMoves(t: Pools.Totals, credit: ShieldedPool.CoinbaseCredit)
    requires ShieldedPool.Credited(t, credit).Ok?
    ensures ShieldedPool.Credited(t, credit).value ==
            if credit.pool == Pools.Ring then Pools.Totals(t.ring + credit.subsidy, t.shielded)
            else Pools.Totals(t.ring - credit.fees, t.shielded + credit.subsidy + credit.fees)
  {
  }

  /** A block moves each pool by what it credits and crosses, as exact integers. */
  lemma ApplyMovesTotals(
    o: Crypto, p: ShieldedPool.PoolState, bundles: seq<Bundle>, credit: ShieldedPool.CoinbaseCredit,
    height: U64, maturity: U64)
    requires ShieldedPool.Apply(o, p, bundles, credit, height, maturity).Ok?
    ensures var after := ShieldedPool.Apply(o, p, bundles, credit, height, maturity).value.after.totals;
            after.ring == p.totals.ring - CrossSum(bundles) +
                          (if credit.pool == Pools.Ring then credit.subsidy as int else -(credit.fees as int)) &&
            after.Supply() == p.totals.Supply() + credit.subsidy
  {
    CreditMoves(p.totals, credit);
    ScanMovesCrossings(p, bundles, ShieldedPool.Scan([], ShieldedPool.Credited(p.totals, credit).value));
  }

  ghost predicate SupplyInvariant(premine: U64, s: Ledger) {
    && s.emitted == Min(s.shielded.totals.Supply(), U64_MAX)
    && |s.ids| >= 1
    && s.emitted == EmittedAfter(premine, |s.ids| - 1)
  }

  /** What an accepted block's reward and bundles do to the pools. */
  lemma RewardMovesTotals(o: Crypto, s: Ledger, b: StoredBlock, v: Verdict)
    requires RewardOk(o, s, b, v)
    ensures v.pool.after.totals.Supply() == s.shielded.totals.Supply() + v.subsidy
    ensures v.pool.after.totals.ring == s.shielded.totals.ring - CrossSum(BlockBundles(b.txs)) +
                                        if b.block.coinbase.shielded.Some? then -(v.fees as int) else v.subsidy
  {
    ApplyMovesTotals(o, s.shielded, BlockBundles(b.txs), Credit(b.block.coinbase, v.subsidy, v.fees),
      b.block.coinbase.height, s.maturity);
  }

  lemma SupplyStep(o: Crypto, premine: U64, s: Ledger, b: StoredBlock, v: Verdict)
    requires s.Shaped() && SupplyInvariant(premine, s)
    requires v.subsidy == BaseReward(s.emitted)
    requires v.pool.after.totals.Supply() == s.shielded.totals.Supply() + v.subsidy
    ensures SupplyInvariant(premine, Extended(o, s, b.block, b.txs, v))
  {
  }

  lemma GenesisSupply(o: Crypto, g: Block, maturity: U64)
    requires IsGenesis(o, g)
    ensures GenesisLedger(o, g, maturity).shielded.totals == Pools.Totals(Premine(g), 0)
    ensures SupplyInvariant(Premine(g), GenesisLedger(o, g, maturity))
  {
    var credit := ShieldedPool.CoinbaseCredit(Pools.Ring, Premine(g), 0, None);
    assert ShieldedPool.Apply(o, ShieldedPool.EmptyPool(o), [], credit, 0, maturity).Ok?;
  }

  /**
   On every chain reachable from genesis the emission counter is the supply held by the
   two pools, capped at the counter's range, and it is the emission curve iterated once
   per block.
   */
  lemma EmittedIsSupply(o: Crypto, g: Block, maturity: U64, s: Ledger)
    requires IsGenesis(o, g)
    requires Genuine(ConsensusRules(o), GenesisLedger(o, g, maturity), s)
    ensures SupplyInvariant(Premine(g), s)
  {
    var rules, start := ConsensusRules(o), GenesisLedger(o, g, maturity);
    ConsensusIsLawful(o);
    GenesisSupply(o, g, maturity);
    var inv := (t: Ledger) => SupplyInvariant(Premine(g), t);
    forall t, b | rules.valid(t) && inv(t) && rules.add(t, true, b).Ok?
      ensures inv(rules.add(t, true, b).value)
    {
      var v := AddedReward(o, t, b);
      RewardMovesTotals(o, t, b, v);
      SupplyStep(o, Premine(g), t, b, v);
    }
    ReplayInduction(rules, start, s.blocks[1..], s, inv);
  }

  lemma UncappedSupply(premine: U64, s: Ledger)
    requires premine <= MONEY_SUPPLY && SupplyInvariant(premine, s)
    requires |s.ids| - 1 <= SATURATION_FREE_BLOCKS
    ensures s.shielded.totals.Supply() == s.emitted
    ensures s.emitted <= MONEY_SUPPLY + (|s.ids| - 1) * TAIL_EMISSION
  {
    SupplyBound(premine, |s.ids| - 1);
    assert (|s.ids| - 1) * TAIL_EMISSION <= SATURATION_FREE_BLOCKS * TAIL_EMISSION;
  }

  /**
   Up to height 581,558,135 nothing saturates: the pools hold exactly what was emitted,
   which is at most the supply parameter plus one tail reward per mined block.
   */
  lemma SupplyIsExact(o: Crypto, g: Block, maturity: U64, s: Ledger)
    requires IsGenesis(o, g)
    requires Genuine(ConsensusRules(o), GenesisLedger(o, g, maturity), s)
    requires |s.ids| - 1 <= SATURATION_FREE_BLOCKS
    ensures s.shielded.totals.ring + s.shielded.totals.shielded == s.emitted
    ensures s.emitted <= MONEY_SUPPLY + (|s.ids| - 1) * TAIL_EMISSION
  {
    EmittedIsSupply(o, g, maturity, s);
    UncappedSupply(Premine(g), s);
  }
}
