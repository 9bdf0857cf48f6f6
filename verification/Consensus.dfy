/**
 This chain's rules obey the laws that replay and reorganisation rest on; above all,
 `pop_block` inverts `add_block` on every field.
 */
module Consensus {
  import opened Types
  import opened Data
  import opened Oracles
  import opened Ledgers
  import opened Replay
  import Emission
  import ShieldedPool

  // --- what an accepted transaction list guarantees ------------------------

  function Fees(txs: seq<Transaction>): nat {
    if txs == [] then 0 else txs[0].fee + Fees(txs[1..])
  }

  predicate TxAccepted(o: Crypto, s: Ledger, tx: Transaction) {
    ChainVerdict(s, tx).None? && BatchableVerdict(o, tx).Ok?
  }

  lemma {:induction false} MeetsIff<T>(xs: seq<T>, s: set<T>)
    ensures Meets(xs, s) <==> exists x :: x in xs && x in s
  {
    if xs != [] {
      MeetsIff(xs[1..], s);
      assert xs == [xs[0]] + xs[1..];
    }
  }

  lemma {:induction false} DistinctConcat<T>(xs: seq<T>, ys: seq<T>)
    requires Distinct(xs) && Distinct(ys) && forall x :: x in xs ==> x !in ys
    ensures Distinct(xs + ys)
  {
    if xs == [] {
      assert xs + ys == ys;
    } else {
      assert (xs + ys)[1..] == xs[1..] + ys;
      DistinctConcat(xs[1..], ys);
    }
  }

  /** One accepted transaction: checked, with fresh images that differ from each other, its fee added. */
  lemma {:induction false} GatherTxFacts(o: Crypto, s: Ledger, tx: Transaction, acc: Gathered)
    requires GatherTx(o, s, tx, acc).Ok?
    ensures TxAccepted(o, s, tx) && Distinct(tx.KeyImages())
    ensures forall image :: image in tx.KeyImages() ==> image !in s.spent && image !in acc.images
    ensures var step := GatherTx(o, s, tx, acc).value;
            step.fees == acc.fees + tx.fee && step.images == acc.images + SetOf(tx.KeyImages())
  {
    MeetsIff(tx.KeyImages(), s.spent);
    MeetsIff(tx.KeyImages(), acc.images);
  }

  /** An accepted transaction list spends fresh, pairwise different images and adds up its fees. */
  lemma {:induction false} GatherFacts(o: Crypto, s: Ledger, txs: seq<Transaction>, acc: Gathered)
    requires Gather(o, s, txs, acc).Ok?
    ensures forall i :: 0 <= i < |txs| ==> TxAccepted(o, s, txs[i])
    ensures forall image :: image in BlockImages(txs) ==> image !in s.spent && image !in acc.images
    ensures Distinct(BlockImages(txs))
    ensures Gather(o, s, txs, acc).value.fees == acc.fees + Fees(txs)
    decreases |txs|
  {
    if txs != [] {
      var step := GatherTx(o, s, txs[0], acc).value;
      GatherTxFacts(o, s, txs[0], acc);
      GatherFacts(o, s, txs[1..], step);
      DistinctConcat(txs[0].KeyImages(), BlockImages(txs[1..]));
    }
  }

  /** What the checks before the reward establish. */
  lemma JudgedFacts(o: Crypto, s: Ledger, inTime: bool, block: Block, txs: seq<Transaction>)
    requires s.Shaped() && Judge(o, s, inTime, block, txs).Ok?
    ensures inTime
    ensures block.header.prevId == s.TipId() && block.coinbase.height == s.Height()
    ensures HashesMatch(o, block.txHashes, txs)
    ensures OutputsFresh(s, BlockOutputs(block, txs))
    ensures Gather(o, s, txs, NOTHING_GATHERED).Ok?
    ensures Judge(o, s, inTime, block, txs) ==
            JudgeReward(o, s, block, txs, Gather(o, s, txs, NOTHING_GATHERED).value.fees)
  {
  }

  /** The coinbase claims exactly subsidy and fees. */
  ghost predicate CoinbaseOk(o: Crypto, s: Ledger, b: StoredBlock, v: Verdict) {
    && b.block.coinbase.height == s.Height()
    && v.subsidy == Emission.BaseReward(s.emitted)
    && v.fees == Fees(b.txs)
    && v.subsidy + v.fees <= U64_MAX
    && CoinbaseValid(o, b.block.coinbase, v.subsidy + v.fees, b.block.header.prevId)
  }

  /** The shielded half of the block applied. */
  ghost predicate PoolOk(o: Crypto, s: Ledger, b: StoredBlock, v: Verdict) {
    ShieldedPool.Apply(o, s.shielded, BlockBundles(b.txs), Credit(b.block.coinbase, v.subsidy, v.fees),
                       b.block.coinbase.height, s.maturity) == Ok(v.pool)
  }

  ghost predicate RewardOk(o: Crypto, s: Ledger, b: StoredBlock, v: Verdict) {
    CoinbaseOk(o, s, b, v) && PoolOk(o, s, b, v)
  }

  lemma CoinbaseFacts(o: Crypto, s: Ledger, b: StoredBlock, fees: U64)
    requires JudgeCoinbase(o, s, b.block, fees).Ok?
    ensures var subsidy := JudgeCoinbase(o, s, b.block, fees).value;
            && subsidy == Emission.BaseReward(s.emitted) && subsidy + fees <= U64_MAX
            && CoinbaseValid(o, b.block.coinbase, subsidy + fees, b.block.header.prevId)
  {
  }

  lemma PoolFacts(o: Crypto, s: Ledger, b: StoredBlock, subsidy: U64, fees: U64)
    requires s.Shaped() && JudgePool(o, s, b.block, b.txs, subsidy, fees).Ok?
    ensures var v := JudgePool(o, s, b.block, b.txs, subsidy, fees).value;
            v.subsidy == subsidy && v.fees == fees && PoolOk(o, s, b, v)
  {
  }

  lemma {:induction false} RewardFacts(o: Crypto, s: Ledger, b: StoredBlock, fees: U64) returns (v: Verdict)
    requires s.Shaped() && b.block.coinbase.height == s.Height() && fees == Fees(b.txs)
    requires JudgeReward(o, s, b.block, b.txs, fees).Ok?
    ensures JudgeReward(o, s, b.block, b.txs, fees) == Ok(v)
    ensures RewardOk(o, s, b, v)
  {
    CoinbaseFacts(o, s, b, fees);
    var subsidy := JudgeCoinbase(o, s, b.block, fees).value;
    PoolFacts(o, s, b, subsidy, fees);
    v := JudgePool(o, s, b.block, b.txs, subsidy, fees).value;
  }

  /** An accepted block, as the state it leaves and the reward it earned. */
  lemma AddedReward(o: Crypto, s: Ledger, b: StoredBlock) returns (v: Verdict)
    requires s.Shaped() && Added(o, s, true, b.block, b.txs).Ok?
    ensures Added(o, s, true, b.block, b.txs).value == Extended(o, s, b.block, b.txs, v)
    ensures RewardOk(o, s, b, v)
  {
    JudgedFacts(o, s, true, b.block, b.txs);
    GatherFacts(o, s, b.txs, NOTHING_GATHERED);
    v := RewardFacts(o, s, b, Gather(o, s, b.txs, NOTHING_GATHERED).value.fees);
  }

  /** The transactions passed every check, spend fresh images and create fresh outputs. */
  ghost predicate TxsOk(o: Crypto, s: Ledger, b: StoredBlock) {
    && (forall i :: 0 <= i < |b.txs| ==> TxAccepted(o, s, b.txs[i]))
    && (forall image :: image in BlockImages(b.txs) ==> image !in s.spent)
    && Distinct(BlockImages(b.txs))
    && OutputsFresh(s, BlockOutputs(b.block, b.txs))
  }

  lemma AddedTxs(o: Crypto, s: Ledger, b: StoredBlock)
    requires s.Shaped() && Added(o, s, true, b.block, b.txs).Ok?
    ensures TxsOk(o, s, b)
  {
    JudgedFacts(o, s, true, b.block, b.txs);
    GatherFacts(o, s, b.txs, NOTHING_GATHERED);
  }

  // --- undo ----------------------------------------------------------------

  lemma {:induction false} IndexedDomain(membership: map<RingMember, nat>, base: nat, outs: seq<RingMember>)
    ensures Indexed(membership, base, outs).Keys == membership.Keys + SetOf(outs)
    ensures forall m :: m in membership && m !in outs ==> Indexed(membership, base, outs)[m] == membership[m]
    decreases |outs|
  {
    if outs != [] {
      assert outs == [outs[0]] + outs[1..];
      IndexedDomain(membership[outs[0] := base], base + 1, outs[1..]);
    }
  }

  lemma UnindexInvertsIndex(membership: map<RingMember, nat>, base: nat, outs: seq<RingMember>)
    requires forall i :: 0 <= i < |outs| ==> outs[i] !in membership
    ensures Indexed(membership, base, outs) - SetOf(outs) == membership
  {
    IndexedDomain(membership, base, outs);
  }

  lemma TakeBack<T>(xs: seq<T>, ys: seq<T>, one: T)
    ensures (xs + ys)[..|xs|] == xs && (xs + ys)[|xs|..] == ys
    ensures (xs + [one])[..|xs + [one]| - 1] == xs
  {
  }

  /** Undoing an extended chain, list by list. */
  lemma {:induction false} ListsTakenBack(o: Crypto, s: Ledger, block: Block, txs: seq<Transaction>, v: Verdict)
    requires s.Shaped() && !s.prune
    ensures var s' := Extended(o, s, block, txs, v);
            && |s'.ids| >= 2 && s'.blocks == s.blocks + [StoredBlock(block, txs)]
            && Popped(s').blocks == s.blocks && Popped(s').undos == s.undos && Popped(s').ids == s.ids
            && Popped(s').timestamps == s.timestamps && Popped(s').work == s.work
            && Popped(s').outputs == s.outputs && Popped(s').meta == s.meta
            && s'.outputs[|s.outputs|..] == BlockOutputs(block, txs)
            && s'.undos[|s.undos|] == Undo(|s.outputs|, s.emitted, v.pool.undo)
  {
    TakeBack(s.blocks, [StoredBlock(block, txs)], StoredBlock(block, txs));
    TakeBack(s.undos, [], Undo(|s.outputs|, s.emitted, v.pool.undo));
    TakeBack(s.ids, [], o.blockId(block));
    TakeBack(s.timestamps, [], block.header.timestamp);
    TakeBack(s.work, [], s.CumulativeWork() + v.difficulty);
    TakeBack(s.outputs, BlockOutputs(block, txs), RingMember(0, 0));
    TakeBack(s.meta, BlockMeta(block, txs), OutputMeta(0, false));
  }

  /** `pop_block` takes back everything `add_block` committed, field by field. */
  lemma {:induction false} PopInvertsAdd(o: Crypto, s: Ledger, inTime: bool, block: Block, txs: seq<Transaction>)
    requires s.Shaped() && !s.prune && Added(o, s, inTime, block, txs).Ok?
    ensures Popped(Added(o, s, inTime, block, txs).value) == s
  {
    JudgedFacts(o, s, inTime, block, txs);
    GatherFacts(o, s, txs, NOTHING_GATHERED);
    var v := Judge(o, s, inTime, block, txs).value;
    var outs := BlockOutputs(block, txs);
    ListsTakenBack(o, s, block, txs, v);
    ShieldedPool.UndoInvertsApply(o, s.shielded, BlockBundles(txs),
      Credit(block.coinbase, v.subsidy, v.fees), block.coinbase.height, s.maturity);
    MeetsIff(outs, s.membership.Keys);
    UnindexInvertsIndex(s.membership, |s.outputs|, outs);
    ShieldedPool.AddThenRemove(s.spent, BlockImages(txs));
  }

  // --- the laws ------------------------------------------------------------

  /** The program's rules. A chain that prunes bodies or was restored from a snapshot is not `valid` here. */
  function ConsensusRules(o: Crypto): Rules {
    Rules(
      (s: Ledger) => s.Shaped() && Parallel(s) && !s.prune,
      (s: Ledger, inTime: bool, b: StoredBlock) => if s.Shaped() then Added(o, s, inTime, b.block, b.txs)
          else Err(BadPrevId),
      (s: Ledger) => if s.Shaped() && |s.ids| >= 2 && s.blocks != [] then Popped(s) else s,
      o.blockId,
      (b: StoredBlock) => HashesMatch(o, b.block.txHashes, b.txs))
  }

  lemma AddedObeysLaw(o: Crypto, s: Ledger, b: StoredBlock)
    requires s.Shaped() && Parallel(s) && !s.prune
    requires Added(o, s, true, b.block, b.txs).Ok?
    ensures AcceptLaw(ConsensusRules(o), s, b, Added(o, s, true, b.block, b.txs).value)
  {
    var v := Judge(o, s, true, b.block, b.txs).value;
    var s' := Extended(o, s, b.block, b.txs, v);
    JudgedFacts(o, s, true, b.block, b.txs);
    PopInvertsAdd(o, s, true, b.block, b.txs);
    assert v.difficulty >= 1;
    assert s'.work[..|s.work|] == s.work;
  }

  /** What every theorem about replay, rollback and reorg asks for. */
  lemma {:induction false} ConsensusIsLawful(o: Crypto)
    ensures Lawful(ConsensusRules(o))
  {
    var rules := ConsensusRules(o);
    forall s, b | rules.valid(s) && rules.add(s, true, b).Ok?
      ensures AcceptLaw(rules, s, b, rules.add(s, true, b).value)
    {
      AddedObeysLaw(o, s, b);
    }
    forall s, b | rules.valid(s)
      ensures rules.add(s, false, b).Err?
    {
    }
  }

  lemma GenesisIsStart(o: Crypto, genesis: Block, maturity: U64)
    requires IsGenesis(o, genesis)
    ensures IsStart(ConsensusRules(o), GenesisLedger(o, genesis, maturity))
  {
  }

  /** Marks the states at which a proof wants to look through the rules. */
  ghost predicate Look(s: Ledger) {
    true
  }

  /** The rules are this chain's: the interface between the program text and the theory of replay. */
  ghost predicate Implements(rules: Rules, o: Crypto) {
    && rules.blockId == o.blockId
    && (forall s, inTime, b {:trigger Look(s), rules.add(s, inTime, b)} ::
          Look(s) && s.Shaped() ==> rules.add(s, inTime, b) == Added(o, s, inTime, b.block, b.txs))
    && (forall s {:trigger Look(s)} ::
          Look(s) && s.Shaped() ==>
            rules.pop(s) == if |s.ids| >= 2 && s.blocks != [] then Popped(s) else s)
  }

  lemma ConsensusImplements(o: Crypto)
    ensures Implements(ConsensusRules(o), o)
  {
  }
}
