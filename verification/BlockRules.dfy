/**
 The rules for a block, stated outright: `add_block` accepts exactly the blocks that satisfy
 all of these conditions, and refuses a block for the first one it breaks
 (noct/core/src/chain.rs, noct/core/src/pow.rs).
 */
module BlockRules {
  import opened Types
  import opened Data
  import opened Oracles
  import opened Ledgers
  import opened Consensus
  import opened TxRules
  import opened LittleEndian
  import Difficulty
  import Emission
  import MedianTime
  import PoolRules
  import Pools
  import ShieldedPool

  // --- the seed of the proof of work ---------------------------------------

  /**
   The height whose id keys the proof of work: a multiple of 2048, at least 65 and at most
   2112 below; exactly the 2048 heights from 65 past a multiple on share it, genesis keys
   the first 2112.
   */
  lemma {:induction false} SeedHeightIs(height: nat, seed: nat)
    ensures Difficulty.SeedHeight(height) == seed <==>
              seed % 2048 == 0 && if seed == 0 then height <= 2112 else seed + 65 <= height <= seed + 2112
  {
    var x := height - 65;
    if height > 2112 {
      var q, r := x / 2048, x % 2048;
      assert x == q * 2048 + r && 0 <= r < 2048;
      if seed % 2048 == 0 && seed + 65 <= height <= seed + 2112 {
        var k := seed / 2048;
        assert seed == k * 2048;
        Difficulty.SmallMultiple(k - q, 2048);
      }
    }
  }

  // --- the header ----------------------------------------------------------

  /** The hash, under the id at the seed height, times the retargeted difficulty stays below 2^256. */
  predicate Worked(o: Crypto, ids: seq<Bytes32>, timestamps: seq<U64>, work: seq<nat>, block: Block)
    requires |timestamps| == |work|
  {
    var seed := Difficulty.SeedHeight(|ids|);
    seed < |ids| &&
    FromLe(o.powHash(ids[seed], block)) * Difficulty.NextDifficulty(timestamps, work) < TWO_256
  }

  /** Next on the tip: it names the tip, carries the work, is later than the median and not too far ahead. */
  predicate HeaderFits(o: Crypto, s: Ledger, clock: U64, block: Block)
    requires s.Shaped()
  {
    && block.header.prevId == s.ids[|s.ids| - 1]
    && Worked(o, s.ids, s.timestamps, s.work, block)
    && MedianTime.MedianTimePast(s.timestamps) < block.header.timestamp <= Min(clock + 7200, U64_MAX)
    && block.coinbase.height == |s.ids|
  }

  lemma {:induction false} SeedIsBelow(height: nat)
    requires height >= 1
    ensures Difficulty.SeedHeight(height) < height
  {
  }

  lemma {:induction false} HeaderVerdictIff(o: Crypto, s: Ledger, clock: U64, block: Block)
    requires s.Shaped()
    ensures HeaderVerdict(o, s, InTime(clock, block), block).None? <==> HeaderFits(o, s, clock, block)
  {
    SeedIsBelow(|s.ids|);
  }

  /** What a refused header has wrong, and that the checks before it passed. */
  predicate HeaderFault(o: Crypto, s: Ledger, clock: U64, block: Block, e: ChainError)
    requires s.Shaped()
  {
    var linked := block.header.prevId == s.ids[|s.ids| - 1];
    var worked := Worked(o, s.ids, s.timestamps, s.work, block);
    var late := block.header.timestamp > MedianTime.MedianTimePast(s.timestamps);
    match e
    case BadPrevId => !linked
    case BadPow => linked && !worked
    case BadTimestamp => linked && worked && !late
    case TimestampTooFarAhead => linked && worked && late && block.header.timestamp > Min(clock + 7200, U64_MAX)
    case BadCoinbaseHeight =>
      && linked && worked && late && block.header.timestamp <= Min(clock + 7200, U64_MAX)
      && block.coinbase.height != |s.ids|
    case _ => false
  }

  lemma {:induction false} HeaderVerdictReports(o: Crypto, s: Ledger, clock: U64, block: Block)
    requires s.Shaped() && HeaderVerdict(o, s, InTime(clock, block), block).Some?
    ensures HeaderFault(o, s, clock, block, HeaderVerdict(o, s, InTime(clock, block), block).value)
  {
    SeedIsBelow(|s.ids|);
  }

  // --- the transactions together -------------------------------------------

  /** The bodies are the ones the hash list names. */
  predicate NamesBodies(o: Crypto, hashes: seq<Bytes32>, txs: seq<Transaction>) {
    |hashes| == |txs| && forall i :: 0 <= i < |txs| ==> hashes[i] == o.txHash(txs[i])
  }

  lemma {:induction false} HashesMatchIff(o: Crypto, hashes: seq<Bytes32>, txs: seq<Transaction>)
    ensures HashesMatch(o, hashes, txs) <==> NamesBodies(o, hashes, txs)
    decreases |txs|
  {
    if txs != [] && hashes != [] {
      HashesMatchIff(o, hashes[1..], txs[1..]);
      assert forall i :: 1 <= i < |txs| ==> txs[i] == txs[1..][i - 1];
      assert forall i :: 1 <= i < |hashes| ==> hashes[i] == hashes[1..][i - 1];
    }
  }

  /** Every bundle of the block with the hash it must be signed over, in order. */
  function Batch(o: Crypto, txs: seq<Transaction>): seq<(Bundle, Bytes32)> {
    if txs == [] then []
    else
      (if txs[0].shielded.Some? then [(txs[0].shielded.value, o.bundleSighash(txs[0]))] else []) + Batch(o, txs[1..])
  }

  /** Each fits by itself, no image occurs twice or was seen, and the fees add up within 64 bits. */
  ghost predicate TxsFit(o: Crypto, s: Ledger, txs: seq<Transaction>, seen: set<Bytes32>, paid: U64) {
    && (forall i :: 0 <= i < |txs| ==> Acceptable(o, s, txs[i]))
    && AllDiffer(BlockImages(txs)) && (forall image :: image in BlockImages(txs) ==> image !in seen)
    && paid + Fees(txs) <= U64_MAX
  }

  lemma {:induction false} GatherTxIff(o: Crypto, s: Ledger, tx: Transaction, acc: Gathered)
    ensures GatherTx(o, s, tx, acc).Ok? <==>
              && Acceptable(o, s, tx) && (forall image :: image in tx.KeyImages() ==> image !in acc.images)
              && acc.fees + tx.fee <= U64_MAX
    ensures GatherTx(o, s, tx, acc).Ok? ==>
              GatherTx(o, s, tx, acc).value ==
              Gathered(acc.images + SetOf(tx.KeyImages()), acc.fees + tx.fee, acc.batch + Batch(o, [tx]))
  {
    TxAcceptedIff(o, s, tx);
    BatchableVerdictIff(o, tx);
    MeetsIff(tx.KeyImages(), acc.images);
    assert [tx][1..] == [] && Batch(o, []) == [];
  }

  lemma {:induction false} OwnImagesDiffer(tx: Transaction)
    requires Formed(tx)
    ensures AllDiffer(tx.KeyImages())
  {
  }

  /** The condition on a list, taken apart at its first transaction. */
  lemma {:induction false} TxsFitSplits(o: Crypto, s: Ledger, txs: seq<Transaction>, seen: set<Bytes32>, paid: U64)
    requires txs != []
    ensures TxsFit(o, s, txs, seen, paid) <==>
              && Acceptable(o, s, txs[0]) && (forall image :: image in txs[0].KeyImages() ==> image !in seen)
              && paid + txs[0].fee <= U64_MAX
              && TxsFit(o, s, txs[1..], seen + SetOf(txs[0].KeyImages()), paid + txs[0].fee)
  {
    var own, others := txs[0].KeyImages(), BlockImages(txs[1..]);
    ConcatDiffers(own, others);
    if Acceptable(o, s, txs[0]) {
      OwnImagesDiffer(txs[0]);
    }
    assert forall i :: 1 <= i < |txs| ==> txs[i] == txs[1..][i - 1];
  }

  lemma {:induction false} BatchSplits(o: Crypto, batch: seq<(Bundle, Bytes32)>, txs: seq<Transaction>)
    requires txs != []
    ensures batch + Batch(o, txs) == (batch + Batch(o, [txs[0]])) + Batch(o, txs[1..])
  {
    assert [txs[0]][1..] == [] && Batch(o, []) == [];
  }

  /** What a pass over the transactions must come to. */
  ghost predicate GathersRight(o: Crypto, s: Ledger, txs: seq<Transaction>, acc: Gathered) {
    var got := Gather(o, s, txs, acc);
    && (got.Ok? <==> TxsFit(o, s, txs, acc.images, acc.fees))
    && (got.Ok? ==> got.value.fees == acc.fees + Fees(txs) && got.value.batch == acc.batch + Batch(o, txs))
  }

  lemma {:induction false} GatherStep(o: Crypto, s: Ledger, txs: seq<Transaction>, acc: Gathered)
    requires txs != []
    requires GatherTx(o, s, txs[0], acc).Ok? ==> GathersRight(o, s, txs[1..], GatherTx(o, s, txs[0], acc).value)
    ensures GathersRight(o, s, txs, acc)
  {
    GatherTxIff(o, s, txs[0], acc);
    TxsFitSplits(o, s, txs, acc.images, acc.fees);
    BatchSplits(o, acc.batch, txs);
  }

  /** The pass over the transactions gets through exactly if they fit, and hands on every bundle and the fees. */
  lemma {:induction false} GatherIff(o: Crypto, s: Ledger, txs: seq<Transaction>, acc: Gathered)
    ensures GathersRight(o, s, txs, acc)
    decreases |txs|
  {
    if txs == [] {
      assert acc.batch + [] == acc.batch && BlockImages([]) == [];
    } else {
      if GatherTx(o, s, txs[0], acc).Ok? {
        GatherIff(o, s, txs[1..], GatherTx(o, s, txs[0], acc).value);
      }
      GatherStep(o, s, txs, acc);
    }
  }

  /** Every output of the block is new, and no two are the same. */
  predicate OutputsFit(s: Ledger, outs: seq<RingMember>) {
    AllDiffer(outs) && forall m :: m in outs ==> m !in s.membership
  }

  lemma {:induction false} OutputsFreshIff(s: Ledger, outs: seq<RingMember>)
    ensures OutputsFresh(s, outs) <==> OutputsFit(s, outs)
  {
    DistinctIff(outs);
    MeetsIff(outs, s.membership.Keys);
  }

  // --- the reward ----------------------------------------------------------

  function AmountSum(outputs: seq<CoinbaseOutput>): nat {
    if outputs == [] then 0 else outputs[0].amount + AmountSum(outputs[1..])
  }

  /**
   A reward of this amount. Shielded: one note, no ring outputs, spends off and outputs on,
   a bundle that states the amount, as a signed number, and verifies for this height and
   parent. In ring outputs: they add up to it, under the commitments anyone can compute.
   */
  predicate Rewards(o: Crypto, coinbase: Coinbase, amount: U64, prevId: Bytes32) {
    match coinbase.shielded
    case Some(bundle) =>
      && coinbase.outputs == [] && |bundle.actions| == 1
      && !o.spendsEnabled(bundle) && o.outputsEnabled(bundle)
      && bundle.valueBalance != I64_MIN
      && -(bundle.valueBalance as int) == (if amount < TWO_63 then amount as int else amount - TWO_64)
      && o.bundleOk(bundle, o.coinbaseSighash(coinbase.height, prevId))
    case None =>
      && AmountSum(coinbase.outputs) == amount
      && forall i :: 0 <= i < |coinbase.outputs| ==>
           coinbase.outputs[i].commitment == o.coinbaseCommitment(coinbase.outputs[i].amount)
  }

  lemma {:induction false} CheckedTotalIs(outputs: seq<CoinbaseOutput>, acc: U64)
    ensures CheckedTotal(outputs, acc) ==
            if acc + AmountSum(outputs) <= U64_MAX then Some(acc + AmountSum(outputs)) else None
    decreases |outputs|
  {
    if outputs != [] && acc + outputs[0].amount <= U64_MAX {
      CheckedTotalIs(outputs[1..], acc + outputs[0].amount);
    }
  }

  lemma {:induction false} CommitmentsIff(o: Crypto, outputs: seq<CoinbaseOutput>)
    ensures CommitmentsCanonical(o, outputs) <==>
              forall i :: 0 <= i < |outputs| ==> outputs[i].commitment == o.coinbaseCommitment(outputs[i].amount)
  {
    if outputs != [] {
      CommitmentsIff(o, outputs[1..]);
      assert forall i :: 1 <= i < |outputs| ==> outputs[i] == outputs[1..][i - 1];
    }
  }

  lemma {:induction false} CoinbaseValidIff(o: Crypto, coinbase: Coinbase, amount: U64, prevId: Bytes32)
    ensures CoinbaseValid(o, coinbase, amount, prevId) <==> Rewards(o, coinbase, amount, prevId)
  {
    CheckedTotalIs(coinbase.outputs, 0);
    CommitmentsIff(o, coinbase.outputs);
  }

  /** What the turnstile is to book: the subsidy as new, the fees as coming along, and the note of a shielded reward. */
  function Booked(coinbase: Coinbase, subsidy: U64, fees: U64): ShieldedPool.CoinbaseCredit {
    if coinbase.shielded.Some? && |coinbase.shielded.value.actions| == 1 then
      ShieldedPool.CoinbaseCredit(Pools.Shielded, subsidy, fees, Some(coinbase.shielded.value.actions[0].cmx))
    else ShieldedPool.CoinbaseCredit(Pools.Ring, subsidy, fees, None)
  }

  lemma {:induction false} CreditIsBooked(o: Crypto, coinbase: Coinbase, subsidy: U64, fees: U64, prevId: Bytes32)
    requires subsidy + fees <= U64_MAX && Rewards(o, coinbase, subsidy + fees, prevId)
    ensures Credit(coinbase, subsidy, fees) == Booked(coinbase, subsidy, fees)
  {
  }

  /** The reward is the subsidy and the fees. */
  predicate RewardIsDue(o: Crypto, s: Ledger, block: Block, txs: seq<Transaction>) {
    var total := Emission.BaseReward(s.emitted) + Fees(txs);
    total <= U64_MAX && Rewards(o, block.coinbase, total, block.header.prevId)
  }

  /** And the shielded half fits the pool. */
  predicate RewardFits(o: Crypto, s: Ledger, block: Block, txs: seq<Transaction>) {
    && RewardIsDue(o, s, block, txs)
    && PoolRules.PoolAccepts(o, s.shielded, BlockBundles(txs),
                             Booked(block.coinbase, Emission.BaseReward(s.emitted), Fees(txs)),
                             block.coinbase.height, s.maturity)
  }

  lemma {:induction false} JudgeCoinbaseIff(o: Crypto, s: Ledger, block: Block, fees: U64)
    ensures var subsidy := Emission.BaseReward(s.emitted);
            JudgeCoinbase(o, s, block, fees).Ok? <==>
            subsidy + fees <= U64_MAX && Rewards(o, block.coinbase, subsidy + fees, block.header.prevId)
    ensures JudgeCoinbase(o, s, block, fees).Ok? ==>
              JudgeCoinbase(o, s, block, fees).value == Emission.BaseReward(s.emitted)
  {
    var subsidy := Emission.BaseReward(s.emitted);
    if subsidy + fees <= U64_MAX {
      CoinbaseValidIff(o, block.coinbase, subsidy + fees, block.header.prevId);
    }
  }

  lemma {:induction false} JudgePoolIff(
    o: Crypto, s: Ledger, block: Block, txs: seq<Transaction>, subsidy: U64, fees: U64)
    requires s.Shaped() && subsidy + fees <= U64_MAX
    requires Rewards(o, block.coinbase, subsidy + fees, block.header.prevId)
    ensures JudgePool(o, s, block, txs, subsidy, fees).Ok? <==>
              PoolRules.PoolAccepts(o, s.shielded, BlockBundles(txs), Booked(block.coinbase, subsidy, fees),
                                    block.coinbase.height, s.maturity)
  {
    CreditIsBooked(o, block.coinbase, subsidy, fees, block.header.prevId);
    PoolRules.AppliesIff(o, s.shielded, BlockBundles(txs), Booked(block.coinbase, subsidy, fees),
                         block.coinbase.height, s.maturity);
  }

  lemma {:induction false} JudgeRewardIff(o: Crypto, s: Ledger, block: Block, txs: seq<Transaction>, fees: U64)
    requires s.Shaped() && fees == Fees(txs)
    ensures JudgeReward(o, s, block, txs, fees).Ok? <==> RewardFits(o, s, block, txs)
  {
    JudgeCoinbaseIff(o, s, block, fees);
    if JudgeCoinbase(o, s, block, fees).Ok? {
      JudgePoolIff(o, s, block, txs, Emission.BaseReward(s.emitted), fees);
    }
  }

  // --- the block -----------------------------------------------------------

  /** Every rule for the next block, when the clock shows this time. */
  ghost predicate BlockFits(o: Crypto, s: Ledger, clock: U64, block: Block, txs: seq<Transaction>)
    requires s.Shaped()
  {
    && HeaderFits(o, s, clock, block)
    && NamesBodies(o, block.txHashes, txs)
    && TxsFit(o, s, txs, {}, 0)
    && (Batch(o, txs) != [] ==> o.batchOk(Batch(o, txs)))
    && OutputsFit(s, BlockOutputs(block, txs))
    && RewardFits(o, s, block, txs)
  }

  /** The steps of the verdict. */
  lemma {:induction false} JudgeSteps(o: Crypto, s: Ledger, inTime: bool, block: Block, txs: seq<Transaction>)
    requires s.Shaped()
    ensures var gathered := Gather(o, s, txs, NOTHING_GATHERED);
            Judge(o, s, inTime, block, txs).Ok? <==>
              && HeaderVerdict(o, s, inTime, block).None? && HashesMatch(o, block.txHashes, txs)
              && gathered.Ok? && (gathered.value.batch == [] || o.batchOk(gathered.value.batch))
              && OutputsFresh(s, BlockOutputs(block, txs))
              && JudgeReward(o, s, block, txs, gathered.value.fees).Ok?
  {
  }

  lemma {:induction false} StepsMeetRules(o: Crypto, s: Ledger, clock: U64, block: Block, txs: seq<Transaction>)
    requires s.Shaped()
    ensures Judge(o, s, InTime(clock, block), block, txs).Ok? <==> BlockFits(o, s, clock, block, txs)
  {
    JudgeSteps(o, s, InTime(clock, block), block, txs);
    HeaderVerdictIff(o, s, clock, block);
    HashesMatchIff(o, block.txHashes, txs);
    GatherIff(o, s, txs, NOTHING_GATHERED);
    OutputsFreshIff(s, BlockOutputs(block, txs));
    if Gather(o, s, txs, NOTHING_GATHERED).Ok? {
      assert [] + Batch(o, txs) == Batch(o, txs);
      JudgeRewardIff(o, s, block, txs, Gather(o, s, txs, NOTHING_GATHERED).value.fees);
    }
  }

  /** `add_block` accepts exactly the blocks that meet every rule. */
  lemma {:induction false} AcceptedIff(o: Crypto, s: Ledger, clock: U64, block: Block, txs: seq<Transaction>)
    requires s.Shaped()
    ensures Added(o, s, InTime(clock, block), block, txs).Ok? <==> BlockFits(o, s, clock, block, txs)
  {
    StepsMeetRules(o, s, clock, block, txs);
  }

  // --- the errors ----------------------------------------------------------

  /** What is wrong with a transaction after others of its block that spent `seen` and paid `paid`. */
  ghost predicate TxFault(o: Crypto, s: Ledger, tx: Transaction, seen: set<Bytes32>, paid: nat, e: ChainError) {
    if !FitsChain(s, tx) then ChainFault(s, tx, e)
    else if !Formed(tx) || !Proves(o, tx) then e.InvalidTx? && OwnFault(o, tx, e.reason)
    else if exists image :: image in tx.KeyImages() && image in seen then e == DoubleSpend
    else paid + tx.fee > U64_MAX && e == FeeOverflow
  }

  lemma {:induction false} GatherTxReports(o: Crypto, s: Ledger, tx: Transaction, acc: Gathered)
    requires GatherTx(o, s, tx, acc).Err?
    ensures TxFault(o, s, tx, acc.images, acc.fees, GatherTx(o, s, tx, acc).error)
  {
    ChainVerdictIff(s, tx);
    BatchableVerdictIff(o, tx);
    MeetsIff(tx.KeyImages(), acc.images);
    if ChainVerdict(s, tx).Some? {
      ChainVerdictReports(s, tx);
    } else if BatchableVerdict(o, tx).Err? {
      BatchableVerdictReports(o, tx);
    }
  }

  lemma {:induction false} PrefixTotals(txs: seq<Transaction>, i: nat)
    requires txs != [] && 1 <= i <= |txs|
    ensures txs[..i][1..] == txs[1..][..i - 1] && txs[..i] != [] && txs[..i][0] == txs[0]
    ensures Fees(txs[..i]) == txs[0].fee + Fees(txs[1..][..i - 1])
    ensures SetOf(BlockImages(txs[..i])) == SetOf(txs[0].KeyImages()) + SetOf(BlockImages(txs[1..][..i - 1]))
  {
    assert txs[..i][1..] == txs[1..][..i - 1];
  }

  /** The i-th transaction is the first that does not fit after those before it. */
  ghost predicate FirstMisfit(
    o: Crypto, s: Ledger, txs: seq<Transaction>, seen: set<Bytes32>, paid: U64, i: nat, e: ChainError)
  {
    i < |txs| && TxsFit(o, s, txs[..i], seen, paid) &&
    TxFault(o, s, txs[i], seen + SetOf(BlockImages(txs[..i])), paid + Fees(txs[..i]), e)
  }

  lemma {:induction false} MisfitFurtherOn(
    o: Crypto, s: Ledger, txs: seq<Transaction>, acc: Gathered, i: nat, e: ChainError)
    requires txs != [] && GatherTx(o, s, txs[0], acc).Ok?
    requires var step := GatherTx(o, s, txs[0], acc).value;
             FirstMisfit(o, s, txs[1..], step.images, step.fees, i, e)
    ensures FirstMisfit(o, s, txs, acc.images, acc.fees, i + 1, e)
  {
    var step := GatherTx(o, s, txs[0], acc).value;
    GatherTxIff(o, s, txs[0], acc);
    PrefixTotals(txs, i + 1);
    TxsFitSplits(o, s, txs[..i + 1], acc.images, acc.fees);
    assert step.images + SetOf(BlockImages(txs[1..][..i])) == acc.images + SetOf(BlockImages(txs[..i + 1]));
  }

  lemma {:induction false} MisfitFound(o: Crypto, s: Ledger, txs: seq<Transaction>, acc: Gathered) returns (i: nat)
    requires Gather(o, s, txs, acc).Err?
    ensures FirstMisfit(o, s, txs, acc.images, acc.fees, i, Gather(o, s, txs, acc).error)
    decreases |txs|
  {
    var step := GatherTx(o, s, txs[0], acc);
    if step.Err? {
      i := 0;
      assert txs[..0] == [] && BlockImages([]) == [] && acc.images + SetOf([]) == acc.images;
      GatherTxReports(o, s, txs[0], acc);
    } else {
      i := MisfitFound(o, s, txs[1..], step.value);
      MisfitFurtherOn(o, s, txs, acc, i, Gather(o, s, txs, acc).error);
      i := i + 1;
    }
  }

  /** What is wrong with the reward, or else with the shielded half. */
  ghost predicate RewardFault(o: Crypto, s: Ledger, block: Block, txs: seq<Transaction>, fees: nat, e: ChainError) {
    var subsidy := Emission.BaseReward(s.emitted);
    if subsidy + fees > U64_MAX then e == FeeOverflow
    else if !Rewards(o, block.coinbase, subsidy + fees, block.header.prevId) then e == BadCoinbaseReward
    else
      && e.ShieldedPart?
      && PoolRules.PoolFault(o, s.shielded, BlockBundles(txs), Booked(block.coinbase, subsidy, fees),
                             block.coinbase.height, s.maturity, e.cause)
  }

  /** The first rule broken by a block whose header, bodies and transactions are in order. */
  ghost predicate LateFault(
    o: Crypto, s: Ledger, block: Block, txs: seq<Transaction>, batch: seq<(Bundle, Bytes32)>, fees: nat, e: ChainError)
  {
    if batch != [] && !o.batchOk(batch) then e == InvalidTx(Shielded(BadProof))
    else if !OutputsFit(s, BlockOutputs(block, txs)) then e == DuplicateOutput
    else RewardFault(o, s, block, txs, fees, e)
  }

  /** The first rule a block breaks, in the order of the program. */
  ghost predicate BlockFault(o: Crypto, s: Ledger, clock: U64, block: Block, txs: seq<Transaction>, e: ChainError)
    requires s.Shaped()
  {
    if !HeaderFits(o, s, clock, block) then HeaderFault(o, s, clock, block, e)
    else if !NamesBodies(o, block.txHashes, txs) then e == TxHashMismatch
    else if !TxsFit(o, s, txs, {}, 0) then exists i: nat :: FirstMisfit(o, s, txs, {}, 0, i, e)
    else LateFault(o, s, block, txs, Batch(o, txs), Fees(txs), e)
  }

  /** What the verdict says, once the header, the bodies and the transactions are in order. */
  lemma {:induction false} LaterError(o: Crypto, s: Ledger, inTime: bool, block: Block, txs: seq<Transaction>)
    requires s.Shaped() && Judge(o, s, inTime, block, txs).Err?
    requires HeaderVerdict(o, s, inTime, block).None? && HashesMatch(o, block.txHashes, txs)
    requires Gather(o, s, txs, NOTHING_GATHERED).Ok?
    ensures var got, e := Gather(o, s, txs, NOTHING_GATHERED).value, Judge(o, s, inTime, block, txs).error;
            if got.batch != [] && !o.batchOk(got.batch) then e == InvalidTx(Shielded(BadProof))
            else if !OutputsFresh(s, BlockOutputs(block, txs)) then e == DuplicateOutput
            else JudgeReward(o, s, block, txs, got.fees) == Err(e)
  {
  }

  lemma {:induction false} JudgePoolReports(
    o: Crypto, s: Ledger, block: Block, txs: seq<Transaction>, subsidy: U64, fees: U64)
    requires s.Shaped() && subsidy + fees <= U64_MAX && JudgePool(o, s, block, txs, subsidy, fees).Err?
    requires Rewards(o, block.coinbase, subsidy + fees, block.header.prevId)
    ensures var e := JudgePool(o, s, block, txs, subsidy, fees).error;
            && e.ShieldedPart?
            && PoolRules.PoolFault(o, s.shielded, BlockBundles(txs), Booked(block.coinbase, subsidy, fees),
                                   block.coinbase.height, s.maturity, e.cause)
  {
    CreditIsBooked(o, block.coinbase, subsidy, fees, block.header.prevId);
    PoolRules.ApplyReports(o, s.shielded, BlockBundles(txs), Booked(block.coinbase, subsidy, fees),
                           block.coinbase.height, s.maturity);
  }

  lemma {:induction false} RewardReports(o: Crypto, s: Ledger, block: Block, txs: seq<Transaction>, fees: U64)
    requires s.Shaped() && JudgeReward(o, s, block, txs, fees).Err?
    ensures RewardFault(o, s, block, txs, fees, JudgeReward(o, s, block, txs, fees).error)
  {
    JudgeCoinbaseIff(o, s, block, fees);
    if JudgeCoinbase(o, s, block, fees).Ok? {
      JudgePoolReports(o, s, block, txs, Emission.BaseReward(s.emitted), fees);
    }
  }

  lemma {:induction false} EarlyError(o: Crypto, s: Ledger, inTime: bool, block: Block, txs: seq<Transaction>)
    requires s.Shaped() && Judge(o, s, inTime, block, txs).Err?
    ensures var e := Judge(o, s, inTime, block, txs).error;
            && (HeaderVerdict(o, s, inTime, block).Some? ==> HeaderVerdict(o, s, inTime, block) == Some(e))
            && (HeaderVerdict(o, s, inTime, block).None? && !HashesMatch(o, block.txHashes, txs) ==>
                  e == TxHashMismatch)
            && (HeaderVerdict(o, s, inTime, block).None? && HashesMatch(o, block.txHashes, txs) ==>
                  Gather(o, s, txs, NOTHING_GATHERED).Err? ==> Gather(o, s, txs, NOTHING_GATHERED) == Err(e))
  {
  }

  lemma {:induction false} LateReports(
    o: Crypto, s: Ledger, inTime: bool, block: Block, txs: seq<Transaction>, got: Gathered)
    requires s.Shaped() && Judge(o, s, inTime, block, txs).Err?
    requires HeaderVerdict(o, s, inTime, block).None? && HashesMatch(o, block.txHashes, txs)
    requires Gather(o, s, txs, NOTHING_GATHERED) == Ok(got)
    ensures LateFault(o, s, block, txs, got.batch, got.fees, Judge(o, s, inTime, block, txs).error)
  {
    LaterError(o, s, inTime, block, txs);
    OutputsFreshIff(s, BlockOutputs(block, txs));
    if JudgeReward(o, s, block, txs, got.fees).Err? {
      RewardReports(o, s, block, txs, got.fees);
    }
  }

  /** Once the transactions are in order, the bundles and fees gathered are all of theirs. */
  lemma {:induction false} AllGathered(o: Crypto, s: Ledger, txs: seq<Transaction>, got: Gathered)
    requires Gather(o, s, txs, NOTHING_GATHERED) == Ok(got)
    ensures TxsFit(o, s, txs, {}, 0) && got.batch == Batch(o, txs) && got.fees == Fees(txs)
  {
    GatherIff(o, s, txs, NOTHING_GATHERED);
    assert [] + Batch(o, txs) == Batch(o, txs);
  }

  lemma {:induction false} LateRefusal(
    o: Crypto, s: Ledger, inTime: bool, block: Block, txs: seq<Transaction>, batch: seq<(Bundle, Bytes32)>, fees: nat)
    requires s.Shaped() && Judge(o, s, inTime, block, txs).Err?
    requires HeaderVerdict(o, s, inTime, block).None? && HashesMatch(o, block.txHashes, txs)
    requires Gather(o, s, txs, NOTHING_GATHERED).Ok? && batch == Batch(o, txs) && fees == Fees(txs)
    ensures LateFault(o, s, block, txs, batch, fees, Judge(o, s, inTime, block, txs).error)
  {
    var got := Gather(o, s, txs, NOTHING_GATHERED).value;
    AllGathered(o, s, txs, got);
    LateReports(o, s, inTime, block, txs, got);
  }

  lemma {:induction false} MisfitReports(o: Crypto, s: Ledger, txs: seq<Transaction>)
    requires Gather(o, s, txs, NOTHING_GATHERED).Err?
    ensures !TxsFit(o, s, txs, {}, 0)
    ensures exists i: nat :: FirstMisfit(o, s, txs, {}, 0, i, Gather(o, s, txs, NOTHING_GATHERED).error)
  {
    GatherIff(o, s, txs, NOTHING_GATHERED);
    var i := MisfitFound(o, s, txs, NOTHING_GATHERED);
  }

  /** A refused block is refused for the first rule it breaks. */
  lemma {:induction false} RefusalReports(o: Crypto, s: Ledger, clock: U64, block: Block, txs: seq<Transaction>)
    requires s.Shaped() && Added(o, s, InTime(clock, block), block, txs).Err?
    ensures BlockFault(o, s, clock, block, txs, Added(o, s, InTime(clock, block), block, txs).error)
  {
    var inTime := InTime(clock, block);
    EarlyError(o, s, inTime, block, txs);
    HeaderVerdictIff(o, s, clock, block);
    HashesMatchIff(o, block.txHashes, txs);
    if HeaderVerdict(o, s, inTime, block).Some? {
      HeaderVerdictReports(o, s, clock, block);
    } else if HashesMatch(o, block.txHashes, txs) {
      if Gather(o, s, txs, NOTHING_GATHERED).Err? {
        MisfitReports(o, s, txs);
      } else {
        AllGathered(o, s, txs, Gather(o, s, txs, NOTHING_GATHERED).value);
        LateRefusal(o, s, inTime, block, txs, Batch(o, txs), Fees(txs));
      }
    }
  }
}
