/**
 The chain as the program keeps it: parallel vectors, a membership index and a spent
 set, updated in place (noct/core/src/chain.rs). Every method is proved to compute the
 function of `Ledgers` or `Reorg` that the theorems are about.
 */
module Chain {
  import opened Types
  import opened Data
  import opened Oracles
  import opened Ledgers
  import opened Replay
  import opened Reorg
  import opened Consensus
  import opened Emission
  import Difficulty
  import MedianTime
  import Pools
  import ShieldedPool

  // --- transaction checks that need no chain state -------------------------

  lemma {:induction false} EarlierRepeatSpoils<T>(xs: seq<T>, i: nat)
    requires i < |xs| && xs[i] in xs[..i]
    ensures !Distinct(xs)
  {
    if xs[0] != xs[i] {
      assert xs[1..][..i - 1] == xs[1..i];
      assert xs[..i] == [xs[0]] + xs[1..i];
      EarlierRepeatSpoils(xs[1..], i - 1);
    } else {
      assert xs[1..][i - 1] == xs[i];
    }
  }

  /** The hash-set scan for a repeated element finds one exactly when there is one. */
  method AllDistinct<T(==)>(xs: seq<T>) returns (distinct: bool)
    ensures distinct == Distinct(xs)
  {
    var seen: set<T> := {};
    var i := 0;
    while i < |xs|
      invariant 0 <= i <= |xs|
      invariant seen == SetOf(xs[..i])
      invariant Distinct(xs[..i])
    {
      if xs[i] in seen {
        EarlierRepeatSpoils(xs, i);
        return false;
      }
      DistinctConcat(xs[..i], [xs[i]]);
      assert xs[..i + 1] == xs[..i] + [xs[i]];
      seen := seen + {xs[i]};
      i := i + 1;
    }
    assert xs[..i] == xs;
    return true;
  }

  /** `verify_batchable`: images and signatures are walked input by input. */
  method VerifyBatchable(o: Crypto, tx: Transaction) returns (r: Result<Option<Bytes32>, TxError>)
    ensures r == BatchableVerdict(o, tx)
  {
    if tx.shielded.None? {
      if tx.inputs == [] {
        return Err(NoInputs);
      }
      if tx.outputs == [] {
        return Err(NoOutputs);
      }
    }
    var carries := tx.cross != 0 || tx.shielded.Some?;
    if tx.version != (if carries then TX_VERSION_SHIELDED else TX_VERSION) {
      return Err(BadVersion);
    }
    if tx.cross != 0 && tx.shielded.None? {
      return Err(CrossWithoutBundle);
    }
    if tx.shielded.Some? {
      var stated := tx.shielded.value.Cross();
      if stated.None? {
        return Err(Shielded(UnrepresentableValue));
      }
      if stated.value != tx.cross {
        return Err(CrossMismatch(tx.cross, stated.value));
      }
    }
    if tx.additionalTxPublic != [] && |tx.additionalTxPublic| != |tx.outputs| {
      return Err(BadAdditionalKeys);
    }
    var distinct := AllDistinct(tx.KeyImages());
    if !distinct {
      return Err(DuplicateKeyImage);
    }
    if !RangeOk(o, tx) {
      return Err(BadRangeProof);
    }
    var message := o.message(tx);
    var i := 0;
    while i < |tx.inputs|
      invariant 0 <= i <= |tx.inputs|
      invariant SignaturesOk(o, tx.inputs, message) == SignaturesOk(o, tx.inputs[i..], message)
    {
      if !o.ringSignatureOk(tx.inputs[i], message) {
        return Err(BadRingSignature);
      }
      i := i + 1;
    }
    var balanced := Balances(o, tx.PseudoOuts(), tx.OutputCommitments(), tx.fee, tx.cross);
    if balanced.None? {
      return Err(BadCross);
    }
    if !balanced.value {
      return Err(Unbalanced);
    }
    return Ok(if tx.shielded.Some? then Some(o.bundleSighash(tx)) else None);
  }

  method Verify(o: Crypto, tx: Transaction) returns (r: Option<TxError>)
    ensures r == VerifyVerdict(o, tx)
  {
    var verdict := VerifyBatchable(o, tx);
    if verdict.Err? {
      return Some(verdict.error);
    }
    if verdict.value.Some? && tx.shielded.Some? {
      if !o.bundleOk(tx.shielded.value, verdict.value.value) {
        return Some(Shielded(BadProof));
      }
    }
    return None;
  }

  lemma {:induction false} IndexedConcat(
    membership: map<RingMember, nat>, base: nat, xs: seq<RingMember>, ys: seq<RingMember>)
    ensures Indexed(Indexed(membership, base, xs), base + |xs|, ys) == Indexed(membership, base, xs + ys)
    decreases |xs|
  {
    if xs == [] {
      assert xs + ys == ys;
    } else {
      assert (xs + ys)[1..] == xs[1..] + ys;
      IndexedConcat(membership[xs[0] := base], base + 1, xs[1..], ys);
    }
  }

  class Blockchain {
    var blocks: seq<StoredBlock>
    var undos: seq<Undo>
    var blockIds: seq<Bytes32>
    var timestamps: seq<U64>
    var cumulativeDifficulties: seq<nat>
    var outputs: seq<RingMember>
    var outputMembership: map<RingMember, nat>
    var outputMeta: seq<OutputMeta>
    var spentKeyImages: set<Bytes32>
    var emitted: U64
    const shielded: ShieldedPool.ShieldedState
    var maturity: U64
    var pruneBodies: bool

    /** Everything the chain holds, as a value. */
    function State(): Ledger
      reads this, shielded
    {
      Ledger(blocks, undos, blockIds, timestamps, cumulativeDifficulties, outputs, outputMembership, outputMeta,
             spentKeyImages, emitted, shielded.View(), maturity, pruneBodies)
    }

    ghost predicate Valid()
      reads this, shielded
    {
      State().Shaped()
    }

    /** A chain holding only the network's genesis block, applied without the rules. */
    constructor (o: Crypto, genesis: Block, maturity_: U64)
      requires IsGenesis(o, genesis)
      ensures Valid() && fresh(shielded)
      ensures State() == GenesisLedger(o, genesis, maturity_)
    {
      blocks, undos, blockIds, timestamps, cumulativeDifficulties := [], [], [], [], [];
      outputs, outputMembership, outputMeta := [], map[], [];
      spentKeyImages, emitted := {}, 0;
      shielded := new ShieldedPool.ShieldedState(o);
      maturity, pruneBodies := maturity_, false;
      new;
      ApplyGenesis(o, genesis);
    }

    /** A chain put together from fields that were read somewhere else. */
    constructor FromFields(s: Ledger)
      requires s.Shaped()
      ensures Valid() && fresh(shielded)
      ensures State() == s
    {
      blocks, undos, blockIds, timestamps, cumulativeDifficulties := s.blocks, s.undos, s.ids, s.timestamps, s.work;
      outputs, outputMembership, outputMeta := s.outputs, s.membership, s.meta;
      spentKeyImages, emitted := s.spent, s.emitted;
      shielded := new ShieldedPool.ShieldedState.FromView(s.shielded);
      maturity, pruneBodies := s.maturity, s.prune;
    }

    /** Appends outputs, their metadata and their index entries; touches nothing else. */
    method PushOutputs(members: seq<RingMember>, height: U64, coinbase: bool)
      modifies this`outputs, this`outputMembership, this`outputMeta
      ensures outputs == old(outputs) + members
      ensures outputMembership == Indexed(old(outputMembership), |old(outputs)|, members)
      ensures outputMeta == old(outputMeta) + MetaOf(|members|, height, coinbase)
    {
      var i := 0;
      while i < |members|
        invariant 0 <= i <= |members|
        invariant outputs == old(outputs) + members[..i]
        invariant Indexed(outputMembership, |outputs|, members[i..]) ==
                  Indexed(old(outputMembership), |old(outputs)|, members)
        invariant outputMeta == old(outputMeta) + MetaOf(i, height, coinbase)
      {
        outputMembership := outputMembership[members[i] := |outputs|];
        outputs := outputs + [members[i]];
        outputMeta := outputMeta + [OutputMeta(height, coinbase)];
        i := i + 1;
      }
    }

    method ApplyGenesis(o: Crypto, genesis: Block)
      requires IsGenesis(o, genesis)
      requires State() == Ledger([], [], [], [], [], [], map[], [], {}, 0, ShieldedPool.EmptyPool(o), maturity, false)
      modifies this, shielded
      ensures State() == GenesisLedger(o, genesis, old(maturity))
    {
      var premined := Premine(genesis);
      var credit := ShieldedPool.CoinbaseCredit(Pools.Ring, premined, 0, None);
      assert ShieldedPool.Apply(o, ShieldedPool.EmptyPool(o), [], credit, 0, maturity).Ok?;
      var before := shielded.ApplyBlock(o, [], credit, 0, maturity);
      PushOutputs(genesis.coinbase.OutputRefs(), 0, true);
      assert genesis.coinbase.OutputRefs() == [genesis.coinbase.outputs[0].Ref()];
      assert Indexed(map[], 0, [genesis.coinbase.outputs[0].Ref()]) == map[genesis.coinbase.outputs[0].Ref() := 0];
      blocks, undos := [StoredBlock(genesis, [])], [Undo(0, 0, before.value)];
      blockIds, timestamps := [o.blockId(genesis)], [genesis.header.timestamp];
      cumulativeDifficulties, emitted := [Difficulty.MIN_DIFFICULTY], premined;
    }

    method OutputSpendableAt(index: nat, height: nat) returns (ok: bool)
      ensures ok == State().SpendableAt(index, height)
    {
      if index >= |outputMeta| {
        return false;
      }
      var meta := outputMeta[index];
      return !meta.coinbase || height >= SaturatingAdd(meta.height, maturity);
    }

    method CheckRing(ring: seq<RingMember>) returns (r: Option<ChainError>)
      ensures r == if |ring| != RING_SIZE then Some(BadRingSize) else RingVerdict(State(), ring)
    {
      if |ring| != RING_SIZE {
        return Some(BadRingSize);
      }
      var j := 0;
      while j < |ring|
        invariant 0 <= j <= |ring|
        invariant RingVerdict(State(), ring) == RingVerdict(State(), ring[j..])
      {
        if ring[j] !in outputMembership {
          return Some(UnknownRingMember);
        }
        var ok := OutputSpendableAt(outputMembership[ring[j]], |blockIds|);
        if !ok {
          return Some(ImmatureCoinbase);
        }
        j := j + 1;
      }
      return None;
    }

    /** `check_tx_against_chain`: ring sizes and members, images, anchor, nullifiers, in that order. */
    method CheckTxAgainstChain(tx: Transaction) returns (r: Option<ChainError>)
      ensures r == ChainVerdict(State(), tx)
    {
      ghost var s := State();
      var i := 0;
      while i < |tx.inputs|
        invariant 0 <= i <= |tx.inputs|
        invariant InputsVerdict(s, tx.inputs) == InputsVerdict(s, tx.inputs[i..])
      {
        var verdict := CheckRing(tx.inputs[i].ring);
        if verdict.Some? {
          return verdict;
        }
        i := i + 1;
      }
      var images := tx.KeyImages();
      var k := 0;
      while k < |images|
        invariant 0 <= k <= |images|
        invariant Meets(images, spentKeyImages) == Meets(images[k..], spentKeyImages)
      {
        if images[k] in spentKeyImages {
          return Some(DoubleSpend);
        }
        k := k + 1;
      }
      if tx.shielded.None? {
        return None;
      }
      var bundle := tx.shielded.value;
      if bundle.anchor !in shielded.anchors {
        return Some(ShieldedPart(ShieldedPool.UnknownAnchor(bundle.anchor)));
      }
      var ns := bundle.Nullifiers();
      var j := 0;
      while j < |ns|
        invariant 0 <= j <= |ns|
        invariant NullifiersVerdict(s, ns) == NullifiersVerdict(s, ns[j..])
      {
        if ns[j] in shielded.nullifiers {
          return Some(ShieldedPart(ShieldedPool.DuplicateNullifier(ns[j])));
        }
        j := j + 1;
      }
      return None;
    }

    /** `validate_tx`, as the mempool calls it. */
    method ValidateTx(o: Crypto, tx: Transaction) returns (r: Option<ChainError>)
      ensures r == TxVerdict(o, State(), tx)
    {
      r := CheckTxAgainstChain(tx);
      if r.Some? {
        return;
      }
      var verdict := Verify(o, tx);
      return match verdict case Some(e) => Some(InvalidTx(e)) case None => None;
    }

    /** Images inserted one by one; a repeat, in the block or in the transaction, is a double spend. */
    static method InsertImages(images: set<Bytes32>, more: seq<Bytes32>) returns (r: Option<set<Bytes32>>)
      requires Distinct(more)
      ensures r == if Meets(more, images) then None else Some(images + SetOf(more))
    {
      var result := images;
      var i := 0;
      while i < |more|
        invariant 0 <= i <= |more|
        invariant result == images + SetOf(more[..i])
        invariant Meets(more, images) == Meets(more[i..], images)
      {
        if more[i] in result {
          if more[i] !in images {
            EarlierRepeatSpoils(more, i);
          }
          return None;
        }
        result := result + {more[i]};
        assert more[..i + 1] == more[..i] + [more[i]];
        i := i + 1;
      }
      assert more[..i] == more;
      return Some(result);
    }

    method GatherOne(o: Crypto, tx: Transaction, acc: Gathered) returns (r: Result<Gathered, ChainError>)
      ensures r == GatherTx(o, State(), tx, acc)
    {
      var verdict := CheckTxAgainstChain(tx);
      if verdict.Some? {
        return Err(verdict.value);
      }
      var verified := VerifyBatchable(o, tx);
      if verified.Err? {
        return Err(InvalidTx(verified.error));
      }
      assert Distinct(tx.KeyImages());
      var queued := if verified.value.Some? && tx.shielded.Some? then [(tx.shielded.value, verified.value.value)]
                    else [];
      var inserted := InsertImages(acc.images, tx.KeyImages());
      if inserted.None? {
        return Err(DoubleSpend);
      }
      if acc.fees + tx.fee > U64_MAX {
        return Err(FeeOverflow);
      }
      return Ok(Gathered(inserted.value, acc.fees + tx.fee, acc.batch + queued));
    }

    /** The pass over a block's transactions: validity, images unique in the block, fees. */
    method GatherTxs(o: Crypto, txs: seq<Transaction>) returns (r: Result<Gathered, ChainError>)
      ensures r == Gather(o, State(), txs, NOTHING_GATHERED)
    {
      var acc := NOTHING_GATHERED;
      var i := 0;
      while i < |txs|
        invariant 0 <= i <= |txs|
        invariant Gather(o, State(), txs, NOTHING_GATHERED) == Gather(o, State(), txs[i..], acc)
      {
        var step := GatherOne(o, txs[i], acc);
        if step.Err? {
          return step;
        }
        acc := step.value;
        i := i + 1;
      }
      return Ok(acc);
    }

    method CheckHashes(o: Crypto, hashes: seq<Bytes32>, txs: seq<Transaction>) returns (ok: bool)
      ensures ok == HashesMatch(o, hashes, txs)
    {
      if |txs| != |hashes| {
        return false;
      }
      var i := 0;
      while i < |txs|
        invariant 0 <= i <= |txs| == |hashes|
        invariant HashesMatch(o, hashes, txs) == HashesMatch(o, hashes[i..], txs[i..])
      {
        if o.txHash(txs[i]) != hashes[i] {
          return false;
        }
        i := i + 1;
      }
      return true;
    }

    /** No output may exist already or occur twice in the block. */
    method CheckOutputsFresh(outs: seq<RingMember>) returns (ok: bool)
      ensures ok == OutputsFresh(State(), outs)
    {
      var i := 0;
      while i < |outs|
        invariant 0 <= i <= |outs|
        invariant Meets(outs, outputMembership.Keys) == Meets(outs[i..], outputMembership.Keys)
      {
        if outs[i] in outputMembership {
          return false;
        }
        i := i + 1;
      }
      ok := AllDistinct(outs);
    }

    /** Credits the coinbase and applies the shielded half, or refuses with nothing changed. */
    method ApplyReward(o: Crypto, block: Block, txs: seq<Transaction>, fees: U64)
      returns (r: Result<Verdict, ChainError>)
      requires Valid() && block.coinbase.height == |blockIds|
      modifies shielded
      ensures r == JudgeReward(o, old(State()), block, txs, fees)
      ensures shielded.View() == if r.Ok? then r.value.pool.after else old(shielded.View())
    {
      var subsidy := BaseReward(emitted);
      if subsidy + fees > U64_MAX {
        return Err(FeeOverflow);
      }
      if !CoinbaseValid(o, block.coinbase, subsidy + fees, block.header.prevId) {
        return Err(BadCoinbaseReward);
      }
      ghost var before := State();
      var difficulty := Difficulty.NextDifficulty(timestamps, cumulativeDifficulties);
      var undo := shielded.ApplyBlock(o, BlockBundles(txs), Credit(block.coinbase, subsidy, fees),
        block.coinbase.height, maturity);
      if undo.Err? {
        return Err(ShieldedPart(undo.error));
      }
      return Ok(Verdict(difficulty, fees, subsidy, ShieldedPool.Applied(shielded.View(), undo.value)));
    }

    /** Proof of work: the hash under the seed of this height, against the retargeted difficulty. */
    method CheckWork(o: Crypto, block: Block) returns (ok: bool)
      requires Valid()
      ensures var s := State();
              ok == Difficulty.MeetsDifficulty(o.powHash(s.SeedFor(s.Height()), block), s.Required())
    {
      var seed := State().SeedFor(|blockIds|);
      var difficulty := Difficulty.NextDifficulty(timestamps, cumulativeDifficulties);
      ok := Difficulty.CheckHash(o.powHash(seed, block), difficulty);
    }

    /** Steps 1 to 4: link, proof of work, timestamps, height. */
    method CheckHeader(o: Crypto, now: U64, block: Block) returns (r: Option<ChainError>)
      requires Valid()
      ensures r == HeaderVerdict(o, State(), InTime(now, block), block)
    {
      if block.header.prevId != blockIds[|blockIds| - 1] {
        return Some(BadPrevId);
      }
      var powOk := CheckWork(o, block);
      if !powOk {
        return Some(BadPow);
      }
      if block.header.timestamp <= MedianTime.MedianTimePast(timestamps) {
        return Some(BadTimestamp);
      }
      if block.header.timestamp > SaturatingAdd(now, FUTURE_TIME_LIMIT) {
        return Some(TimestampTooFarAhead);
      }
      if block.coinbase.height != |blockIds| {
        return Some(BadCoinbaseHeight);
      }
      return None;
    }

    static lemma MetaConcat(m: nat, n: nat, height: U64, coinbase: bool)
      ensures MetaOf(m, height, coinbase) + MetaOf(n, height, coinbase) == MetaOf(m + n, height, coinbase)
    {
    }

    static lemma ConcatAssociates(xs: seq<RingMember>, ys: seq<RingMember>, zs: seq<RingMember>)
      ensures xs + (ys + zs) == (xs + ys) + zs
    {
    }

    method PushTxOutputs(txs: seq<Transaction>, height: U64)
      modifies this`outputs, this`outputMembership, this`outputMeta
      ensures outputs == old(outputs) + TxOutputs(txs)
      ensures outputMembership == Indexed(old(outputMembership), |old(outputs)|, TxOutputs(txs))
      ensures outputMeta == old(outputMeta) + MetaOf(|TxOutputs(txs)|, height, false)
    {
      var i := 0;
      ghost var done: seq<RingMember> := [];
      while i < |txs|
        invariant 0 <= i <= |txs|
        invariant done + TxOutputs(txs[i..]) == TxOutputs(txs)
        invariant outputs == old(outputs) + done
        invariant outputMembership == Indexed(old(outputMembership), |old(outputs)|, done)
        invariant outputMeta == old(outputMeta) + MetaOf(|done|, height, false)
      {
        var refs := txs[i].OutputRefs();
        PushOutputs(refs, height, false);
        IndexedConcat(old(outputMembership), |old(outputs)|, done, refs);
        MetaConcat(|done|, |refs|, height, false);
        ConcatAssociates(done, refs, TxOutputs(txs[i + 1..]));
        assert TxOutputs(txs[i..]) == refs + TxOutputs(txs[i + 1..]);
        done := done + refs;
        i := i + 1;
      }
      assert done == TxOutputs(txs);
    }

    method CommitOutputs(block: Block, txs: seq<Transaction>)
      modifies this`outputs, this`outputMembership, this`outputMeta
      ensures outputs == old(outputs) + BlockOutputs(block, txs)
      ensures outputMembership == Indexed(old(outputMembership), |old(outputs)|, BlockOutputs(block, txs))
      ensures outputMeta == old(outputMeta) + BlockMeta(block, txs)
    {
      PushOutputs(block.coinbase.OutputRefs(), block.coinbase.height, true);
      label paid:
      PushTxOutputs(txs, block.coinbase.height);
      IndexedConcat(old(outputMembership), |old(outputs)|, block.coinbase.OutputRefs(), TxOutputs(txs));
      assert old@paid(outputs) == old(outputs) + block.coinbase.OutputRefs();
    }

    method CommitImages(txs: seq<Transaction>)
      modifies this`spentKeyImages
      ensures spentKeyImages == old(spentKeyImages) + SetOf(BlockImages(txs))
    {
      var i := 0;
      while i < |txs|
        invariant 0 <= i <= |txs|
        invariant spentKeyImages + SetOf(BlockImages(txs[i..])) == old(spentKeyImages) + SetOf(BlockImages(txs))
      {
        assert SetOf(BlockImages(txs[i..])) == SetOf(txs[i].KeyImages()) + SetOf(BlockImages(txs[i + 1..]));
        spentKeyImages := spentKeyImages + SetOf(txs[i].KeyImages());
        i := i + 1;
      }
    }

    method CommitContents(block: Block, txs: seq<Transaction>, subsidy: U64)
      modifies this`outputs, this`outputMembership, this`outputMeta, this`spentKeyImages, this`emitted
      ensures outputs == old(outputs) + BlockOutputs(block, txs)
      ensures outputMembership == Indexed(old(outputMembership), |old(outputs)|, BlockOutputs(block, txs))
      ensures outputMeta == old(outputMeta) + BlockMeta(block, txs)
      ensures spentKeyImages == old(spentKeyImages) + SetOf(BlockImages(txs))
      ensures emitted == SaturatingAdd(old(emitted), subsidy)
    {
      CommitOutputs(block, txs);
      CommitImages(txs);
      emitted := SaturatingAdd(emitted, subsidy);
    }

    method CommitBlock(o: Crypto, stored: StoredBlock, undo: Undo, difficulty: U64)
      requires cumulativeDifficulties != []
      modifies this`blocks, this`undos, this`blockIds, this`timestamps, this`cumulativeDifficulties
      ensures blocks == Pruned(pruneBodies, old(blocks) + [stored])
      ensures undos == old(undos) + [undo]
      ensures blockIds == old(blockIds) + [o.blockId(stored.block)]
      ensures timestamps == old(timestamps) + [stored.block.header.timestamp]
      ensures var work := old(cumulativeDifficulties);
              cumulativeDifficulties == work + [work[|work| - 1] + difficulty]
    {
      blocks := blocks + [stored];
      undos := undos + [undo];
      blockIds := blockIds + [o.blockId(stored.block)];
      timestamps := timestamps + [stored.block.header.timestamp];
      cumulativeDifficulties :=
        cumulativeDifficulties + [cumulativeDifficulties[|cumulativeDifficulties| - 1] + difficulty];
      if pruneBodies && |blocks| >= 1 + KEEP_RECENT_BODIES {
        var i := |blocks| - (1 + KEEP_RECENT_BODIES);
        blocks := blocks[i := blocks[i].(txs := [])];
      }
    }

    method CommitFields(o: Crypto, block: Block, txs: seq<Transaction>, v: Verdict)
      requires cumulativeDifficulties != []
      modifies this
      ensures blocks == Pruned(pruneBodies, old(blocks) + [StoredBlock(block, txs)])
      ensures undos == old(undos) + [Undo(|old(outputs)|, old(emitted), v.pool.undo)]
      ensures blockIds == old(blockIds) + [o.blockId(block)]
      ensures timestamps == old(timestamps) + [block.header.timestamp]
      ensures var work := old(cumulativeDifficulties);
              cumulativeDifficulties == work + [work[|work| - 1] + v.difficulty]
      ensures outputs == old(outputs) + BlockOutputs(block, txs)
      ensures outputMembership == Indexed(old(outputMembership), |old(outputs)|, BlockOutputs(block, txs))
      ensures outputMeta == old(outputMeta) + BlockMeta(block, txs)
      ensures spentKeyImages == old(spentKeyImages) + SetOf(BlockImages(txs))
      ensures emitted == SaturatingAdd(old(emitted), v.subsidy)
      ensures maturity == old(maturity) && pruneBodies == old(pruneBodies)
    {
      var undo := Undo(|outputs|, emitted, v.pool.undo);
      CommitContents(block, txs, v.subsidy);
      CommitBlock(o, StoredBlock(block, txs), undo, v.difficulty);
    }

    /** All checks passed: outputs, images, emission, block and header data go in. */
    method Commit(o: Crypto, block: Block, txs: seq<Transaction>, v: Verdict, ghost s: Ledger)
      requires s.Shaped() && State() == s.(shielded := v.pool.after)
      modifies this
      ensures State() == Extended(o, s, block, txs, v)
    {
      CommitFields(o, block, txs, v);
    }

    /**
     `add_block`. A refused block leaves every field as it was; an accepted one leaves
     the state the rules prescribe.
     */
    method AddBlock(o: Crypto, now: U64, block: Block, txs: seq<Transaction>) returns (r: Result<(), ChainError>)
      requires Valid()
      modifies this, shielded
      ensures Valid()
      ensures match Added(o, old(State()), InTime(now, block), block, txs)
              case Ok(s) => r == Ok(()) && State() == s
              case Err(e) => r == Err(e) && State() == old(State())
    {
      ghost var s := State();
      var verdict := CheckHeader(o, now, block);
      if verdict.Some? {
        return Err(verdict.value);
      }
      var hashesOk := CheckHashes(o, block.txHashes, txs);
      if !hashesOk {
        return Err(TxHashMismatch);
      }
      var gathered := GatherTxs(o, txs);
      if gathered.Err? {
        return Err(gathered.error);
      }
      if gathered.value.batch != [] && !o.batchOk(gathered.value.batch) {
        return Err(InvalidTx(Shielded(BadProof)));
      }
      var outputsOk := CheckOutputsFresh(BlockOutputs(block, txs));
      if !outputsOk {
        return Err(DuplicateOutput);
      }
      var reward := ApplyReward(o, block, txs, gathered.value.fees);
      if reward.Err? {
        return Err(reward.error);
      }
      Commit(o, block, txs, reward.value, s);
      return Ok(());
    }

    /** From now on bodies older than the recent window are dropped; those already there go at once. */
    method EnableBodyPruning()
      requires Valid()
      modifies this
      ensures Valid()
      ensures State() == old(State()).(prune := true, blocks := blocks)
      ensures |blocks| == |old(blocks)|
      ensures forall i :: 0 <= i < |blocks| ==>
                blocks[i] == if i + KEEP_RECENT_BODIES < |blocks| then old(blocks)[i].(txs := []) else old(blocks)[i]
    {
      pruneBodies := true;
      var i := 0;
      while i + KEEP_RECENT_BODIES < |blocks|
        invariant 0 <= i
        invariant i + KEEP_RECENT_BODIES <= |blocks| || i == 0
        invariant |blocks| == |old(blocks)|
        invariant State() == old(State()).(prune := true, blocks := blocks)
        invariant forall k :: 0 <= k < |blocks| ==>
                    blocks[k] == if k < i then old(blocks)[k].(txs := []) else old(blocks)[k]
      {
        blocks := blocks[i := blocks[i].(txs := [])];
        i := i + 1;
      }
    }

    // --- reorganisation ----------------------------------------------------

    method RemoveImages(txs: seq<Transaction>)
      modifies this`spentKeyImages
      ensures spentKeyImages == old(spentKeyImages) - SetOf(BlockImages(txs))
    {
      var i := 0;
      while i < |txs|
        invariant 0 <= i <= |txs|
        invariant spentKeyImages - SetOf(BlockImages(txs[i..])) == old(spentKeyImages) - SetOf(BlockImages(txs))
      {
        assert SetOf(BlockImages(txs[i..])) == SetOf(txs[i].KeyImages()) + SetOf(BlockImages(txs[i + 1..]));
        spentKeyImages := spentKeyImages - SetOf(txs[i].KeyImages());
        i := i + 1;
      }
    }

    /** Drains the outputs past `keep`, with their index entries and metadata. */
    method RemoveOutputs(keep: nat)
      requires keep <= |outputs| == |outputMeta|
      modifies this`outputs, this`outputMembership, this`outputMeta
      ensures outputs == old(outputs)[..keep]
      ensures outputMembership == old(outputMembership) - SetOf(old(outputs)[keep..])
      ensures outputMeta == old(outputMeta)[..keep]
    {
      var i := keep;
      while i < |outputs|
        invariant keep <= i <= |outputs|
        invariant outputs == old(outputs) && outputMeta == old(outputMeta)
        invariant outputMembership == old(outputMembership) - SetOf(outputs[keep..i])
      {
        assert outputs[keep..i + 1] == outputs[keep..i] + [outputs[i]];
        outputMembership := outputMembership - {outputs[i]};
        i := i + 1;
      }
      assert outputs[keep..i] == outputs[keep..];
      outputs := outputs[..keep];
      outputMeta := outputMeta[..keep];
    }

    method RemoveContents(txs: seq<Transaction>, undo: Undo)
      requires undo.outputsLenBefore <= |outputs| == |outputMeta|
      modifies this`outputs, this`outputMembership, this`outputMeta, this`spentKeyImages, this`emitted
      ensures outputs == old(outputs)[..undo.outputsLenBefore]
      ensures outputMembership == old(outputMembership) - SetOf(old(outputs)[undo.outputsLenBefore..])
      ensures outputMeta == old(outputMeta)[..undo.outputsLenBefore]
      ensures spentKeyImages == old(spentKeyImages) - SetOf(BlockImages(txs))
      ensures emitted == undo.emittedBefore
    {
      RemoveImages(txs);
      RemoveOutputs(undo.outputsLenBefore);
      emitted := undo.emittedBefore;
    }

    method DropTip() returns (stored: StoredBlock)
      requires blocks != [] && undos != [] && blockIds != [] && timestamps != [] && cumulativeDifficulties != []
      modifies this`blocks, this`undos, this`blockIds, this`timestamps, this`cumulativeDifficulties
      ensures stored == old(blocks)[|old(blocks)| - 1]
      ensures blocks == old(blocks)[..|old(blocks)| - 1] && undos == old(undos)[..|old(undos)| - 1]
      ensures blockIds == old(blockIds)[..|old(blockIds)| - 1]
      ensures timestamps == old(timestamps)[..|old(timestamps)| - 1]
      ensures cumulativeDifficulties == old(cumulativeDifficulties)[..|old(cumulativeDifficulties)| - 1]
    {
      stored := blocks[|blocks| - 1];
      blocks, undos := blocks[..|blocks| - 1], undos[..|undos| - 1];
      blockIds := blockIds[..|blockIds| - 1];
      timestamps := timestamps[..|timestamps| - 1];
      cumulativeDifficulties := cumulativeDifficulties[..|cumulativeDifficulties| - 1];
    }

    method UndoTip() returns (stored: StoredBlock)
      requires Valid() && |blockIds| >= 2 && blocks != []
      modifies this, shielded
      ensures Valid()
      ensures State() == Popped(old(State()))
      ensures stored == old(blocks)[|old(blocks)| - 1]
    {
      ghost var s := State();
      var undo := undos[|undos| - 1];
      stored := DropTip();
      RemoveContents(stored.txs, undo);
      shielded.UndoBlock(undo.shieldedBefore);
    }

    /** `pop_block`: everything the tip block added is taken back out; without stored blocks, nothing happens. */
    method PopBlock() returns (popped: Option<StoredBlock>)
      requires Valid() && (blocks != [] ==> |blockIds| >= 2)
      modifies this, shielded
      ensures Valid()
      ensures old(blocks) == [] ==> popped == None && State() == old(State())
      ensures old(blocks) != [] ==>
                popped == Some(old(blocks)[|old(blocks)| - 1]) && State() == Popped(old(State()))
    {
      if blocks == [] {
        return None;
      }
      var stored := UndoTip();
      popped := Some(stored);
    }

    /** One pop, seen through the rules. */
    method PopNext(ghost rules: Rules, ghost o: Crypto) returns (popped: Option<StoredBlock>)
      requires Implements(rules, o)
      requires Valid() && |blockIds| >= 2
      modifies this, shielded
      ensures Valid()
      ensures State() == rules.pop(old(State()))
      ensures popped == if old(blocks) == [] then None else Some(old(blocks)[|old(blocks)| - 1])
      ensures blocks == if popped.None? then [] else old(blocks)[..|old(blocks)| - 1]
      ensures |blockIds| == if popped.None? then |old(blockIds)| else |old(blockIds)| - 1
    {
      assert Look(State());
      popped := PopBlock();
    }

    static lemma {:induction false} NothingToPop(rules: Rules, s: Ledger, n: nat)
      requires rules.pop(s) == s
      ensures PopTimes(rules, s, n) == s
    {
      if n > 0 {
        NothingToPop(rules, s, n - 1);
      }
    }

    /** `rollback_to`: pops down to `height`, but never past genesis, and stops when no stored block is left. */
    method RollbackTo(ghost rules: Rules, ghost o: Crypto, height: nat) returns (removed: seq<StoredBlock>)
      requires Implements(rules, o) && Valid()
      modifies this, shielded
      ensures Valid()
      ensures State() == RolledBack(rules, old(State()), height)
      ensures removed == Removed(old(State()), height)
    {
      ghost var s := State();
      ghost var excess := Excess(s, height);
      var target := Max(height, 1);
      removed := [];
      while |blockIds| > target
        invariant Valid()
        invariant |removed| <= excess && |blockIds| == |s.ids| - |removed|
        invariant blocks + removed == s.blocks
        invariant PopTimes(rules, State(), excess - |removed|) == PopTimes(rules, s, excess)
        decreases |blockIds|
      {
        ghost var before := State();
        var popped := PopNext(rules, o);
        if popped.None? {
          assert rules.pop(before) == before by {
            assert Look(before);
          }
          NothingToPop(rules, before, excess - |removed|);
          break;
        }
        removed := [popped.value] + removed;
      }
      assert s.blocks[|s.blocks| - |removed|..] == removed;
    }

    /** `add_block`, seen through the rules. */
    method AddStored(ghost rules: Rules, o: Crypto, now: U64, b: StoredBlock) returns (r: Result<(), ChainError>)
      requires Implements(rules, o) && Valid()
      modifies this, shielded
      ensures Valid()
      ensures match rules.add(old(State()), InTime(now, b.block), b)
              case Ok(s) => r == Ok(()) && State() == s
              case Err(e) => r == Err(e) && State() == old(State())
    {
      assert Look(State());
      r := AddBlock(o, now, b.block, b.txs);
    }

    /** Blocks applied in order until one is refused; each reads the clock once. */
    method ApplyBranch(ghost rules: Rules, o: Crypto, clock: Clock, tick: nat, branch: seq<StoredBlock>)
      returns (failure: Option<ChainError>, tick': nat)
      requires Implements(rules, o) && Valid()
      modifies this, shielded
      ensures Valid()
      ensures RunBranch(rules, clock, tick, old(State()), branch) == Run(State(), tick', failure)
    {
      ghost var s := State();
      tick' := tick;
      var i := 0;
      while i < |branch|
        invariant 0 <= i <= |branch|
        invariant Valid()
        invariant RunBranch(rules, clock, tick, s, branch) == RunBranch(rules, clock, tick', State(), branch[i..])
      {
        var added := AddStored(rules, o, clock(tick'), branch[i]);
        tick' := tick' + 1;
        if added.Err? {
          return Some(added.error), tick';
        }
        i := i + 1;
      }
      return None, tick';
    }

    method TryRest(ghost rules: Rules, o: Crypto, clock: Clock, tick: nat, rest: seq<StoredBlock>)
      returns (r: ReorgResult, tick': nat)
      requires Implements(rules, o) && Valid() && rest != []
      modifies this, shielded
      ensures Valid()
      ensures Attempt(rules, clock, tick, old(State()), rest) == Outcome(State(), tick', r)
    {
      var fork := rest[0].block.coinbase.height;
      var workBefore := TotalWork(State());
      var discarded := RollbackTo(rules, o, fork);
      var failure;
      failure, tick' := ApplyBranch(rules, o, clock, tick, rest);
      if failure.None? && TotalWork(State()) <= workBefore {
        failure := Some(NotHeavier);
      }
      if failure.None? {
        return Switched(discarded, |rest|), tick';
      }
      var dropped := RollbackTo(rules, o, fork);
      var refused;
      refused, tick' := ApplyBranch(rules, o, clock, tick', discarded);
      return if refused.Some? then Panic else Refused(failure.value), tick';
    }

    /** Blocks the chain already has, counted from the front of the branch. */
    method CountShared(ghost rules: Rules, o: Crypto, branch: seq<StoredBlock>) returns (n: nat)
      requires Implements(rules, o)
      ensures n == SharedCount(rules, State(), branch)
    {
      n := 0;
      while n < |branch| && branch[n].block.coinbase.height < |blockIds| &&
            blockIds[branch[n].block.coinbase.height] == o.blockId(branch[n].block)
        invariant 0 <= n <= |branch|
        invariant SharedCount(rules, State(), branch) == n + SharedCount(rules, State(), branch[n..])
      {
        n := n + 1;
      }
    }

    /** `try_reorg`: skip what is shared, apply the rest in place, put everything back if it does not win. */
    method TryReorg(ghost rules: Rules, o: Crypto, clock: Clock, tick: nat, branch: seq<StoredBlock>)
      returns (r: ReorgResult, tick': nat)
      requires Implements(rules, o) && Valid()
      modifies this, shielded
      ensures Valid()
      ensures Reorg.TryReorg(rules, clock, tick, old(State()), branch) == Outcome(State(), tick', r)
    {
      if branch == [] {
        return Refused(EmptyBranch), tick;
      }
      if branch[0].block.coinbase.height > |blockIds| {
        return Refused(BadPrevId), tick;
      }
      if branch[0].block.coinbase.height == 0 {
        return Refused(CannotReplaceGenesis), tick;
      }
      var shared := CountShared(rules, o, branch);
      var rest := branch[shared..];
      if rest == [] {
        return Refused(NotHeavier), tick;
      }
      r, tick' := TryRest(rules, o, clock, tick, rest);
    }
  }
}
