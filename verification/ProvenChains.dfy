/**
 What every reachable chain shows for itself: each block above genesis carries its proof of
 work and every other proof the rules ask for, and the columns of the chain state are read
 off the blocks, no image and no nullifier occurring twice (noct/core/src/chain.rs).
 */
module ProvenChains {
  import opened Types
  import opened Data
  import opened Oracles
  import opened Ledgers
  import opened LittleEndian
  import opened Replay
  import opened Consensus
  import opened TxRules
  import opened BlockRules
  import Difficulty
  import Emission
  import PoolRules

  // --- the proofs ----------------------------------------------------------

  /** Every ring has sixteen members, the transaction is well-formed, and its own proofs hold. */
  predicate TxProven(o: Crypto, tx: Transaction) {
    Formed(tx) && Proves(o, tx) && forall i :: 0 <= i < |tx.inputs| ==> |tx.inputs[i].ring| == 16
  }

  /** Bodies, transactions, bundles and reward are proved. */
  ghost predicate ContentsProven(o: Crypto, b: StoredBlock) {
    && NamesBodies(o, b.block.txHashes, b.txs)
    && (forall i :: 0 <= i < |b.txs| ==> TxProven(o, b.txs[i]))
    && (Batch(o, b.txs) != [] ==> o.batchOk(Batch(o, b.txs)))
    && exists amount: U64 :: Rewards(o, b.block.coinbase, amount, b.block.header.prevId)
  }

  /**
   On top of a chain with these ids, times and work: the block names the tip and its own
   height, brings the work to `after` by the difficulty in force, and its hash under the
   seed meets that difficulty.
   */
  predicate HeaderProven(
    o: Crypto, ids: seq<Bytes32>, timestamps: seq<U64>, work: seq<nat>, block: Block, after: nat)
    requires |ids| == |timestamps| == |work| >= 1
  {
    var seed, difficulty := Difficulty.SeedHeight(|ids|), Difficulty.NextDifficulty(timestamps, work);
    && block.header.prevId == ids[|ids| - 1] && block.coinbase.height == |ids|
    && after == work[|work| - 1] + difficulty
    && seed < |ids| && FromLe(o.powHash(ids[seed], block)) * difficulty < TWO_256
  }

  /** The n-th block is proved on top of the n below it. */
  ghost predicate ProvenAt(
    o: Crypto, ids: seq<Bytes32>, timestamps: seq<U64>, work: seq<nat>, blocks: seq<StoredBlock>, n: nat)
    requires |ids| == |timestamps| == |work| == |blocks| && 1 <= n < |blocks|
  {
    HeaderProven(o, ids[..n], timestamps[..n], work[..n], blocks[n].block, work[n]) && ContentsProven(o, blocks[n])
  }

  /** Every block above the first is proved on top of those below it. */
  ghost predicate AllProven(
    o: Crypto, ids: seq<Bytes32>, timestamps: seq<U64>, work: seq<nat>, blocks: seq<StoredBlock>)
  {
    && |ids| == |timestamps| == |work| == |blocks| >= 1
    && forall n :: 1 <= n < |blocks| ==> ProvenAt(o, ids, timestamps, work, blocks, n)
  }

  ghost predicate Proven(o: Crypto, s: Ledger) {
    AllProven(o, s.ids, s.timestamps, s.work, s.blocks)
  }

  lemma {:induction false} AcceptedTxProven(o: Crypto, s: Ledger, tx: Transaction)
    requires Acceptable(o, s, tx)
    ensures TxProven(o, tx)
  {
    forall i | 0 <= i < |tx.inputs|
      ensures |tx.inputs[i].ring| == 16
    {
      assert RingFits(s, tx.inputs[i].ring);
    }
  }

  lemma {:induction false} FittingTxs(o: Crypto, s: Ledger, txs: seq<Transaction>)
    requires TxsFit(o, s, txs, {}, 0)
    ensures forall i :: 0 <= i < |txs| ==> TxProven(o, txs[i])
  {
    forall i | 0 <= i < |txs|
      ensures TxProven(o, txs[i])
    {
      AcceptedTxProven(o, s, txs[i]);
    }
  }

  lemma {:induction false} FittingReward(o: Crypto, s: Ledger, b: StoredBlock)
    requires RewardIsDue(o, s, b.block, b.txs)
    ensures exists amount: U64 :: Rewards(o, b.block.coinbase, amount, b.block.header.prevId)
  {
    var amount: U64 := Emission.BaseReward(s.emitted) + Fees(b.txs);
    assert Rewards(o, b.block.coinbase, amount, b.block.header.prevId);
  }

  lemma {:induction false} FittingContents(o: Crypto, s: Ledger, clock: U64, b: StoredBlock)
    requires s.Shaped() && BlockFits(o, s, clock, b.block, b.txs)
    ensures ContentsProven(o, b)
  {
    FittingTxs(o, s, b.txs);
    FittingReward(o, s, b);
  }

  lemma {:induction false} FittingHeader(o: Crypto, s: Ledger, clock: U64, block: Block)
    requires s.Shaped() && HeaderFits(o, s, clock, block)
    ensures HeaderProven(o, s.ids, s.timestamps, s.work, block, s.work[|s.work| - 1] + s.Required())
  {
  }

  /** A block in time by some clock is in time by a clock at its own timestamp. */
  lemma {:induction false} AcceptedFits(o: Crypto, s: Ledger, b: StoredBlock)
    requires s.Shaped() && Added(o, s, true, b.block, b.txs).Ok?
    ensures BlockFits(o, s, b.block.header.timestamp, b.block, b.txs)
  {
    assert InTime(b.block.header.timestamp, b.block);
    AcceptedIff(o, s, b.block.header.timestamp, b.block, b.txs);
  }

  lemma {:induction false} AddedBy(o: Crypto, s: Ledger, b: StoredBlock) returns (v: Verdict)
    requires s.Shaped() && Added(o, s, true, b.block, b.txs).Ok?
    ensures Added(o, s, true, b.block, b.txs) == Ok(Extended(o, s, b.block, b.txs, v))
    ensures v.difficulty == s.Required()
  {
    JudgedFacts(o, s, true, b.block, b.txs);
    v := Judge(o, s, true, b.block, b.txs).value;
  }

  /** The work after a block of the difficulty in force. */
  predicate Works(s: Ledger, after: nat)
    requires s.Shaped()
  {
    after == s.work[|s.work| - 1] + s.Required()
  }

  lemma {:induction false} RequiredWorks(s: Ledger, d: nat)
    requires s.Shaped() && d == s.Required()
    ensures Works(s, s.work[|s.work| - 1] + d)
  {
  }

  /** The lists a block of the difficulty in force leaves. */
  lemma {:induction false} GrownLists(o: Crypto, s: Ledger, b: StoredBlock, v: Verdict, t: Ledger) returns (after: nat)
    requires s.Shaped() && !s.prune && v.difficulty == s.Required() && t == Extended(o, s, b.block, b.txs, v)
    ensures Works(s, after)
    ensures t.ids == s.ids + [o.blockId(b.block)] && t.timestamps == s.timestamps + [b.block.header.timestamp]
    ensures t.work == s.work + [after] && t.blocks == s.blocks + [b]
  {
    RequiredWorks(s, v.difficulty);
    after := s.work[|s.work| - 1] + v.difficulty;
  }

  lemma {:induction false} EarlierStayProven(
    o: Crypto, ids: seq<Bytes32>, timestamps: seq<U64>, work: seq<nat>, blocks: seq<StoredBlock>, id: Bytes32,
    time: U64, after: nat, b: StoredBlock, n: nat)
    requires |ids| == |timestamps| == |work| == |blocks| && 1 <= n < |blocks|
    requires ProvenAt(o, ids, timestamps, work, blocks, n)
    ensures ProvenAt(o, ids + [id], timestamps + [time], work + [after], blocks + [b], n)
  {
    assert (ids + [id])[..n] == ids[..n] && (timestamps + [time])[..n] == timestamps[..n];
    assert (work + [after])[..n] == work[..n];
  }

  lemma {:induction false} NewestIsProven(
    o: Crypto, ids: seq<Bytes32>, timestamps: seq<U64>, work: seq<nat>, blocks: seq<StoredBlock>, id: Bytes32,
    time: U64, after: nat, b: StoredBlock)
    requires |ids| == |timestamps| == |work| == |blocks| >= 1
    requires HeaderProven(o, ids, timestamps, work, b.block, after) && ContentsProven(o, b)
    ensures ProvenAt(o, ids + [id], timestamps + [time], work + [after], blocks + [b], |blocks|)
  {
    var n := |blocks|;
    assert (ids + [id])[..n] == ids && (timestamps + [time])[..n] == timestamps;
    assert (work + [after])[..n] == work;
  }

  lemma {:induction false} AllGrows(
    o: Crypto, ids: seq<Bytes32>, timestamps: seq<U64>, work: seq<nat>, blocks: seq<StoredBlock>, id: Bytes32,
    time: U64, after: nat, b: StoredBlock)
    requires AllProven(o, ids, timestamps, work, blocks)
    requires HeaderProven(o, ids, timestamps, work, b.block, after) && ContentsProven(o, b)
    ensures AllProven(o, ids + [id], timestamps + [time], work + [after], blocks + [b])
  {
    NewestIsProven(o, ids, timestamps, work, blocks, id, time, after, b);
    forall n | 1 <= n < |blocks|
      ensures ProvenAt(o, ids + [id], timestamps + [time], work + [after], blocks + [b], n)
    {
      EarlierStayProven(o, ids, timestamps, work, blocks, id, time, after, b, n);
    }
  }

  lemma {:induction false} AcceptedIsProven(o: Crypto, s: Ledger, b: StoredBlock, after: nat)
    requires s.Shaped() && Added(o, s, true, b.block, b.txs).Ok? && Works(s, after)
    ensures HeaderProven(o, s.ids, s.timestamps, s.work, b.block, after) && ContentsProven(o, b)
  {
    AcceptedFits(o, s, b);
    FittingContents(o, s, b.block.header.timestamp, b);
    FittingHeader(o, s, b.block.header.timestamp, b.block);
  }

  /** A proven chain, grown by a proven block. */
  lemma {:induction false} ProvenGrows(o: Crypto, s: Ledger, b: StoredBlock, after: nat, t: Ledger)
    requires Proven(o, s)
    requires HeaderProven(o, s.ids, s.timestamps, s.work, b.block, after) && ContentsProven(o, b)
    requires t.ids == s.ids + [o.blockId(b.block)] && t.timestamps == s.timestamps + [b.block.header.timestamp]
    requires t.work == s.work + [after] && t.blocks == s.blocks + [b]
    ensures Proven(o, t)
  {
    AllGrows(o, s.ids, s.timestamps, s.work, s.blocks, o.blockId(b.block), b.block.header.timestamp, after, b);
  }

  lemma {:induction false} ProvenStep(o: Crypto, s: Ledger, b: StoredBlock)
    requires s.Shaped() && Parallel(s) && !s.prune && Proven(o, s) && Added(o, s, true, b.block, b.txs).Ok?
    ensures Proven(o, Added(o, s, true, b.block, b.txs).value)
  {
    var v := AddedBy(o, s, b);
    var t := Extended(o, s, b.block, b.txs, v);
    var after := GrownLists(o, s, b, v, t);
    AcceptedIsProven(o, s, b, after);
    ProvenGrows(o, s, b, after, t);
  }

  /** Every block of a reachable chain above genesis has met its difficulty and carries all its proofs. */
  lemma {:induction false} ReachableIsProven(o: Crypto, g: Block, maturity: U64, s: Ledger)
    requires IsGenesis(o, g)
    requires Genuine(ConsensusRules(o), GenesisLedger(o, g, maturity), s)
    ensures Proven(o, s)
  {
    var rules, start := ConsensusRules(o), GenesisLedger(o, g, maturity);
    ConsensusIsLawful(o);
    var inv := (t: Ledger) => Proven(o, t);
    forall t, b | rules.valid(t) && inv(t) && rules.add(t, true, b).Ok?
      ensures inv(rules.add(t, true, b).value)
    {
      ProvenStep(o, t, b);
    }
    ReplayInduction(rules, start, s.blocks[1..], s, inv);
  }

  /** The hash of the n-th block, under the id at its seed height, meets the work the block adds. */
  predicate WorkMet(o: Crypto, ids: seq<Bytes32>, work: seq<nat>, block: Block, n: nat) {
    var seed := Difficulty.SeedHeight(n);
    && 1 <= n < |work| && seed < n <= |ids|
    && var added: int := work[n] as int - work[n - 1] as int;
       added >= 1 && FromLe(o.powHash(ids[seed], block)) * added < TWO_256
  }

  lemma {:induction false} DifficultyMet(o: Crypto, ids: seq<Bytes32>, work: seq<nat>, block: Block, n: nat, d: U64)
    requires 1 <= n < |work| && n <= |ids| && d >= 1 && work[n] == work[n - 1] + d
    requires Difficulty.SeedHeight(n) < n
    requires FromLe(o.powHash(ids[Difficulty.SeedHeight(n)], block)) * d < TWO_256
    ensures WorkMet(o, ids, work, block, n)
  {
  }

  lemma {:induction false} HeaderShows(
    o: Crypto, ids: seq<Bytes32>, timestamps: seq<U64>, work: seq<nat>, block: Block, after: nat) returns (d: U64)
    requires |ids| == |timestamps| == |work| >= 1 && HeaderProven(o, ids, timestamps, work, block, after)
    ensures d >= 1 && after == work[|work| - 1] + d && Difficulty.SeedHeight(|ids|) < |ids|
    ensures FromLe(o.powHash(ids[Difficulty.SeedHeight(|ids|)], block)) * d < TWO_256
  {
    d := Difficulty.NextDifficulty(timestamps, work);
  }

  lemma {:induction false} WorkShown(
    o: Crypto, ids: seq<Bytes32>, timestamps: seq<U64>, work: seq<nat>, blocks: seq<StoredBlock>, n: nat)
    requires |ids| == |timestamps| == |work| == |blocks| && 1 <= n < |blocks|
    requires ProvenAt(o, ids, timestamps, work, blocks, n)
    ensures WorkMet(o, ids, work, blocks[n].block, n)
  {
    var d := HeaderShows(o, ids[..n], timestamps[..n], work[..n], blocks[n].block, work[n]);
    DifficultyMet(o, ids, work, blocks[n].block, n, d);
  }

  /** So on every reachable chain the stored hashes show the work the chain is credited with. */
  lemma {:induction false} WorkIsShown(o: Crypto, s: Ledger)
    requires Proven(o, s)
    ensures forall n :: 1 <= n < |s.blocks| ==> WorkMet(o, s.ids, s.work, s.blocks[n].block, n)
  {
    forall n | 1 <= n < |s.blocks|
      ensures WorkMet(o, s.ids, s.work, s.blocks[n].block, n)
    {
      WorkShown(o, s.ids, s.timestamps, s.work, s.blocks, n);
    }
  }

  // --- the columns ---------------------------------------------------------

  function TxsCreate(txs: seq<Transaction>): seq<RingMember> {
    if txs == [] then []
    else
      var outs := txs[0].outputs;
      seq(|outs|, i requires 0 <= i < |outs| => RingMember(outs[i].oneTimeKey, outs[i].commitment))
      + TxsCreate(txs[1..])
  }

  /** The outputs a block creates: its coinbase's first, then those of its transactions in order. */
  function Creates(b: StoredBlock): seq<RingMember> {
    var outs := b.block.coinbase.outputs;
    seq(|outs|, i requires 0 <= i < |outs| => RingMember(outs[i].oneTimeKey, outs[i].commitment)) + TxsCreate(b.txs)
  }

  /** Where and how they were created. */
  function Marks(b: StoredBlock): seq<OutputMeta> {
    var rewards := |b.block.coinbase.outputs|;
    seq(|Creates(b)|, i requires 0 <= i < |Creates(b)| => OutputMeta(b.block.coinbase.height, i < rewards))
  }

  function TxsSpend(txs: seq<Transaction>): seq<Bytes32> {
    if txs == [] then []
    else
      var ins := txs[0].inputs;
      seq(|ins|, i requires 0 <= i < |ins| => ins[i].keyImage) + TxsSpend(txs[1..])
  }

  /** The nullifiers of the transactions' bundles; those of a coinbase's bundle are dummies. */
  function TxsNullify(txs: seq<Transaction>): seq<Bytes32> {
    if txs == [] then []
    else
      (match txs[0].shielded
       case None => []
       case Some(bundle) =>
         seq(|bundle.actions|, i requires 0 <= i < |bundle.actions| => bundle.actions[i].nullifier))
      + TxsNullify(txs[1..])
  }

  /** A column put together block by block. */
  function Column<T>(part: StoredBlock -> seq<T>, blocks: seq<StoredBlock>): seq<T> {
    if blocks == [] then []
    else Column(part, blocks[..|blocks| - 1]) + part(blocks[|blocks| - 1])
  }

  function Spends(b: StoredBlock): seq<Bytes32> { TxsSpend(b.txs) }

  function Nullifies(b: StoredBlock): seq<Bytes32> { TxsNullify(b.txs) }

  /** Outputs, marks, times, images and nullifiers are those of the blocks; nothing is spent twice. */
  ghost predicate ReadsOff(o: Crypto, s: Ledger) {
    && |s.ids| == |s.timestamps| == |s.work| == |s.blocks| >= 1
    && (forall n :: 0 <= n < |s.blocks| ==>
          s.ids[n] == o.blockId(s.blocks[n].block) && s.timestamps[n] == s.blocks[n].block.header.timestamp)
    && s.work[0] == 1
    && s.outputs == Column(Creates, s.blocks)
    && s.meta == Column(Marks, s.blocks)
    && s.spent == SetOf(Column(Spends, s.blocks)) && AllDiffer(Column(Spends, s.blocks))
    && s.shielded.nullifiers == SetOf(Column(Nullifies, s.blocks)) && AllDiffer(Column(Nullifies, s.blocks))
  }

  lemma {:induction false} ColumnGrows<T>(part: StoredBlock -> seq<T>, blocks: seq<StoredBlock>, b: StoredBlock)
    ensures Column(part, blocks + [b]) == Column(part, blocks) + part(b)
  {
    assert (blocks + [b])[..|blocks|] == blocks;
  }

  lemma {:induction false} TxsCreateOutputs(txs: seq<Transaction>)
    ensures TxOutputs(txs) == TxsCreate(txs)
  {
    if txs != [] {
      TxsCreateOutputs(txs[1..]);
    }
  }

  lemma {:induction false} TxsSpendImages(txs: seq<Transaction>)
    ensures BlockImages(txs) == TxsSpend(txs)
  {
    if txs != [] {
      TxsSpendImages(txs[1..]);
    }
  }

  lemma {:induction false} TxsNullifyBundles(txs: seq<Transaction>)
    ensures PoolRules.NullifiersOf(BlockBundles(txs)) == TxsNullify(txs)
  {
    if txs != [] {
      TxsNullifyBundles(txs[1..]);
      if txs[0].shielded.Some? {
        var bundles := [txs[0].shielded.value] + BlockBundles(txs[1..]);
        assert bundles[1..] == BlockBundles(txs[1..]);
      } else {
        assert [] + BlockBundles(txs[1..]) == BlockBundles(txs[1..]);
      }
    }
  }

  lemma {:induction false} BlockColumns(b: StoredBlock)
    ensures BlockOutputs(b.block, b.txs) == Creates(b) && BlockMeta(b.block, b.txs) == Marks(b)
    ensures BlockImages(b.txs) == Spends(b)
    ensures PoolRules.NullifiersOf(BlockBundles(b.txs)) == Nullifies(b)
  {
    TxsCreateOutputs(b.txs);
    TxsSpendImages(b.txs);
    TxsNullifyBundles(b.txs);
    assert BlockOutputs(b.block, b.txs) == Creates(b);
  }

  lemma {:induction false} ImageOfSome(txs: seq<Transaction>, image: Bytes32)
    requires image in BlockImages(txs)
    ensures exists i, j :: 0 <= i < |txs| && 0 <= j < |txs[i].inputs| && txs[i].inputs[j].keyImage == image
  {
    if image in txs[0].KeyImages() {
      var j :| 0 <= j < |txs[0].inputs| && txs[0].KeyImages()[j] == image;
      assert txs[0].inputs[j].keyImage == image;
    } else {
      ImageOfSome(txs[1..], image);
      var i, j :| 0 <= i < |txs[1..]| && 0 <= j < |txs[1..][i].inputs| && txs[1..][i].inputs[j].keyImage == image;
      assert txs[i + 1].inputs[j].keyImage == image;
    }
  }

  lemma {:induction false} SpendsAnew(o: Crypto, s: Ledger, b: StoredBlock)
    requires s.Shaped() && BlockFits(o, s, b.block.header.timestamp, b.block, b.txs)
    ensures AllDiffer(Spends(b)) && forall x :: x in Spends(b) ==> x !in s.spent
    ensures AllDiffer(Nullifies(b)) && forall x :: x in Nullifies(b) ==> x !in s.shielded.nullifiers
  {
    BlockColumns(b);
    forall x | x in Spends(b)
      ensures x !in s.spent
    {
      ImageOfSome(b.txs, x);
    }
  }

  /** What an accepted block spends is new and differs. */
  lemma {:induction false} AcceptedSpendsAnew(o: Crypto, s: Ledger, b: StoredBlock)
    requires s.Shaped() && Added(o, s, true, b.block, b.txs).Ok?
    ensures AllDiffer(Spends(b)) && forall x :: x in Spends(b) ==> x !in s.spent
    ensures AllDiffer(Nullifies(b)) && forall x :: x in Nullifies(b) ==> x !in s.shielded.nullifiers
  {
    AcceptedFits(o, s, b);
    SpendsAnew(o, s, b);
  }

  /** What an accepted block appends to the columns. */
  lemma {:induction false} AddedColumns(o: Crypto, s: Ledger, b: StoredBlock)
    requires s.Shaped() && Added(o, s, true, b.block, b.txs).Ok?
    ensures var t := Added(o, s, true, b.block, b.txs).value;
            && t.outputs == s.outputs + Creates(b) && t.meta == s.meta + Marks(b)
            && t.spent == s.spent + SetOf(Spends(b))
            && t.shielded.nullifiers == s.shielded.nullifiers + SetOf(Nullifies(b))
  {
    var v := AddedReward(o, s, b);
    PoolRules.AppliesIff(o, s.shielded, BlockBundles(b.txs), Credit(b.block.coinbase, v.subsidy, v.fees),
                         b.block.coinbase.height, s.maturity);
    BlockColumns(b);
  }

  /** A column of different elements, grown by new ones that differ. */
  lemma {:induction false} DiffersGrows(
    part: StoredBlock -> seq<Bytes32>, blocks: seq<StoredBlock>, b: StoredBlock, before: set<Bytes32>)
    requires before == SetOf(Column(part, blocks)) && AllDiffer(Column(part, blocks))
    requires AllDiffer(part(b)) && forall x :: x in part(b) ==> x !in before
    ensures before + SetOf(part(b)) == SetOf(Column(part, blocks + [b])) && AllDiffer(Column(part, blocks + [b]))
  {
    ColumnGrows(part, blocks, b);
    ConcatDiffers(Column(part, blocks), part(b));
  }

  /** A chain read off its blocks, grown by what one more block adds. */
  lemma {:induction false} ReadsOffGrows(o: Crypto, s: Ledger, b: StoredBlock, t: Ledger)
    requires ReadsOff(o, s)
    requires t.ids == s.ids + [o.blockId(b.block)] && t.timestamps == s.timestamps + [b.block.header.timestamp]
    requires t.blocks == s.blocks + [b] && |t.work| == |t.blocks| && t.work[0] == s.work[0]
    requires t.outputs == s.outputs + Creates(b) && t.meta == s.meta + Marks(b)
    requires t.spent == s.spent + SetOf(Spends(b))
    requires t.shielded.nullifiers == s.shielded.nullifiers + SetOf(Nullifies(b))
    requires AllDiffer(Spends(b)) && forall x :: x in Spends(b) ==> x !in s.spent
    requires AllDiffer(Nullifies(b)) && forall x :: x in Nullifies(b) ==> x !in s.shielded.nullifiers
    ensures ReadsOff(o, t)
  {
    ColumnGrows(Creates, s.blocks, b);
    ColumnGrows(Marks, s.blocks, b);
    DiffersGrows(Spends, s.blocks, b, s.spent);
    DiffersGrows(Nullifies, s.blocks, b, s.shielded.nullifiers);
  }

  lemma {:induction false} ReadsOffStep(o: Crypto, s: Ledger, b: StoredBlock)
    requires s.Shaped() && Parallel(s) && !s.prune && ReadsOff(o, s) && Added(o, s, true, b.block, b.txs).Ok?
    ensures ReadsOff(o, Added(o, s, true, b.block, b.txs).value)
  {
    var v := AddedBy(o, s, b);
    var t := Extended(o, s, b.block, b.txs, v);
    var after := GrownLists(o, s, b, v, t);
    AddedColumns(o, s, b);
    AcceptedSpendsAnew(o, s, b);
    ReadsOffGrows(o, s, b, t);
  }

  lemma {:induction false} GenesisReadsOff(o: Crypto, g: Block, maturity: U64)
    requires IsGenesis(o, g)
    ensures ReadsOff(o, GenesisLedger(o, g, maturity))
  {
    var b, s := StoredBlock(g, []), GenesisLedger(o, g, maturity);
    ColumnGrows(Creates, [], b);
    ColumnGrows(Marks, [], b);
    ColumnGrows(Spends, [], b);
    ColumnGrows(Nullifies, [], b);
    assert [] + [b] == s.blocks;
    assert s.outputs == Creates(b);
    assert s.meta == Marks(b);
  }

  /** The columns of a reachable chain are those of its blocks, and nothing is spent twice. */
  lemma {:induction false} ReachableReadsOff(o: Crypto, g: Block, maturity: U64, s: Ledger)
    requires IsGenesis(o, g)
    requires Genuine(ConsensusRules(o), GenesisLedger(o, g, maturity), s)
    ensures ReadsOff(o, s)
  {
    var rules, start := ConsensusRules(o), GenesisLedger(o, g, maturity);
    ConsensusIsLawful(o);
    var inv := (t: Ledger) => ReadsOff(o, t);
    forall t, b | rules.valid(t) && inv(t) && rules.add(t, true, b).Ok?
      ensures inv(rules.add(t, true, b).value)
    {
      ReadsOffStep(o, t, b);
    }
    GenesisReadsOff(o, g, maturity);
    ReplayInduction(rules, start, s.blocks[1..], s, inv);
  }
}
