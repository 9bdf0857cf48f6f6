/**
 The chain state as a value and the consensus rules as functions of it
 (noct/core/src/chain.rs; structural rules of noct/core/src/tx.rs and block.rs).
 `Judge` is the verdict of `add_block` on a block, in the order the program checks;
 `Added` and `Popped` are the states `add_block` and `pop_block` leave behind.
 */
module Ledgers {
  import opened Types
  import opened Data
  import opened Oracles
  import opened Difficulty
  import opened MedianTime
  import opened Emission
  import Pools
  import ShieldedPool

  const FUTURE_TIME_LIMIT: U64 := 7200
  const RING_SIZE: nat := 16
  const KEEP_RECENT_BODIES: nat := 128

  datatype ShieldedError = BadProof | UnrepresentableValue

  datatype TxError =
    | Unbalanced
    | BadCross
    | BadVersion
    | CrossWithoutBundle
    | CrossMismatch(ringSide: I64, bundle: I64)
    | Shielded(cause: ShieldedError)
    | NoInputs
    | NoOutputs
    | DuplicateKeyImage
    | BadRangeProof
    | BadAdditionalKeys
    | BadRingSignature

  datatype ChainError =
    | ShieldedPart(cause: ShieldedPool.ShieldedStateError)
    | BadPrevId
    | BadPow
    | BadTimestamp
    | TimestampTooFarAhead
    | BadCoinbaseHeight
    | TxHashMismatch
    | InvalidTx(reason: TxError)
    | UnknownRingMember
    | ImmatureCoinbase
    | DuplicateOutput
    | BadRingSize
    | DoubleSpend
    | BadCoinbaseReward
    | FeeOverflow
    | EmptyBranch
    | NotHeavier
    | CannotReplaceGenesis

  datatype OutputMeta = OutputMeta(height: U64, coinbase: bool)

  datatype Undo = Undo(outputsLenBefore: nat, emittedBefore: U64, shieldedBefore: ShieldedPool.ShieldedUndo)

  /** Each undo record points into the output set as it was when its block arrived. */
  predicate UndosFit(undos: seq<Undo>, outputs: nat) {
    undos == [] ||
    var last := undos[|undos| - 1];
    last.outputsLenBefore <= outputs && UndosFit(undos[..|undos| - 1], last.outputsLenBefore)
  }

  datatype Ledger = Ledger(
    blocks: seq<StoredBlock>,
    undos: seq<Undo>,
    ids: seq<Bytes32>,
    timestamps: seq<U64>,
    work: seq<nat>,
    outputs: seq<RingMember>,
    membership: map<RingMember, nat>,
    meta: seq<OutputMeta>,
    spent: set<Bytes32>,
    emitted: U64,
    shielded: ShieldedPool.PoolState,
    maturity: U64,
    prune: bool)
  {
    /** The parallel vectors run in step; undo records never point past the output set. */
    predicate Shaped() {
      && |ids| == |timestamps| == |work| >= 1
      && |outputs| == |meta|
      && |blocks| == |undos|
      && UndosFit(undos, |outputs|)
    }

    function Height(): nat {
      |ids|
    }

    function TipId(): Bytes32
      requires Shaped()
    {
      ids[|ids| - 1]
    }

    function CumulativeWork(): nat
      requires Shaped()
    {
      work[|work| - 1]
    }

    /** The id that keys the proof of work at `height`; genesis when that height is not on the chain. */
    function SeedFor(height: nat): Bytes32
      requires Shaped()
    {
      if SeedHeight(height) < |ids| then ids[SeedHeight(height)] else ids[0]
    }

    function Required(): U64
      requires Shaped()
    {
      NextDifficulty(timestamps, work)
    }

    predicate SpendableAt(index: nat, height: nat) {
      index < |meta| &&
      (meta[index].coinbase ==> height >= SaturatingAdd(meta[index].height, maturity))
    }
  }

  // --- one transaction -----------------------------------------------------

  function RingVerdict(s: Ledger, ring: seq<RingMember>): Option<ChainError> {
    if ring == [] then None
    else if ring[0] !in s.membership then Some(UnknownRingMember)
    else if !s.SpendableAt(s.membership[ring[0]], s.Height()) then Some(ImmatureCoinbase)
    else RingVerdict(s, ring[1..])
  }

  function InputsVerdict(s: Ledger, inputs: seq<Input>): Option<ChainError> {
    if inputs == [] then None
    else if |inputs[0].ring| != RING_SIZE then Some(BadRingSize)
    else if RingVerdict(s, inputs[0].ring).Some? then RingVerdict(s, inputs[0].ring)
    else InputsVerdict(s, inputs[1..])
  }

  function NullifiersVerdict(s: Ledger, ns: seq<Bytes32>): Option<ChainError> {
    if ns == [] then None
    else if ns[0] in s.shielded.nullifiers then Some(ShieldedPart(ShieldedPool.DuplicateNullifier(ns[0])))
    else NullifiersVerdict(s, ns[1..])
  }

  /** Some element of the list is in the set. */
  predicate Meets<T(==)>(xs: seq<T>, s: set<T>) {
    xs != [] && (xs[0] in s || Meets(xs[1..], s))
  }

  /** The cheap half of validation: everything that is a lookup in the chain state. */
  function ChainVerdict(s: Ledger, tx: Transaction): Option<ChainError> {
    if InputsVerdict(s, tx.inputs).Some? then InputsVerdict(s, tx.inputs)
    else if Meets(tx.KeyImages(), s.spent) then Some(DoubleSpend)
    else if tx.shielded.None? then None
    else if tx.shielded.value.anchor !in s.shielded.anchors then
      Some(ShieldedPart(ShieldedPool.UnknownAnchor(tx.shielded.value.anchor)))
    else NullifiersVerdict(s, tx.shielded.value.Nullifiers())
  }

  function SumMasks(o: Crypto, cs: seq<Bytes32>): nat {
    if cs == [] then 0 else o.opening(cs[0]).mask + SumMasks(o, cs[1..])
  }

  function SumAmounts(o: Crypto, cs: seq<Bytes32>): nat {
    if cs == [] then 0 else o.opening(cs[0]).amount + SumAmounts(o, cs[1..])
  }

  /** On which side of the balance a crossing is added: (inputs, outputs). */
  function CrossTerms(cross: I64): Option<(U64, U64)> {
    if cross == 0 then Some((0, 0))
    else if cross == I64_MIN then None
    else if cross > 0 then Some((0, cross))
    else Some((-cross, 0))
  }

  /** Pseudo-outs against outputs, fee and crossing: an equation between group elements. */
  function Balances(o: Crypto, pseudoOuts: seq<Bytes32>, outputs: seq<Bytes32>, fee: U64, cross: I64): Option<bool> {
    var terms := CrossTerms(cross);
    if terms.None? then None
    else
      Some(SumMasks(o, pseudoOuts) % GROUP_ORDER == SumMasks(o, outputs) % GROUP_ORDER &&
           (SumAmounts(o, pseudoOuts) + terms.value.0) % GROUP_ORDER ==
           (SumAmounts(o, outputs) + fee + terms.value.1) % GROUP_ORDER)
  }

  /** No element occurs twice; written as the scan that finds the first repeat. */
  predicate Distinct<T(==)>(xs: seq<T>) {
    xs == [] || (xs[0] !in xs[1..] && Distinct(xs[1..]))
  }

  predicate SignaturesOk(o: Crypto, inputs: seq<Input>, message: Bytes32) {
    inputs == [] || (o.ringSignatureOk(inputs[0], message) && SignaturesOk(o, inputs[1..], message))
  }

  /** Rules that need neither the chain nor any cryptography. */
  function ShapeVerdict(tx: Transaction): Option<TxError> {
    if tx.shielded.None? && tx.inputs == [] then Some(NoInputs)
    else if tx.shielded.None? && tx.outputs == [] then Some(NoOutputs)
    else
      var carries := tx.cross != 0 || tx.shielded.Some?;
      if tx.version != (if carries then TX_VERSION_SHIELDED else TX_VERSION) then Some(BadVersion)
      else if tx.cross != 0 && tx.shielded.None? then Some(CrossWithoutBundle)
      else if tx.shielded.Some? && tx.shielded.value.Cross().None? then Some(Shielded(UnrepresentableValue))
      else if tx.shielded.Some? && tx.shielded.value.Cross().value != tx.cross then
        Some(CrossMismatch(tx.cross, tx.shielded.value.Cross().value))
      else if tx.additionalTxPublic != [] && |tx.additionalTxPublic| != |tx.outputs| then Some(BadAdditionalKeys)
      else if !Distinct(tx.KeyImages()) then Some(DuplicateKeyImage)
      else None
  }

  predicate RangeOk(o: Crypto, tx: Transaction) {
    match tx.rangeProof
    case Some(proof) => tx.outputs != [] && o.rangeProofOk(proof, tx.OutputCommitments())
    case None => tx.outputs == []
  }

  /** Everything but the bundle's proof; the bundle's sighash when there is one. */
  function BatchableVerdict(o: Crypto, tx: Transaction): Result<Option<Bytes32>, TxError> {
    if ShapeVerdict(tx).Some? then Err(ShapeVerdict(tx).value)
    else if !RangeOk(o, tx) then Err(BadRangeProof)
    else if !SignaturesOk(o, tx.inputs, o.message(tx)) then Err(BadRingSignature)
    else
      var balanced := Balances(o, tx.PseudoOuts(), tx.OutputCommitments(), tx.fee, tx.cross);
      if balanced.None? then Err(BadCross)
      else if !balanced.value then Err(Unbalanced)
      else Ok(if tx.shielded.Some? then Some(o.bundleSighash(tx)) else None)
  }

  /** `verify`: everything, the bundle's own proof last. */
  function VerifyVerdict(o: Crypto, tx: Transaction): Option<TxError> {
    match BatchableVerdict(o, tx)
    case Err(e) => Some(e)
    case Ok(None) => None
    case Ok(Some(sighash)) =>
      if tx.shielded.Some? && !o.bundleOk(tx.shielded.value, sighash) then Some(Shielded(BadProof)) else None
  }

  /** `validate_tx`: what the mempool asks about a lone transaction. */
  function TxVerdict(o: Crypto, s: Ledger, tx: Transaction): Option<ChainError> {
    if ChainVerdict(s, tx).Some? then ChainVerdict(s, tx)
    else
      match VerifyVerdict(o, tx)
      case Some(e) => Some(InvalidTx(e))
      case None => None
  }

  // --- one block -----------------------------------------------------------

  /** What the pass over a block's transactions accumulates. */
  datatype Gathered = Gathered(images: set<Bytes32>, fees: U64, batch: seq<(Bundle, Bytes32)>)

  function GatherTx(o: Crypto, s: Ledger, tx: Transaction, acc: Gathered): Result<Gathered, ChainError> {
    if ChainVerdict(s, tx).Some? then Err(ChainVerdict(s, tx).value)
    else
      var verdict := BatchableVerdict(o, tx);
      if verdict.Err? then Err(InvalidTx(verdict.error))
      else if Meets(tx.KeyImages(), acc.images) then Err(DoubleSpend)
      else if acc.fees + tx.fee > U64_MAX then Err(FeeOverflow)
      else
        var queued := if verdict.value.Some? && tx.shielded.Some?
                      then [(tx.shielded.value, verdict.value.value)] else [];
        Ok(Gathered(acc.images + SetOf(tx.KeyImages()), acc.fees + tx.fee, acc.batch + queued))
  }

  function Gather(o: Crypto, s: Ledger, txs: seq<Transaction>, acc: Gathered): Result<Gathered, ChainError>
    decreases |txs|
  {
    if txs == [] then Ok(acc)
    else
      var step := GatherTx(o, s, txs[0], acc);
      if step.Err? then step else Gather(o, s, txs[1..], step.value)
  }

  const NOTHING_GATHERED: Gathered := Gathered({}, 0, [])

  function TxOutputs(txs: seq<Transaction>): seq<RingMember> {
    if txs == [] then [] else txs[0].OutputRefs() + TxOutputs(txs[1..])
  }

  function BlockOutputs(block: Block, txs: seq<Transaction>): seq<RingMember> {
    block.coinbase.OutputRefs() + TxOutputs(txs)
  }

  function MetaOf(n: nat, height: U64, coinbase: bool): (meta: seq<OutputMeta>)
    ensures |meta| == n
    ensures forall i :: 0 <= i < n ==> meta[i] == OutputMeta(height, coinbase)
  {
    seq(n, _ => OutputMeta(height, coinbase))
  }

  function BlockMeta(block: Block, txs: seq<Transaction>): (meta: seq<OutputMeta>)
    ensures |meta| == |BlockOutputs(block, txs)|
  {
    MetaOf(|block.coinbase.outputs|, block.coinbase.height, true) +
    MetaOf(|TxOutputs(txs)|, block.coinbase.height, false)
  }

  function BlockImages(txs: seq<Transaction>): seq<Bytes32> {
    if txs == [] then [] else txs[0].KeyImages() + BlockImages(txs[1..])
  }

  function BlockBundles(txs: seq<Transaction>): seq<Bundle> {
    if txs == [] then []
    else (if txs[0].shielded.Some? then [txs[0].shielded.value] else []) + BlockBundles(txs[1..])
  }

  /** No output of the block exists already, and none occurs twice in it. */
  predicate OutputsFresh(s: Ledger, outs: seq<RingMember>) {
    !Meets(outs, s.membership.Keys) && Distinct(outs)
  }

  function Indexed(membership: map<RingMember, nat>, base: nat, outs: seq<RingMember>): map<RingMember, nat>
    decreases |outs|
  {
    if outs == [] then membership
    else Indexed(membership[outs[0] := base], base + 1, outs[1..])
  }

  /** `Σ amounts` with overflow reported. */
  function CheckedTotal(outputs: seq<CoinbaseOutput>, acc: U64): Option<U64>
    decreases |outputs|
  {
    if outputs == [] then Some(acc)
    else if acc + outputs[0].amount > U64_MAX then None
    else CheckedTotal(outputs[1..], acc + outputs[0].amount)
  }

  /** The cast `x as i64`. */
  function AsI64(x: U64): I64 {
    if x < TWO_63 then x else x - TWO_64
  }

  predicate CommitmentsCanonical(o: Crypto, outputs: seq<CoinbaseOutput>) {
    outputs == [] ||
    (outputs[0].commitment == o.coinbaseCommitment(outputs[0].amount) && CommitmentsCanonical(o, outputs[1..]))
  }

  predicate CoinbaseValid(o: Crypto, coinbase: Coinbase, allowed: U64, prevId: Bytes32) {
    match coinbase.shielded
    case Some(bundle) =>
      && coinbase.outputs == []
      && !o.spendsEnabled(bundle)
      && o.outputsEnabled(bundle)
      && |bundle.actions| == 1
      && bundle.Cross() == Some(AsI64(allowed))
      && o.bundleOk(bundle, o.coinbaseSighash(coinbase.height, prevId))
    case None =>
      && CheckedTotal(coinbase.outputs, 0) == Some(allowed)
      && CommitmentsCanonical(o, coinbase.outputs)
  }

  function Credit(coinbase: Coinbase, subsidy: U64, fees: U64): ShieldedPool.CoinbaseCredit {
    if coinbase.shielded.Some? && coinbase.shielded.value.actions != [] then
      ShieldedPool.CoinbaseCredit(Pools.Shielded, subsidy, fees, Some(coinbase.shielded.value.actions[0].cmx))
    else
      ShieldedPool.CoinbaseCredit(Pools.Ring, subsidy, fees, None)
  }

  predicate HashesMatch(o: Crypto, hashes: seq<Bytes32>, txs: seq<Transaction>)
    decreases |txs|
  {
    |txs| == |hashes| &&
    (txs == [] || (o.txHash(txs[0]) == hashes[0] && HashesMatch(o, hashes[1..], txs[1..])))
  }

  /** Whether the node's clock lets a block with this timestamp in. */
  predicate InTime(clock: U64, block: Block) {
    block.header.timestamp <= SaturatingAdd(clock, FUTURE_TIME_LIMIT)
  }

  datatype Verdict = Verdict(difficulty: U64, fees: U64, subsidy: U64, pool: ShieldedPool.Applied)

  /** Steps 1 to 4 of `add_block`. Only the last timestamp check looks at the clock. */
  function HeaderVerdict(o: Crypto, s: Ledger, inTime: bool, block: Block): Option<ChainError>
    requires s.Shaped()
  {
    if block.header.prevId != s.TipId() then Some(BadPrevId)
    else if !MeetsDifficulty(o.powHash(s.SeedFor(s.Height()), block), s.Required()) then Some(BadPow)
    else if block.header.timestamp <= MedianTimePast(s.timestamps) then Some(BadTimestamp)
    else if !inTime then Some(TimestampTooFarAhead)
    else if block.coinbase.height != s.Height() then Some(BadCoinbaseHeight)
    else None
  }

  /** The subsidy, if the coinbase claims exactly it and the fees. */
  function JudgeCoinbase(o: Crypto, s: Ledger, block: Block, fees: U64): Result<U64, ChainError> {
    var subsidy := BaseReward(s.emitted);
    if subsidy + fees > U64_MAX then Err(FeeOverflow)
    else if !CoinbaseValid(o, block.coinbase, subsidy + fees, block.header.prevId) then Err(BadCoinbaseReward)
    else Ok(subsidy)
  }

  function JudgePool(o: Crypto, s: Ledger, block: Block, txs: seq<Transaction>, subsidy: U64, fees: U64)
    : Result<Verdict, ChainError>
    requires s.Shaped()
  {
    var pool := ShieldedPool.Apply(o, s.shielded, BlockBundles(txs),
      Credit(block.coinbase, subsidy, fees), block.coinbase.height, s.maturity);
    if pool.Err? then Err(ShieldedPart(pool.error))
    else Ok(Verdict(s.Required(), fees, subsidy, pool.value))
  }

  function JudgeReward(o: Crypto, s: Ledger, block: Block, txs: seq<Transaction>, fees: U64)
    : Result<Verdict, ChainError>
    requires s.Shaped()
  {
    match JudgeCoinbase(o, s, block, fees)
    case Err(e) => Err(e)
    case Ok(subsidy) => JudgePool(o, s, block, txs, subsidy, fees)
  }

  /** Steps 1 to 9. */
  function Judge(o: Crypto, s: Ledger, inTime: bool, block: Block, txs: seq<Transaction>): Result<Verdict, ChainError>
    requires s.Shaped()
  {
    if HeaderVerdict(o, s, inTime, block).Some? then Err(HeaderVerdict(o, s, inTime, block).value)
    else if !HashesMatch(o, block.txHashes, txs) then Err(TxHashMismatch)
    else
      var gathered := Gather(o, s, txs, NOTHING_GATHERED);
      if gathered.Err? then Err(gathered.error)
      else if gathered.value.batch != [] && !o.batchOk(gathered.value.batch) then
        Err(InvalidTx(Shielded(BadProof)))
      else if !OutputsFresh(s, BlockOutputs(block, txs)) then Err(DuplicateOutput)
      else
        JudgeReward(o, s, block, txs, gathered.value.fees)
  }

  /** The bodies of blocks that fell out of the recent window are dropped, if pruning is on. */
  function Pruned(prune: bool, blocks: seq<StoredBlock>): (r: seq<StoredBlock>)
    ensures |r| == |blocks|
  {
    if prune && |blocks| >= 1 + KEEP_RECENT_BODIES then
      var i := |blocks| - (1 + KEEP_RECENT_BODIES);
      blocks[i := blocks[i].(txs := [])]
    else blocks
  }

  function Extended(o: Crypto, s: Ledger, block: Block, txs: seq<Transaction>, v: Verdict): (s': Ledger)
    requires s.Shaped()
    ensures s'.Shaped()
  {
    assert (s.undos + [Undo(|s.outputs|, s.emitted, v.pool.undo)])[..|s.undos|] == s.undos;
    Ledger(
      Pruned(s.prune, s.blocks + [StoredBlock(block, txs)]),
      s.undos + [Undo(|s.outputs|, s.emitted, v.pool.undo)],
      s.ids + [o.blockId(block)],
      s.timestamps + [block.header.timestamp],
      s.work + [s.CumulativeWork() + v.difficulty],
      s.outputs + BlockOutputs(block, txs),
      Indexed(s.membership, |s.outputs|, BlockOutputs(block, txs)),
      s.meta + BlockMeta(block, txs),
      s.spent + SetOf(BlockImages(txs)),
      SaturatingAdd(s.emitted, v.subsidy),
      v.pool.after,
      s.maturity,
      s.prune)
  }

  /** The whole of `add_block`: a refused block has no resulting state. */
  function Added(o: Crypto, s: Ledger, inTime: bool, block: Block, txs: seq<Transaction>)
    : (r: Result<Ledger, ChainError>)
    requires s.Shaped()
    ensures r.Ok? ==> r.value.Shaped()
  {
    match Judge(o, s, inTime, block, txs)
    case Ok(v) => Ok(Extended(o, s, block, txs, v))
    case Err(e) => Err(e)
  }

  /** The state under the tip block; a chain without stored blocks cannot be popped. */
  function Popped(s: Ledger): (s': Ledger)
    requires s.Shaped() && |s.ids| >= 2 && s.blocks != []
    ensures s'.Shaped()
  {
    var n := |s.blocks| - 1;
    var undo := s.undos[n];
    Ledger(
      s.blocks[..n],
      s.undos[..n],
      s.ids[..|s.ids| - 1],
      s.timestamps[..|s.timestamps| - 1],
      s.work[..|s.work| - 1],
      s.outputs[..undo.outputsLenBefore],
      s.membership - SetOf(s.outputs[undo.outputsLenBefore..]),
      s.meta[..undo.outputsLenBefore],
      s.spent - SetOf(BlockImages(s.blocks[n].txs)),
      undo.emittedBefore,
      ShieldedPool.Undone(s.shielded, undo.shieldedBefore),
      s.maturity,
      s.prune)
  }

  // --- genesis -------------------------------------------------------------

  /** A network's first block: one ring output, nothing else. */
  predicate IsGenesis(o: Crypto, g: Block) {
    && g.coinbase.height == 0
    && g.coinbase.shielded == None
    && |g.coinbase.outputs| == 1
    && g.coinbase.outputs[0].amount <= MONEY_SUPPLY
    && g.coinbase.outputs[0].commitment == o.coinbaseCommitment(g.coinbase.outputs[0].amount)
    && g.txHashes == []
  }

  function Premine(g: Block): U64
    requires |g.coinbase.outputs| == 1
  {
    g.coinbase.outputs[0].amount
  }

  function GenesisLedger(o: Crypto, g: Block, maturity: U64): (s: Ledger)
    requires IsGenesis(o, g)
    ensures s.Shaped()
  {
    var credit := ShieldedPool.CoinbaseCredit(Pools.Ring, Premine(g), 0, None);
    var pool := ShieldedPool.Apply(o, ShieldedPool.EmptyPool(o), [], credit, 0, maturity).value;
    Ledger(
      [StoredBlock(g, [])],
      [Undo(0, 0, pool.undo)],
      [o.blockId(g)],
      [g.header.timestamp],
      [MIN_DIFFICULTY],
      [g.coinbase.outputs[0].Ref()],
      map[g.coinbase.outputs[0].Ref() := 0],
      [OutputMeta(0, true)],
      {},
      Premine(g),
      pool.after,
      maturity,
      false)
  }
}
