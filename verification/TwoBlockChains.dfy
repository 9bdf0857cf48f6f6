/**
 Chains of two blocks, built in full over one accepting cryptography whose signatures,
 range proofs and commitments are sound. They show that what other modules ask of a chain
 does occur: a block with a shielded reward, one with a ring reward, and, on a chain
 younger than its maturity, outputs of a transaction without ring inputs. For these a
 wallet may assemble a ring of the required size that the validator refuses
 (noct/core/src/chain.rs).
 */
module TwoBlockChains {
  import opened Types
  import opened Data
  import opened Oracles
  import opened Ledgers
  import opened Consensus
  import opened Replay
  import opened RingSelection
  import opened RingAcceptance
  import Conservation
  import Emission
  import LittleEndian
  import MedianTime
  import NoteMaturity
  import OrderStatistics
  import Pools
  import ShieldedPool

  const MATURITY: U64 := 10

  // --- a second block with one transaction ---------------------------------

  /** The only block so far is genesis, and a worthless hash is good enough for the next one. */
  predicate FollowsGenesis(o: Crypto, s: Ledger, block: Block)
    requires s.Shaped()
  {
    && |s.timestamps| == 1 && s.timestamps[0] < block.header.timestamp
    && block.header.prevId == s.TipId() && block.coinbase.height == s.Height()
    && LittleEndian.FromLe(o.powHash(s.SeedFor(s.Height()), block)) == 0
  }

  lemma {:induction false} HeaderPasses(o: Crypto, s: Ledger, block: Block)
    requires s.Shaped() && FollowsGenesis(o, s, block)
    ensures HeaderVerdict(o, s, true, block).None?
  {
    assert s.timestamps == [s.timestamps[0]] && MedianTime.WindowOf(s.timestamps) == s.timestamps;
    OrderStatistics.SortedOfOrdered(s.timestamps);
  }

  /** No ring inputs and no fee: a bundle that moves nothing, and outputs that open to nothing. */
  predicate Ringless(o: Crypto, tx: Transaction) {
    && tx.version == TX_VERSION_SHIELDED && tx.additionalTxPublic == []
    && tx.inputs == [] && tx.outputs != [] && tx.fee == 0 && tx.cross == 0
    && tx.rangeProof.Some? && o.rangeProofOk(tx.rangeProof.value, tx.OutputCommitments())
    && (forall i :: 0 <= i < |tx.outputs| ==> o.opening(tx.outputs[i].commitment) == Opening(0, 0))
    && tx.shielded.Some? && tx.shielded.value.valueBalance == 0 && |tx.shielded.value.actions| == 1
  }

  lemma {:induction false} EmptySums(o: Crypto, cs: seq<Bytes32>)
    requires forall i :: 0 <= i < |cs| ==> o.opening(cs[i]) == Opening(0, 0)
    ensures SumMasks(o, cs) == 0 && SumAmounts(o, cs) == 0
  {
    if cs != [] {
      EmptySums(o, cs[1..]);
    }
  }

  lemma {:induction false} RinglessIsBatchable(o: Crypto, tx: Transaction)
    requires Ringless(o, tx)
    ensures BatchableVerdict(o, tx) == Ok(Some(o.bundleSighash(tx)))
  {
    EmptySums(o, tx.OutputCommitments());
    assert tx.PseudoOuts() == [] && tx.KeyImages() == [];
  }

  /** The anchor of the bundle is known and its one nullifier is new. */
  predicate FreshBundle(p: ShieldedPool.PoolState, bundle: Bundle) {
    |bundle.actions| == 1 && bundle.anchor in p.anchors && bundle.actions[0].nullifier !in p.nullifiers
  }

  lemma {:induction false} RinglessPasses(o: Crypto, s: Ledger, tx: Transaction)
    requires Ringless(o, tx) && FreshBundle(s.shielded, tx.shielded.value)
    ensures ChainVerdict(s, tx).None?
  {
    var nullifiers := tx.shielded.value.Nullifiers();
    assert nullifiers[1..] == [] && NullifiersVerdict(s, []).None?;
    assert tx.KeyImages() == [];
  }

  lemma {:induction false} RinglessIsGathered(o: Crypto, s: Ledger, tx: Transaction)
    requires Ringless(o, tx) && FreshBundle(s.shielded, tx.shielded.value)
    ensures Gather(o, s, [tx], NOTHING_GATHERED) == Ok(Gathered({}, 0, [(tx.shielded.value, o.bundleSighash(tx))]))
  {
    RinglessIsBatchable(o, tx);
    RinglessPasses(o, s, tx);
    assert tx.KeyImages() == [] && SetOf(tx.KeyImages()) == {};
    var step := GatherTx(o, s, tx, NOTHING_GATHERED);
    assert step.value.images == {} && step.value.batch == [(tx.shielded.value, o.bundleSighash(tx))];
    assert [tx][1..] == [] && Gather(o, s, [], step.value) == step;
  }

  // --- the pool ------------------------------------------------------------

  lemma BankOne(spent: set<Bytes32>, nullifier: Bytes32)
    requires nullifier !in spent
    ensures ShieldedPool.Banked(spent, [], [nullifier]) == Ok([nullifier])
  {
    assert [nullifier][1..] == [] && [] + [nullifier] == [nullifier];
    assert ShieldedPool.Banked(spent, [nullifier], []) == Ok([nullifier]);
  }

  lemma {:induction false} ScanOne(p: ShieldedPool.PoolState, bundle: Bundle, totals: Pools.Totals)
    requires FreshBundle(p, bundle) && bundle.valueBalance == 0
    ensures ShieldedPool.ScanBundles(p, [bundle], ShieldedPool.Scan([], totals)).Ok?
  {
    assert bundle.Nullifiers() == [bundle.actions[0].nullifier];
    BankOne(p.nullifiers, bundle.actions[0].nullifier);
    var step := ShieldedPool.ScanBundle(p, bundle, ShieldedPool.Scan([], totals));
    assert [bundle][1..] == [] && ShieldedPool.ScanBundles(p, [], step.value) == step;
  }

  lemma {:induction false} ApplyOne(
    o: Crypto, p: ShieldedPool.PoolState, bundle: Bundle, credit: ShieldedPool.CoinbaseCredit, height: nat,
    maturity: U64)
    requires p.tree == [] && p.pending == [] && FreshBundle(p, bundle) && bundle.valueBalance == 0
    requires o.noteOk(bundle.actions[0].cmx) && ShieldedPool.Credited(p.totals, credit).Ok?
    ensures ShieldedPool.Apply(o, p, [bundle], credit, height, maturity).Ok?
  {
    ScanOne(p, bundle, ShieldedPool.Credited(p.totals, credit).value);
    assert ShieldedPool.BundleCommitments([bundle]) == bundle.Commitments() + ShieldedPool.BundleCommitments([]);
    assert ShieldedPool.BlockCommitments(p, [bundle], height, maturity) == [bundle.actions[0].cmx];
  }

  /** A block right after genesis: its reward shielded, its one transaction without ring inputs. */
  ghost predicate IsFirst(o: Crypto, s: Ledger, block: Block, tx: Transaction)
    requires s.Shaped()
  {
    && FollowsGenesis(o, s, block)
    && block.txHashes == [o.txHash(tx)] && Ringless(o, tx) && FreshBundle(s.shielded, tx.shielded.value)
    && o.batchOk([(tx.shielded.value, o.bundleSighash(tx))])
    && OutputsFresh(s, BlockOutputs(block, [tx]))
    && CoinbaseValid(o, block.coinbase, Emission.BaseReward(s.emitted), block.header.prevId)
    && block.coinbase.shielded.Some?
    && s.shielded.tree == [] && s.shielded.pending == [] && o.noteOk(tx.shielded.value.actions[0].cmx)
    && s.shielded.totals.shielded == 0
  }

  lemma OneBundle(tx: Transaction)
    requires tx.shielded.Some?
    ensures BlockBundles([tx]) == [tx.shielded.value]
  {
    assert [tx][1..] == [] && BlockBundles([]) == [];
  }

  lemma {:induction false} ShieldedCredit(coinbase: Coinbase, totals: Pools.Totals, subsidy: U64)
    requires coinbase.shielded.Some? && |coinbase.shielded.value.actions| == 1 && totals.shielded == 0
    ensures ShieldedPool.Credited(totals, Credit(coinbase, subsidy, 0)).Ok?
  {
  }

  lemma {:induction false} PoolPasses(o: Crypto, s: Ledger, block: Block, tx: Transaction, subsidy: U64)
    requires s.Shaped() && s.shielded.tree == [] && s.shielded.pending == [] && s.shielded.totals.shielded == 0
    requires tx.shielded.Some? && FreshBundle(s.shielded, tx.shielded.value) && tx.shielded.value.valueBalance == 0
    requires o.noteOk(tx.shielded.value.actions[0].cmx)
    requires block.coinbase.shielded.Some? && |block.coinbase.shielded.value.actions| == 1
    ensures JudgePool(o, s, block, [tx], subsidy, 0).Ok?
  {
    OneBundle(tx);
    ShieldedCredit(block.coinbase, s.shielded.totals, subsidy);
    ApplyOne(o, s.shielded, tx.shielded.value, Credit(block.coinbase, subsidy, 0), block.coinbase.height, s.maturity);
  }

  lemma {:induction false} RewardPasses(o: Crypto, s: Ledger, block: Block, tx: Transaction)
    requires s.Shaped() && IsFirst(o, s, block, tx)
    ensures JudgeReward(o, s, block, [tx], 0).Ok?
  {
    var subsidy := Emission.BaseReward(s.emitted);
    assert JudgeCoinbase(o, s, block, 0) == Ok(subsidy);
    PoolPasses(o, s, block, tx, subsidy);
  }

  lemma {:induction false} FirstIsAccepted(o: Crypto, s: Ledger, block: Block, tx: Transaction)
    requires s.Shaped() && IsFirst(o, s, block, tx)
    ensures Added(o, s, true, block, [tx]).Ok?
  {
    HeaderPasses(o, s, block);
    RinglessIsGathered(o, s, tx);
    RewardPasses(o, s, block, tx);
    assert HashesMatch(o, block.txHashes[1..], [tx][1..]);
  }

  // --- the chain -----------------------------------------------------------

  function Zeros(n: nat): (bytes: seq<Byte>)
    ensures |bytes| == n
    ensures LittleEndian.FromLe(bytes) == 0
  {
    if n == 0 then [] else [0] + Zeros(n - 1)
  }

  /** Numbers below 2^64 commit to themselves with mask 1, all others to nothing with no mask. */
  const EMPTY_COMMITMENT: Bytes32 := TWO_64

  /** No ring signature passes, every bundle does; range proofs and commitments are sound. */
  function Accepting(): Crypto {
    Crypto(
      (b: Block) => b.header.timestamp,
      (tx: Transaction) => 0,
      (seed: Bytes32, b: Block) => Zeros(32),
      (tx: Transaction) => 0,
      (tx: Transaction) => 0,
      (height: U64, prevId: Bytes32) => 0,
      (proof: seq<Byte>, cs: seq<Bytes32>) => |cs| <= MAX_COMMITMENTS,
      (input: Input, message: Bytes32) => false,
      (bundle: Bundle, sighash: Bytes32) => true,
      (batch: seq<(Bundle, Bytes32)>) => true,
      (bundle: Bundle) => false,
      (bundle: Bundle) => true,
      (c: Bytes32) => if c < TWO_64 then Opening(1, c) else Opening(0, 0),
      (amount: U64) => amount,
      (leaves: seq<Bytes32>) => 0,
      (note: Bytes32) => true,
      (input: Input) => 0,
      (key: Bytes32) => key)
  }

  lemma AcceptingIsSound()
    ensures Conservation.Sound(Accepting())
  {
  }

  const GENESIS: Block := Block(BlockHeader(1, 0, 0, 0, 0), Coinbase(0, 0, [CoinbaseOutput(0, 0, 0)], None), [])
  const GENESIS_OUTPUT: RingMember := RingMember(0, 0)

  function Start(): (s: Ledger)
    ensures s.Shaped()
  {
    GenesisLedger(Accepting(), GENESIS, MATURITY)
  }

  lemma StartFields()
    ensures IsGenesis(Accepting(), GENESIS)
    ensures var s := Start();
            && s.shielded == ShieldedPool.PoolState([], {}, [0, 0], Pools.Totals(0, 0), [])
            && s.ids == [0] && s.timestamps == [0] && s.outputs == [GENESIS_OUTPUT] && s.meta == [OutputMeta(0, true)]
            && s.membership.Keys == {GENESIS_OUTPUT} && s.emitted == 0 && s.maturity == MATURITY
            && s.blocks == [StoredBlock(GENESIS, [])]
  {
  }

  /** A bundle of one action, with this note, nullifier and value balance. */
  function OneAction(note: Bytes32, valueBalance: I64): Bundle {
    Bundle([Action(0, note, 0, note, 0, [], [], [])], 0, valueBalance, 0, [], [])
  }

  function NewOutputs(n: nat): (outputs: seq<Output>)
    requires n <= MAX_COMMITMENTS
    ensures |outputs| == n
    ensures forall i :: 0 <= i < n ==> outputs[i] == Output(i + 1, EMPTY_COMMITMENT, 0)
  {
    seq(n, i requires 0 <= i < n => Output(i + 1, EMPTY_COMMITMENT, 0))
  }

  function NewRefs(n: nat): (refs: seq<RingMember>)
    requires n <= MAX_COMMITMENTS
    ensures |refs| == n
    ensures forall i :: 0 <= i < n ==> refs[i] == RingMember(i + 1, EMPTY_COMMITMENT)
  {
    seq(n, i requires 0 <= i < n => RingMember(i + 1, EMPTY_COMMITMENT))
  }

  function NextTx(n: nat): Transaction
    requires n <= MAX_COMMITMENTS
  {
    Transaction(TX_VERSION_SHIELDED, 0, [], 0, [], NewOutputs(n), Some([]), 0, Some(OneAction(1, 0)))
  }

  /** The first reward of a chain without premine: 10^18 / 2^20, rounded down. */
  const REWARD: U64 := 953_674_316_406

  lemma RewardIsFirst()
    ensures Emission.BaseReward(0) == REWARD
  {
  }

  const NEXT_BLOCK: Block :=
    Block(BlockHeader(1, 0, 1, 0, 0), Coinbase(1, 0, [], Some(OneAction(2, 0 - REWARD))), [0])

  lemma {:induction false} RefsDiffer(refs: seq<RingMember>)
    requires forall i, j :: 0 <= i < j < |refs| ==> refs[i] != refs[j]
    ensures Distinct(refs)
  {
    if refs != [] {
      RefsDiffer(refs[1..]);
    }
  }

  lemma NextOutputs(n: nat)
    requires n <= MAX_COMMITMENTS
    ensures BlockOutputs(NEXT_BLOCK, [NextTx(n)]) == NewRefs(n)
    ensures NextTx(n).OutputRefs() == NewRefs(n)
  {
    assert NextTx(n).OutputRefs() == NewRefs(n);
    assert [NextTx(n)][1..] == [] && TxOutputs([]) == [];
  }

  lemma {:induction false} OutputsAreNew(s: Ledger, n: nat)
    requires n <= MAX_COMMITMENTS && s.membership.Keys == {GENESIS_OUTPUT}
    ensures OutputsFresh(s, NewRefs(n))
  {
    MeetsIff(NewRefs(n), s.membership.Keys);
    RefsDiffer(NewRefs(n));
  }

  lemma NextTxIsRingless(n: nat)
    requires 1 <= n <= MAX_COMMITMENTS
    ensures Ringless(Accepting(), NextTx(n))
  {
  }

  lemma NextFollows(s: Ledger)
    requires s.Shaped() && s.ids == [0] && s.timestamps == [0]
    ensures FollowsGenesis(Accepting(), s, NEXT_BLOCK)
  {
  }

  lemma NextCoinbase()
    ensures CoinbaseValid(Accepting(), NEXT_BLOCK.coinbase, Emission.BaseReward(0), NEXT_BLOCK.header.prevId)
  {
    RewardIsFirst();
  }

  lemma NextIsAccepted(n: nat)
    requires 1 <= n <= MAX_COMMITMENTS
    ensures Added(Accepting(), Start(), true, NEXT_BLOCK, [NextTx(n)]).Ok?
  {
    StartFields();
    NextFollows(Start());
    NextTxIsRingless(n);
    NextOutputs(n);
    OutputsAreNew(Start(), n);
    NextCoinbase();
    FirstIsAccepted(Accepting(), Start(), NEXT_BLOCK, NextTx(n));
  }

  /** What the block leaves in the columns that ring selection and the reward rules read. */
  lemma {:induction false} NextColumns(o: Crypto, s: Ledger, n: nat, v: Verdict)
    requires 1 <= n <= MAX_COMMITMENTS && s.Shaped()
    requires s.ids == [0] && s.outputs == [GENESIS_OUTPUT] && s.meta == [OutputMeta(0, true)]
    requires s.blocks == [StoredBlock(GENESIS, [])] && s.maturity == MATURITY && !s.prune
    ensures var s' := Extended(o, s, NEXT_BLOCK, [NextTx(n)], v);
            && OutputsOf(s') == OutputSet([GENESIS_OUTPUT] + NewRefs(n), [OutputMeta(0, true)] + MetaOf(n, 1, false),
                                          2, MATURITY)
            && s'.blocks == [StoredBlock(GENESIS, []), StoredBlock(NEXT_BLOCK, [NextTx(n)])]
  {
    NextOutputs(n);
    assert TxOutputs([NextTx(n)]) == NewRefs(n);
  }

  /** One accepted block on genesis, as the chain it makes. */
  lemma {:induction false} OneBlockChain(o: Crypto, g: Block, maturity: U64, b: StoredBlock)
    returns (s: Ledger, v: Verdict)
    requires IsGenesis(o, g) && Added(o, GenesisLedger(o, g, maturity), true, b.block, b.txs).Ok?
    ensures Genuine(ConsensusRules(o), GenesisLedger(o, g, maturity), s)
    ensures s == Extended(o, GenesisLedger(o, g, maturity), b.block, b.txs, v)
  {
    var start := GenesisLedger(o, g, maturity);
    GenesisIsStart(o, g, maturity);
    ConsensusIsLawful(o);
    StartIsGenuine(ConsensusRules(o), start);
    AddKeepsGenuine(ConsensusRules(o), start, start, b);
    s := Added(o, start, true, b.block, b.txs).value;
    v := AddedReward(o, start, b);
  }

  /**
   Such a chain exists: two blocks high, with maturity 10, its genesis coinbase and any
   number of other outputs up to a transaction's limit; the reward of its second block is
   shielded.
   */
  lemma {:induction false} YoungChainStands(n: nat) returns (s: Ledger)
    requires 1 <= n <= MAX_COMMITMENTS
    ensures Conservation.Sound(Accepting())
    ensures NoteMaturity.Reachable(Accepting(), GENESIS, MATURITY, s)
    ensures OutputsOf(s) == OutputSet([GENESIS_OUTPUT] + NewRefs(n), [OutputMeta(0, true)] + MetaOf(n, 1, false),
                                      2, MATURITY)
    ensures |s.blocks| == 2 && NoteMaturity.RewardAt(s.blocks, 1) == [2]
  {
    AcceptingIsSound();
    StartFields();
    NextIsAccepted(n);
    var v;
    s, v := OneBlockChain(Accepting(), GENESIS, MATURITY, StoredBlock(NEXT_BLOCK, [NextTx(n)]));
    NextColumns(Accepting(), Start(), n, v);
  }

  lemma {:induction false} YoungCount(outs: OutputSet, n: nat)
    requires outs.meta == [OutputMeta(0, true)] + MetaOf(n, 1, false) && outs.tip < outs.maturity
    ensures Boundary(outs) == 1 && Count(outs) == n + 1
  {
    SplitIsBoundary(outs, 1);
    RecentHas(outs.meta, 1);
    CountedSet(outs);
    forall i: nat
      ensures i in Below(1) + SetOf(RecentOf(outs)) <==> i in Below(n + 1)
    {
    }
    assert Below(1) + SetOf(RecentOf(outs)) == Below(n + 1);
  }

  /** Outputs like these offer a ring of the required size with a decoy that may not be spent. */
  lemma {:induction false} YoungRingExists(outs: OutputSet) returns (tape: Tape)
    requires outs.Aligned() && HeightsRise(outs.meta) && outs.tip < outs.maturity
    requires outs.meta == [OutputMeta(0, true)] + MetaOf(RING_SIZE - 1, 1, false)
    ensures InSet(outs, tape) && HoldsUnspendable(outs, RING_SIZE, 1, tape)
  {
    YoungCount(outs, RING_SIZE - 1);
    assert OtherOldCoinbase(outs, 1, 0);
    TopUpsAreSpendable(outs, RING_SIZE, 1);
    tape :| InSet(outs, tape) && HoldsUnspendable(outs, RING_SIZE, 1, tape);
  }

  lemma {:induction false} YoungRingFails(s: Ledger) returns (tape: Tape, input: Input)
    requires Columns(s) && s.Height() == 2 && s.maturity == MATURITY
    requires s.meta == [OutputMeta(0, true)] + MetaOf(RING_SIZE - 1, 1, false)
    ensures s.SpendableAt(1, s.Height()) && InSet(OutputsOf(s), tape)
    ensures Assemble(OutputsOf(s), RING_SIZE, 1, tape).Ring?
    ensures input.ring == Assemble(OutputsOf(s), RING_SIZE, 1, tape).members
    ensures InputsVerdict(s, [input]) == Some(ImmatureCoinbase)
  {
    tape := YoungRingExists(OutputsOf(s));
    input := Input(Assemble(OutputsOf(s), RING_SIZE, 1, tape).members, 0, 0, []);
    AssembledRingPassesIff(s, 1, tape, input);
  }

  /**
   On the chain with fifteen such outputs, the first of which may be spent, some draws
   give a ring of the required size for it that the validator refuses.
   */
  lemma {:induction false} YoungRingIsRefused() returns (s: Ledger, tape: Tape, input: Input)
    ensures NoteMaturity.Reachable(Accepting(), GENESIS, MATURITY, s)
    ensures s.SpendableAt(1, s.Height()) && InSet(OutputsOf(s), tape)
    ensures Assemble(OutputsOf(s), RING_SIZE, 1, tape).Ring?
    ensures input.ring == Assemble(OutputsOf(s), RING_SIZE, 1, tape).members
    ensures InputsVerdict(s, [input]) == Some(ImmatureCoinbase)
  {
    s := YoungChainStands(RING_SIZE - 1);
    ColumnsHold(Accepting(), GENESIS, MATURITY, s);
    tape, input := YoungRingFails(s);
  }

  // --- a second block with a ring reward -----------------------------------

  /** No transactions, and a coinbase that pays new ring outputs. */
  predicate PaysRing(o: Crypto, s: Ledger, block: Block)
    requires s.Shaped()
  {
    && FollowsGenesis(o, s, block) && block.txHashes == [] && block.coinbase.shielded.None?
    && OutputsFresh(s, block.coinbase.OutputRefs())
    && CoinbaseValid(o, block.coinbase, Emission.BaseReward(s.emitted), block.header.prevId)
    && s.shielded.pending == [] && s.shielded.totals.ring == 0
  }

  lemma {:induction false} RingRewardPasses(o: Crypto, s: Ledger, block: Block)
    requires s.Shaped() && PaysRing(o, s, block)
    ensures JudgeReward(o, s, block, [], 0).Ok?
  {
    var subsidy := Emission.BaseReward(s.emitted);
    assert JudgeCoinbase(o, s, block, 0) == Ok(subsidy);
    var credit := Credit(block.coinbase, subsidy, 0);
    assert ShieldedPool.Credited(s.shielded.totals, credit).Ok?;
    assert ShieldedPool.BlockCommitments(s.shielded, [], block.coinbase.height, s.maturity) == [];
    assert JudgePool(o, s, block, [], subsidy, 0).Ok?;
  }

  lemma {:induction false} RingRewardIsAccepted(o: Crypto, s: Ledger, block: Block)
    requires s.Shaped() && PaysRing(o, s, block)
    ensures Added(o, s, true, block, []).Ok?
  {
    HeaderPasses(o, s, block);
    RingRewardPasses(o, s, block);
    assert BlockOutputs(block, []) == block.coinbase.OutputRefs();
  }

  const RING_BLOCK: Block :=
    Block(BlockHeader(1, 0, 1, 0, 0), Coinbase(1, 0, [CoinbaseOutput(1, REWARD, REWARD)], None), [])

  lemma RingCoinbase()
    ensures CoinbaseValid(Accepting(), RING_BLOCK.coinbase, Emission.BaseReward(0), RING_BLOCK.header.prevId)
  {
    RewardIsFirst();
    assert RING_BLOCK.coinbase.outputs[1..] == [] && CheckedTotal([], REWARD) == Some(REWARD);
  }

  lemma RingRefIsNew(s: Ledger)
    requires s.membership.Keys == {GENESIS_OUTPUT}
    ensures OutputsFresh(s, RING_BLOCK.coinbase.OutputRefs())
  {
    var refs := RING_BLOCK.coinbase.OutputRefs();
    MeetsIff(refs, s.membership.Keys);
    RefsDiffer(refs);
  }

  lemma {:induction false} RingBlockIsAccepted()
    ensures Added(Accepting(), Start(), true, RING_BLOCK, []).Ok?
  {
    StartFields();
    RingCoinbase();
    RingRefIsNew(Start());
    RingRewardIsAccepted(Accepting(), Start(), RING_BLOCK);
  }

  lemma {:induction false} RingColumns(o: Crypto, s: Ledger, v: Verdict)
    requires s.Shaped() && !s.prune && s.meta == [OutputMeta(0, true)] && |s.blocks| == 1
    ensures var t := Extended(o, s, RING_BLOCK, [], v);
            |t.blocks| == 2 && t.maturity == s.maturity && |t.meta| == 2 && t.meta[1] == OutputMeta(1, true)
  {
  }

  lemma {:induction false} RingRewardStands() returns (t: Ledger)
    ensures NoteMaturity.Reachable(Accepting(), GENESIS, MATURITY, t)
    ensures |t.blocks| == 2 && |t.meta| == 2 && t.meta[1] == OutputMeta(1, true)
  {
    StartFields();
    RingBlockIsAccepted();
    var v;
    t, v := OneBlockChain(Accepting(), GENESIS, MATURITY, StoredBlock(RING_BLOCK, []));
    RingColumns(Accepting(), Start(), v);
  }

  /**
   The rewards compared by `NoteMaturity.ShieldedAndRingRewardsMatureTogether` exist: two
   chains of one genesis and length, the second block of one paying a shielded reward and
   that of the other a ring output.
   */
  lemma {:induction false} RewardsOfBothKinds() returns (s: Ledger, t: Ledger)
    ensures Conservation.Sound(Accepting())
    ensures NoteMaturity.Reachable(Accepting(), GENESIS, MATURITY, s) && |s.blocks| == 2
    ensures NoteMaturity.Reachable(Accepting(), GENESIS, MATURITY, t) && |t.blocks| == 2
    ensures NoteMaturity.RewardAt(s.blocks, 1) == [2]
    ensures |t.meta| == 2 && t.meta[1] == OutputMeta(1, true)
  {
    s := YoungChainStands(1);
    t := RingRewardStands();
  }
}
