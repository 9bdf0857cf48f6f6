/**
 Restarting a node from its snapshot: on every reachable chain whose maturity the format
 can hold, restoring succeeds, and the restored chain answers every later block as the
 original does (noct/core/src/chain.rs, noct/core/src/shielded_state.rs).
 */
module RestoredChains {
  import opened Types
  import opened Data
  import opened Oracles
  import opened Ledgers
  import opened Replay
  import opened Consensus
  import opened Conservation
  import opened Restart
  import opened Snapshots
  import opened ShieldedPool
  import ChainTime
  import NoteMaturity
  import RingAcceptance
  import Pools

  /** Up to here the queue, one shorter than the maturity, stays within the 100 entries the decoder takes. */
  const MAX_SNAPSHOT_MATURITY: nat := 101

  // --- as many nullifiers as leaves at most --------------------------------

  lemma {:induction false} ScanAddsPerAction(p: PoolState, bundles: seq<Bundle>, acc: Scan)
    requires ScanBundles(p, bundles, acc).Ok?
    ensures |ScanBundles(p, bundles, acc).value.added| == |acc.added| + |BundleCommitments(bundles)|
    decreases |bundles|
  {
    if bundles != [] {
      var step := ScanBundle(p, bundles[0], acc).value;
      ScanAddsPerAction(p, bundles[1..], step);
    }
  }

  lemma {:induction false} SetIsNoLarger<T>(xs: seq<T>)
    ensures |SetOf(xs)| <= |xs|
  {
    if xs != [] {
      SetIsNoLarger(xs[1..]);
      assert xs == [xs[0]] + xs[1..];
      assert SetOf(xs) == {xs[0]} + SetOf(xs[1..]);
    }
  }

  /** Every spend reveals one nullifier and adds one leaf. */
  lemma ApplyCountsNullifiers(
    o: Crypto, p: PoolState, bundles: seq<Bundle>, credit: CoinbaseCredit, height: nat, maturity: U64)
    requires Apply(o, p, bundles, credit, height, maturity).Ok? && |p.nullifiers| <= |p.tree|
    ensures var after := Apply(o, p, bundles, credit, height, maturity).value.after;
            |after.nullifiers| <= |after.tree|
  {
    var totals := Credited(p.totals, credit).value;
    var scan := Scan([], totals);
    ScanAddsPerAction(p, bundles, scan);
    var added := ScanBundles(p, bundles, scan).value.added;
    SetIsNoLarger(added);
    assert |p.nullifiers + SetOf(added)| <= |p.nullifiers| + |SetOf(added)|;
  }

  lemma GenesisNullifiers(o: Crypto, g: Block, maturity: U64)
    requires IsGenesis(o, g)
    ensures GenesisLedger(o, g, maturity).shielded.nullifiers == {}
  {
    var credit := CoinbaseCredit(Pools.Ring, Premine(g), 0, None);
    assert Apply(o, EmptyPool(o), [], credit, 0, maturity).Ok?;
  }

  lemma NullifiersWithinTree(o: Crypto, g: Block, maturity: U64, s: Ledger)
    requires IsGenesis(o, g)
    requires Genuine(ConsensusRules(o), GenesisLedger(o, g, maturity), s)
    ensures |s.shielded.nullifiers| <= |s.shielded.tree| && s.maturity == maturity
    ensures s.ids[0] == o.blockId(g)
  {
    var rules, start := ConsensusRules(o), GenesisLedger(o, g, maturity);
    ConsensusIsLawful(o);
    GenesisNullifiers(o, g, maturity);
    var inv := (t: Ledger) => |t.shielded.nullifiers| <= |t.shielded.tree| && t.maturity == maturity;
    forall t, b | rules.valid(t) && inv(t) && rules.add(t, true, b).Ok?
      ensures inv(rules.add(t, true, b).value)
    {
      var v := AddedReward(o, t, b);
      ApplyCountsNullifiers(o, t.shielded, BlockBundles(b.txs), Credit(b.block.coinbase, v.subsidy, v.fees),
        b.block.coinbase.height, t.maturity);
    }
    ReplayInduction(rules, start, s.blocks[1..], s, inv);
    GenuineFacts(rules, start, s);
    GenuineIsIdentified(rules, start, s);
  }

  // --- the snapshot holds the state ----------------------------------------

  lemma ReadOffPoolFits(o: Crypto, lib: TreeLibrary, p: PoolState, blocks: seq<StoredBlock>, maturity: U64)
    requires NoteMaturity.PoolReadsOff(o, p, blocks, maturity) && maturity <= MAX_SNAPSHOT_MATURITY
    requires |p.pending| <= Max(1, maturity - 1) && |p.anchors| == Min(ANCHOR_DEPTH, |blocks| + 1)
    requires blocks != [] && |p.nullifiers| < TWO_32 && Rebuilds(lib, p.tree)
    ensures PoolFits(o, lib, p)
  {
    var delay := NoteMaturity.Delay(maturity);
    NoteMaturity.WaitingHeights(blocks, NoteMaturity.Oldest(|blocks|, delay), |blocks|);
    var roots := NoteMaturity.Roots(o, blocks, delay);
    assert roots[|roots| - 1] == o.treeRoot(p.tree);
    assert p.anchors[|p.anchors| - 1] == roots[|roots| - 1];
  }

  /** What the counts and the tree library have to be good for. */
  predicate Recordable(lib: TreeLibrary, s: Ledger) {
    && s.maturity <= MAX_SNAPSHOT_MATURITY && |s.blocks| + s.maturity <= U64_MAX
    && |s.shielded.tree| < TWO_32 && Rebuilds(lib, s.shielded.tree)
    && |s.outputs| < TWO_64 && |s.spent| < TWO_64
  }

  lemma PoolIsRecordable(o: Crypto, lib: TreeLibrary, g: Block, maturity: U64, s: Ledger)
    requires IsGenesis(o, g)
    requires Genuine(ConsensusRules(o), GenesisLedger(o, g, maturity), s)
    requires Recordable(lib, s)
    ensures PoolFits(o, lib, s.shielded)
  {
    NullifiersWithinTree(o, g, maturity, s);
    NoteMaturity.PoolReadsOffChain(o, g, maturity, s);
    ReadOffPoolFits(o, lib, s.shielded, s.blocks, maturity);
  }

  /** The chain without its history: what a restored node holds. */
  function Forgotten(s: Ledger): Ledger {
    s.(blocks := [], undos := [], prune := false)
  }

  lemma IndexesAgree(outputs: seq<RingMember>, index: map<RingMember, nat>, other: map<RingMember, nat>)
    requires IndexIsExact(outputs, index) && IndexIsExact(outputs, other)
    ensures index == other
  {
    forall m | m in index
      ensures m in other && index[m] == other[m]
    {
      assert m in SetOf(outputs);
      var i :| 0 <= i < |outputs| && outputs[i] == m;
    }
    assert index.Keys == other.Keys;
  }

  lemma {:induction false} DistinctCount<T>(xs: seq<T>)
    requires Distinct(xs)
    ensures |SetOf(xs)| == |xs|
  {
    if xs != [] {
      DistinctCount(xs[1..]);
      assert xs == [xs[0]] + xs[1..];
      assert SetOf(xs) == {xs[0]} + SetOf(xs[1..]);
    }
  }

  /** Rebuilding the membership index from the outputs gives the one the chain had. */
  lemma IndexRebuilds(outputs: seq<RingMember>, membership: map<RingMember, nat>)
    requires IndexIsExact(outputs, membership)
    ensures Indexed(map[], 0, outputs) == membership && |membership| == |outputs|
  {
    var none: seq<RingMember> := [];
    assert none + outputs == outputs;
    IndexedExtends(none, map[], outputs);
    IndexesAgree(outputs, Indexed(map[], 0, outputs), membership);
    DistinctCount(outputs);
    assert |membership.Keys| == |outputs|;
  }

  lemma FromStateRestores(o: Crypto, lib: TreeLibrary, codec: SnapshotCodec, s: Ledger, genesis: Bytes32)
    requires RoundTrips(o, lib, codec)
    requires s.Shaped() && PoolFits(o, lib, s.shielded) && IndexIsExact(s.outputs, s.membership)
    requires s.ids[0] == genesis && forall i :: 0 <= i < |s.work| ==> s.work[i] < TWO_128
    ensures FromState(codec, genesis, Snapshot(codec, s)) == Some(Forgotten(s))
  {
    var cs := Snapshot(codec, s);
    IndexRebuilds(s.outputs, s.membership);
    AscendingCount(Sorted(s.spent));
    assert codec.poolFrom(codec.poolBytes(s.shielded)) == Some(s.shielded);
    assert cs.work == s.work;
  }

  lemma SnapshotCounts(codec: SnapshotCodec, s: Ledger)
    requires s.Shaped() && |s.ids| < TWO_64 && |s.outputs| < TWO_64 && |s.spent| < TWO_64
    requires |codec.poolBytes(s.shielded)| < TWO_64
    ensures Countable(Snapshot(codec, s))
  {
    AscendingCount(Sorted(s.spent));
  }

  lemma WorkFits(o: Crypto, g: Block, maturity: U64, s: Ledger)
    requires IsGenesis(o, g)
    requires Genuine(ConsensusRules(o), GenesisLedger(o, g, maturity), s)
    requires |s.ids| <= TWO_64
    ensures forall i :: 0 <= i < |s.work| ==> s.work[i] < TWO_128
  {
    ChainTime.TimeAndWorkHold(o, g, maturity, s);
    if |s.ids| >= 2 {
      ChainTime.SafeFromWork(s.timestamps, s.work);
    }
  }

  /** What a reachable chain brings to its snapshot. */
  ghost predicate Recorded(o: Crypto, lib: TreeLibrary, s: Ledger, genesis: Bytes32) {
    && s.Shaped() && |s.ids| < TWO_64 && s.ids[0] == genesis
    && PoolFits(o, lib, s.shielded) && IndexIsExact(s.outputs, s.membership)
    && (forall i :: 0 <= i < |s.work| ==> s.work[i] < TWO_128)
  }

  lemma ReachableIsRecorded(o: Crypto, lib: TreeLibrary, g: Block, maturity: U64, s: Ledger)
    requires IsGenesis(o, g)
    requires Genuine(ConsensusRules(o), GenesisLedger(o, g, maturity), s)
    requires Recordable(lib, s)
    ensures Recorded(o, lib, s, o.blockId(g))
  {
    ConsensusIsLawful(o);
    GenuineFacts(ConsensusRules(o), GenesisLedger(o, g, maturity), s);
    PoolIsRecordable(o, lib, g, maturity, s);
    NullifiersWithinTree(o, g, maturity, s);
    RingAcceptance.ColumnsHold(o, g, maturity, s);
    WorkFits(o, g, maturity, s);
  }

  /** Restarting: the bytes on disk, decoded and restored for the expected network. */
  function Restarted(codec: SnapshotCodec, genesis: Bytes32, bytes: seq<Byte>): Option<Ledger> {
    match codec.decode(bytes)
    case None => None
    case Some(cs) => FromState(codec, genesis, cs)
  }

  lemma RecordedRestarts(o: Crypto, lib: TreeLibrary, codec: SnapshotCodec, s: Ledger, genesis: Bytes32)
    requires RoundTrips(o, lib, codec) && Recorded(o, lib, s, genesis)
    requires |s.outputs| < TWO_64 && |s.spent| < TWO_64 && |codec.poolBytes(s.shielded)| < TWO_64
    ensures Restarted(codec, genesis, codec.encode(Snapshot(codec, s))) == Some(Forgotten(s))
  {
    SnapshotCounts(codec, s);
    FromStateRestores(o, lib, codec, s, genesis);
    assert codec.decode(codec.encode(Snapshot(codec, s))) == Some(Snapshot(codec, s));
  }

  /** On every reachable chain a restart succeeds, and only the history is forgotten. */
  lemma RestartSucceeds(o: Crypto, lib: TreeLibrary, codec: SnapshotCodec, g: Block, maturity: U64, s: Ledger)
    requires IsGenesis(o, g) && RoundTrips(o, lib, codec)
    requires Genuine(ConsensusRules(o), GenesisLedger(o, g, maturity), s)
    requires Recordable(lib, s) && |codec.poolBytes(s.shielded)| < TWO_64
    ensures s.Shaped()
    ensures Restarted(codec, o.blockId(g), codec.encode(Snapshot(codec, s))) == Some(Forgotten(s))
  {
    ReachableIsRecorded(o, lib, g, maturity, s);
    RecordedRestarts(o, lib, codec, s, o.blockId(g));
  }

  lemma FollowsForgotten(o: Crypto, codec: SnapshotCodec, s: Ledger, calls: seq<Call>)
    requires s.Shaped()
    ensures Forgotten(s).Shaped()
    ensures Answers(o, Forgotten(s), calls) == Answers(o, s, calls)
    ensures Snapshot(codec, After(o, Forgotten(s), calls)) == Snapshot(codec, After(o, s, calls))
  {
    ForwardIndistinguishable(o, s, Forgotten(s), calls);
  }

  /**
   The restarted chain cannot be told from the original by anything that comes next: every
   later sequence of blocks gets the same answers and leaves the same snapshot. With
   `ProgramCodecRoundTrips` this is about the program's own encodings.
   */
  lemma RestartedChainFollows(
    o: Crypto, lib: TreeLibrary, codec: SnapshotCodec, g: Block, maturity: U64, s: Ledger, calls: seq<Call>)
    requires IsGenesis(o, g) && RoundTrips(o, lib, codec)
    requires Genuine(ConsensusRules(o), GenesisLedger(o, g, maturity), s)
    requires Recordable(lib, s) && |codec.poolBytes(s.shielded)| < TWO_64
    ensures s.Shaped()
    ensures var restarted := Restarted(codec, o.blockId(g), codec.encode(Snapshot(codec, s)));
            && restarted.Some? && restarted.value.Shaped()
            && Answers(o, restarted.value, calls) == Answers(o, s, calls)
            && Snapshot(codec, After(o, restarted.value, calls)) == Snapshot(codec, After(o, s, calls))
  {
    RestartSucceeds(o, lib, codec, g, maturity, s);
    FollowsForgotten(o, codec, s, calls);
  }
}
