/**
 When a shielded reward becomes provable. The note tree, the anchor window and the
 queue of waiting rewards of every reachable chain, read off its blocks directly, and
 compared with the maturity rule for ring outputs.
 */
module NoteMaturity {
  import opened Types
  import opened Data
  import opened Oracles
  import opened Ledgers
  import opened Replay
  import opened Consensus
  import opened ShieldedPool
  import Pools

  /** How many blocks a queued note waits: the block that queued it never takes it in. */
  function Delay(maturity: U64): nat {
    Max(maturity, 2) - 1
  }

  /** A leaf of the note tree, with the height of the block whose reward or transaction made it. */
  datatype Leaf =
    | Reward(height: nat, note: Bytes32)
    | Created(height: nat, note: Bytes32)

  function RewardAt(blocks: seq<StoredBlock>, h: nat): seq<Bytes32>
    requires h < |blocks|
  {
    match blocks[h].block.coinbase.shielded
    case Some(bundle) => if bundle.actions != [] then [bundle.actions[0].cmx] else []
    case None => []
  }

  function NotesOf(b: StoredBlock): seq<Bytes32> {
    BundleCommitments(BlockBundles(b.txs))
  }

  function Label(make: Bytes32 -> Leaf, notes: seq<Bytes32>): (leaves: seq<Leaf>)
    ensures |leaves| == |notes|
    ensures forall i :: 0 <= i < |notes| ==> leaves[i] == make(notes[i])
  {
    seq(|notes|, i requires 0 <= i < |notes| => make(notes[i]))
  }

  /** The reward the block at this height matures, if there is one that old. */
  function MaturedAt(blocks: seq<StoredBlock>, height: nat, delay: nat): seq<Leaf>
    requires height < |blocks|
  {
    if height >= delay then
      Label((x: Bytes32) => Reward(height - delay, x), RewardAt(blocks, height - delay))
    else []
  }

  function OwnLeaves(height: nat, b: StoredBlock): seq<Leaf> {
    Label((x: Bytes32) => Created(height, x), NotesOf(b))
  }

  /** The leaves in tree order: each block adds the reward that has just matured, then its own notes. */
  function Leaves(blocks: seq<StoredBlock>, delay: nat): seq<Leaf> {
    if blocks == [] then []
    else
      var top := |blocks| - 1;
      Leaves(blocks[..top], delay) + MaturedAt(blocks, top, delay) + OwnLeaves(top, blocks[top])
  }

  function Values(leaves: seq<Leaf>): (notes: seq<Bytes32>)
    ensures |notes| == |leaves|
    ensures forall i :: 0 <= i < |leaves| ==> notes[i] == leaves[i].note
  {
    seq(|leaves|, i requires 0 <= i < |leaves| => leaves[i].note)
  }

  /** Queue entries for the shielded rewards of the blocks in a range of heights. */
  function Waiting(blocks: seq<StoredBlock>, low: nat, high: nat): (queue: seq<Queued>)
    requires low <= high <= |blocks|
    ensures |queue| <= high - low
    decreases high - low
  {
    if low == high then []
    else
      (if RewardAt(blocks, low) != [] then [Queued(low, RewardAt(blocks, low)[0])] else []) +
      Waiting(blocks, low + 1, high)
  }

  /** The root of the empty tree and of the tree after every block, oldest first. */
  function Roots(o: Crypto, blocks: seq<StoredBlock>, delay: nat): (roots: seq<Bytes32>)
    ensures |roots| == |blocks| + 1
  {
    if blocks == [] then [o.treeRoot([])]
    else Roots(o, blocks[..|blocks| - 1], delay) + [o.treeRoot(Values(Leaves(blocks, delay)))]
  }

  function MaturedLeaves(blocks: seq<StoredBlock>, b: StoredBlock, delay: nat): seq<Leaf> {
    MaturedAt(blocks + [b], |blocks|, delay)
  }

  lemma {:induction false} LeavesUnfold(blocks: seq<StoredBlock>, b: StoredBlock, delay: nat)
    ensures Leaves(blocks + [b], delay) ==
            Leaves(blocks, delay) + MaturedLeaves(blocks, b, delay) + OwnLeaves(|blocks|, b)
  {
    assert (blocks + [b])[..|blocks|] == blocks;
  }

  // --- independent reading of the leaves -----------------------------------

  /** Which rewards the block on top of `blocks` matures. */
  lemma MaturesWhat(blocks: seq<StoredBlock>, b: StoredBlock, delay: nat, h: nat, note: Bytes32)
    requires delay >= 1
    ensures Reward(h, note) in MaturedLeaves(blocks, b, delay) <==>
            h + delay == |blocks| && note in RewardAt(blocks + [b], h)
    ensures Reward(h, note) !in OwnLeaves(|blocks|, b)
  {
    var matured := MaturedLeaves(blocks, b, delay);
    if h + delay == |blocks| && note in RewardAt(blocks + [b], h) {
      assert matured[0] == Reward(h, note);
    }
  }

  /** A leaf of the longer chain was there before, or is the matured reward, or one of the block's own. */
  lemma {:induction false} LeafOfNext(blocks: seq<StoredBlock>, b: StoredBlock, delay: nat, leaf: Leaf)
    ensures leaf in Leaves(blocks + [b], delay) <==>
              leaf in Leaves(blocks, delay) || leaf in MaturedLeaves(blocks, b, delay)
              || leaf in OwnLeaves(|blocks|, b)
  {
    LeavesUnfold(blocks, b, delay);
  }

  /** Which rewards the longer chain's tree has that the shorter one's has not. */
  lemma {:induction false} RewardOfNext(
    below: seq<StoredBlock>, b: StoredBlock, delay: nat, h: nat, note: Bytes32)
    requires delay >= 1
    ensures Reward(h, note) in Leaves(below + [b], delay) <==>
              Reward(h, note) in Leaves(below, delay)
              || (h + delay == |below| && note in RewardAt(below + [b], h))
  {
    LeafOfNext(below, b, delay, Reward(h, note));
    MaturesWhat(below, b, delay, h, note);
  }

  /** The reward of block h is in the tree once `delay` further blocks have come. */
  predicate LeafWhenDue(blocks: seq<StoredBlock>, delay: nat, h: nat, note: Bytes32) {
    Reward(h, note) in Leaves(blocks, delay) <==> h + delay < |blocks| && note in RewardAt(blocks, h)
  }

  lemma {:induction false} LeafWhenDueStep(
    below: seq<StoredBlock>, b: StoredBlock, delay: nat, h: nat, note: Bytes32)
    requires delay >= 1 && LeafWhenDue(below, delay, h, note)
    ensures LeafWhenDue(below + [b], delay, h, note)
  {
    RewardOfNext(below, b, delay, h, note);
    if h < |below| {
      assert RewardAt(below + [b], h) == RewardAt(below, h);
    }
  }

  lemma {:induction false} LeavesWhenDue(blocks: seq<StoredBlock>, delay: nat, h: nat, note: Bytes32)
    requires delay >= 1
    ensures LeafWhenDue(blocks, delay, h, note)
  {
    if blocks != [] {
      var below, b := blocks[..|blocks| - 1], blocks[|blocks| - 1];
      LeavesWhenDue(below, delay, h, note);
      LeafWhenDueStep(below, b, delay, h, note);
      assert blocks == below + [b];
    }
  }

  /**
   The reward of block h is a leaf of the tree after n blocks exactly when
   `h + max(maturity, 2) <= n`, whatever the other blocks carry.
   */
  lemma {:induction false} RewardIsLeafIff(blocks: seq<StoredBlock>, maturity: U64, h: nat, note: Bytes32)
    ensures Reward(h, note) in Leaves(blocks, Delay(maturity)) <==>
            h + Max(maturity, 2) <= |blocks| && note in RewardAt(blocks, h)
  {
    LeavesWhenDue(blocks, Delay(maturity), h, note);
  }

  // --- the queue -----------------------------------------------------------

  lemma {:induction false} WaitingSplits(blocks: seq<StoredBlock>, low: nat, mid: nat, high: nat)
    requires low <= mid <= high <= |blocks|
    ensures Waiting(blocks, low, high) == Waiting(blocks, low, mid) + Waiting(blocks, mid, high)
    decreases mid - low
  {
    if low < mid {
      WaitingSplits(blocks, low + 1, mid, high);
    }
  }

  predicate HeightsWithin(queue: seq<Queued>, low: nat, high: nat) {
    forall i :: 0 <= i < |queue| ==> low <= queue[i].height < high
  }

  lemma {:induction false} WaitingHeights(blocks: seq<StoredBlock>, low: nat, high: nat)
    requires low <= high <= |blocks|
    ensures HeightsWithin(Waiting(blocks, low, high), low, high)
    decreases high - low
  {
    if low < high {
      WaitingHeights(blocks, low + 1, high);
    }
  }

  lemma {:induction false} DueCountOf(due: seq<Queued>, rest: seq<Queued>, height: nat, maturity: U64)
    requires forall i :: 0 <= i < |due| ==> DueAt(due[i], height, maturity)
    requires rest != [] ==> !DueAt(rest[0], height, maturity)
    ensures DueCount(due + rest, height, maturity) == |due|
  {
    if due == [] {
      assert due + rest == rest;
    } else {
      assert (due + rest)[1..] == due[1..] + rest;
      DueCountOf(due[1..], rest, height, maturity);
    }
  }

  /** The lowest height whose reward is still waiting after n blocks, and the lowest left by the next one. */
  function Oldest(n: nat, delay: nat): nat {
    if n >= delay then n - delay else 0
  }

  function NextOldest(n: nat, delay: nat): nat {
    if n >= delay then n - delay + 1 else 0
  }

  /** What the block at height n takes out of the queue. */
  function Maturing(blocks: seq<StoredBlock>, delay: nat): seq<Queued>
    requires delay >= 1
  {
    Waiting(blocks, Oldest(|blocks|, delay), NextOldest(|blocks|, delay))
  }

  function Staying(blocks: seq<StoredBlock>, delay: nat): seq<Queued>
    requires delay >= 1
  {
    Waiting(blocks, NextOldest(|blocks|, delay), |blocks|)
  }

  /** The front of the queue at height n is exactly what is due. */
  lemma DueIsOldest(blocks: seq<StoredBlock>, maturity: U64)
    requires |blocks| + maturity <= U64_MAX
    ensures var n, delay := |blocks|, Delay(maturity);
            Waiting(blocks, Oldest(n, delay), n) == Maturing(blocks, delay) + Staying(blocks, delay) &&
            DueCount(Waiting(blocks, Oldest(n, delay), n), n, maturity) == |Maturing(blocks, delay)|
  {
    var n, delay := |blocks|, Delay(maturity);
    WaitingSplits(blocks, Oldest(n, delay), NextOldest(n, delay), n);
    WaitingHeights(blocks, Oldest(n, delay), NextOldest(n, delay));
    WaitingHeights(blocks, NextOldest(n, delay), n);
    DueCountOf(Maturing(blocks, delay), Staying(blocks, delay), n, maturity);
  }

  // --- the invariant -------------------------------------------------------

  predicate TreeReadsOff(tree: seq<Bytes32>, blocks: seq<StoredBlock>, delay: nat) {
    tree == Values(Leaves(blocks, delay))
  }

  predicate QueueReadsOff(pending: seq<Queued>, blocks: seq<StoredBlock>, delay: nat)
  {
    pending == Waiting(blocks, Oldest(|blocks|, delay), |blocks|)
  }

  ghost predicate AnchorsReadOff(o: Crypto, anchors: seq<Bytes32>, blocks: seq<StoredBlock>, delay: nat) {
    anchors == Recent(Roots(o, blocks, delay))
  }

  ghost predicate PoolReadsOff(o: Crypto, p: PoolState, blocks: seq<StoredBlock>, maturity: U64) {
    && |blocks| + maturity <= U64_MAX
    && TreeReadsOff(p.tree, blocks, Delay(maturity))
    && QueueReadsOff(p.pending, blocks, Delay(maturity))
    && AnchorsReadOff(o, p.anchors, blocks, Delay(maturity))
  }

  /** What the block at height n matures, as notes: the reward of block `n - delay`, if it is shielded. */
  lemma MaturedNotes(blocks: seq<StoredBlock>, b: StoredBlock, delay: nat)
    requires delay >= 1
    ensures Notes(Maturing(blocks, delay)) ==
            if |blocks| >= delay then RewardAt(blocks + [b], |blocks| - delay) else []
  {
    var n := |blocks|;
    if n >= delay {
      assert (blocks + [b])[n - delay] == blocks[n - delay];
      assert Waiting(blocks, n - delay + 1, n - delay + 1) == [];
    }
  }

  lemma ValuesOfParts(xs: seq<Leaf>, ys: seq<Leaf>, zs: seq<Leaf>)
    ensures Values(xs + ys + zs) == Values(xs) + (Values(ys) + Values(zs))
  {
  }

  lemma MaturedValues(blocks: seq<StoredBlock>, b: StoredBlock, delay: nat)
    requires delay >= 1
    ensures Values(MaturedLeaves(blocks, b, delay)) == Notes(Maturing(blocks, delay))
  {
    MaturedNotes(blocks, b, delay);
  }

  lemma OwnValues(height: nat, b: StoredBlock)
    ensures Values(OwnLeaves(height, b)) == NotesOf(b)
  {
  }

  /** One more block, seen from the tree: the matured reward, then the block's own notes. */
  lemma LeavesGrow(blocks: seq<StoredBlock>, b: StoredBlock, delay: nat)
    requires delay >= 1
    ensures Values(Leaves(blocks + [b], delay)) ==
            Values(Leaves(blocks, delay)) + (Notes(Maturing(blocks, delay)) + NotesOf(b))
  {
    LeavesUnfold(blocks, b, delay);
    ValuesOfParts(Leaves(blocks, delay), MaturedLeaves(blocks, b, delay), OwnLeaves(|blocks|, b));
    MaturedValues(blocks, b, delay);
    OwnValues(|blocks|, b);
  }

  /** The entry the block itself queues. */
  function OwnEntry(b: StoredBlock, height: nat): seq<Queued> {
    if RewardAt([b], 0) != [] then [Queued(height, RewardAt([b], 0)[0])] else []
  }

  lemma {:induction false} WaitingGrows(blocks: seq<StoredBlock>, b: StoredBlock, low: nat)
    requires low <= |blocks|
    ensures Waiting(blocks + [b], low, |blocks| + 1) == Waiting(blocks, low, |blocks|) + OwnEntry(b, |blocks|)
    decreases |blocks| - low
  {
    if low == |blocks| {
      assert Waiting(blocks + [b], low + 1, low + 1) == [];
    } else {
      assert RewardAt(blocks + [b], low) == RewardAt(blocks, low);
      WaitingGrows(blocks, b, low + 1);
    }
  }

  lemma RecentIsStable(roots: seq<Bytes32>, root: Bytes32)
    ensures Recent(Recent(roots) + [root]) == Recent(roots + [root])
  {
  }

  /** What `Apply` does to the three components that can be read off. */
  ghost predicate PoolMoves(
    o: Crypto, p: PoolState, after: PoolState, bundles: seq<Bundle>, queued: seq<Queued>, height: nat, maturity: U64)
  {
    var due := DueCount(p.pending, height, maturity);
    && after.tree == p.tree + (Notes(p.pending[..due]) + BundleCommitments(bundles))
    && after.pending == p.pending[due..] + queued
    && after.anchors == Recent(p.anchors + [o.treeRoot(after.tree)])
  }

  lemma ApplyMovesPool(
    o: Crypto, p: PoolState, bundles: seq<Bundle>, credit: CoinbaseCredit, height: nat, maturity: U64)
    requires Apply(o, p, bundles, credit, height, maturity).Ok?
    ensures PoolMoves(o, p, Apply(o, p, bundles, credit, height, maturity).value.after, bundles,
                      QueuedNote(credit, height), height, maturity)
  {
  }

  lemma TakeAndDrop<T>(xs: seq<T>, ys: seq<T>)
    ensures (xs + ys)[..|xs|] == xs && (xs + ys)[|xs|..] == ys
  {
  }

  lemma TreeStep(
    tree: seq<Bytes32>, pending: seq<Queued>, blocks: seq<StoredBlock>, b: StoredBlock, maturity: U64)
    requires |blocks| + 1 + maturity <= U64_MAX
    requires TreeReadsOff(tree, blocks, Delay(maturity)) && QueueReadsOff(pending, blocks, Delay(maturity))
    ensures TreeReadsOff(tree + (Notes(pending[..DueCount(pending, |blocks|, maturity)]) + NotesOf(b)),
                         blocks + [b], Delay(maturity))
  {
    DueIsOldest(blocks, maturity);
    TakeAndDrop(Maturing(blocks, Delay(maturity)), Staying(blocks, Delay(maturity)));
    LeavesGrow(blocks, b, Delay(maturity));
  }

  lemma QueueStep(pending: seq<Queued>, due: nat, blocks: seq<StoredBlock>, b: StoredBlock, delay: nat)
    requires delay >= 1 && due == |Maturing(blocks, delay)|
    requires pending == Maturing(blocks, delay) + Staying(blocks, delay)
    ensures QueueReadsOff(pending[due..] + OwnEntry(b, |blocks|), blocks + [b], delay)
  {
    TakeAndDrop(Maturing(blocks, delay), Staying(blocks, delay));
    WaitingGrows(blocks, b, NextOldest(|blocks|, delay));
    assert Oldest(|blocks| + 1, delay) == NextOldest(|blocks|, delay);
  }

  lemma AnchorStep(
    o: Crypto, anchors: seq<Bytes32>, tree: seq<Bytes32>, blocks: seq<StoredBlock>, b: StoredBlock, delay: nat)
    requires AnchorsReadOff(o, anchors, blocks, delay) && TreeReadsOff(tree, blocks + [b], delay)
    ensures AnchorsReadOff(o, Recent(anchors + [o.treeRoot(tree)]), blocks + [b], delay)
  {
    assert (blocks + [b])[..|blocks|] == blocks;
    RecentIsStable(Roots(o, blocks, delay), o.treeRoot(tree));
  }

  /** The pool after a block reads off the longer chain. */
  lemma PoolStep(
    o: Crypto, p: PoolState, after: PoolState, blocks: seq<StoredBlock>, b: StoredBlock, maturity: U64)
    requires PoolReadsOff(o, p, blocks, maturity) && |blocks| + 1 + maturity <= U64_MAX
    requires PoolMoves(o, p, after, BlockBundles(b.txs), OwnEntry(b, |blocks|), |blocks|, maturity)
    ensures PoolReadsOff(o, after, blocks + [b], maturity)
  {
    TreeStep(p.tree, p.pending, blocks, b, maturity);
    DueIsOldest(blocks, maturity);
    QueueStep(p.pending, DueCount(p.pending, |blocks|, maturity), blocks, b, Delay(maturity));
    AnchorStep(o, p.anchors, after.tree, blocks, b, Delay(maturity));
  }

  lemma GenesisPool(o: Crypto, g: Block, maturity: U64)
    requires IsGenesis(o, g) && 1 + maturity <= U64_MAX
    ensures PoolReadsOff(o, GenesisLedger(o, g, maturity).shielded, [StoredBlock(g, [])], maturity)
  {
    var credit := CoinbaseCredit(Pools.Ring, Premine(g), 0, None);
    var b, empty := StoredBlock(g, []), EmptyPool(o);
    assert Apply(o, empty, [], credit, 0, maturity).Ok?;
    assert Leaves([], Delay(maturity)) == [] && Values([]) == [];
    assert PoolReadsOff(o, empty, [], maturity);
    ApplyMovesPool(o, empty, [], credit, 0, maturity);
    PoolStep(o, empty, Apply(o, empty, [], credit, 0, maturity).value.after, [], b, maturity);
    assert [] + [b] == [b];
  }

  lemma AcceptedBlockStep(o: Crypto, s: Ledger, b: StoredBlock, v: Verdict)
    requires b.block.coinbase.height == |s.blocks| && PoolOk(o, s, b, v)
    requires PoolReadsOff(o, s.shielded, s.blocks, s.maturity) && |s.blocks| + 1 + s.maturity <= U64_MAX
    ensures PoolReadsOff(o, v.pool.after, s.blocks + [b], s.maturity)
  {
    var credit := Credit(b.block.coinbase, v.subsidy, v.fees);
    assert QueuedNote(credit, |s.blocks|) == OwnEntry(b, |s.blocks|);
    ApplyMovesPool(o, s.shielded, BlockBundles(b.txs), credit, |s.blocks|, s.maturity);
    PoolStep(o, s.shielded, v.pool.after, s.blocks, b, s.maturity);
  }

  /**
   On every reachable chain the tree holds exactly the rewards old enough and all notes
   of transactions, in consensus order; the queue holds exactly the younger shielded
   rewards, at most `max(1, maturity - 1)` of them; the anchors are the last
   `min(100, n + 1)` roots.
   */
  lemma {:induction false} PoolReadsOffChain(o: Crypto, g: Block, maturity: U64, s: Ledger)
    requires IsGenesis(o, g)
    requires Genuine(ConsensusRules(o), GenesisLedger(o, g, maturity), s)
    requires |s.blocks| + maturity <= U64_MAX
    ensures PoolReadsOff(o, s.shielded, s.blocks, maturity)
    ensures |s.shielded.pending| <= Max(1, maturity - 1)
    ensures |s.shielded.anchors| == Min(ANCHOR_DEPTH, |s.blocks| + 1)
  {
    var rules, start := ConsensusRules(o), GenesisLedger(o, g, maturity);
    ConsensusIsLawful(o);
    GenesisPool(o, g, maturity);
    var inv := (t: Ledger) => t.maturity == maturity &&
      (|t.blocks| + maturity <= U64_MAX ==> PoolReadsOff(o, t.shielded, t.blocks, maturity));
    forall t, b | rules.valid(t) && inv(t) && rules.add(t, true, b).Ok?
      ensures inv(rules.add(t, true, b).value)
    {
      var t' := rules.add(t, true, b).value;
      assert AcceptLaw(rules, t, b, t');
      var v := AddedReward(o, t, b);
      if |t'.blocks| + maturity <= U64_MAX {
        AcceptedBlockStep(o, t, b, v);
      }
    }
    ReplayInduction(rules, start, s.blocks[1..], s, inv);
  }

  // --- what the accepted anchors commit to ---------------------------------

  lemma {:induction false} RootAfter(o: Crypto, blocks: seq<StoredBlock>, delay: nat, n: nat)
    requires n <= |blocks|
    ensures Roots(o, blocks, delay)[n] == o.treeRoot(Values(Leaves(blocks[..n], delay)))
  {
    if n == |blocks| {
      assert blocks[..n] == blocks;
    } else {
      var below := blocks[..|blocks| - 1];
      assert below[..n] == blocks[..n];
      RootAfter(o, below, delay, n);
    }
  }

  /** How many blocks the tree behind the k-th accepted anchor has seen. */
  function AnchorHeight(s: Ledger, k: nat): int {
    |s.blocks| + 1 - |s.shielded.anchors| + k
  }

  /** The leaves of the tree after the first n blocks. */
  function LeavesAfter(s: Ledger, n: nat): seq<Leaf>
    requires n <= |s.blocks|
  {
    Leaves(s.blocks[..n], Delay(s.maturity))
  }

  /** The k-th accepted anchor is the root after the first n blocks. */
  ghost predicate CommitsTo(o: Crypto, s: Ledger, k: nat, n: nat) {
    && k < |s.shielded.anchors| && n <= |s.blocks|
    && s.shielded.anchors[k] == o.treeRoot(Values(LeavesAfter(s, n)))
  }

  /** A chain some sequence of accepted blocks leads to, within the range of heights. */
  ghost predicate Reachable(o: Crypto, g: Block, maturity: U64, s: Ledger) {
    && IsGenesis(o, g)
    && Genuine(ConsensusRules(o), GenesisLedger(o, g, maturity), s)
    && |s.blocks| + maturity <= U64_MAX
    && s.maturity == maturity
  }

  lemma {:induction false} AnchorIsRoot(o: Crypto, s: Ledger, k: nat)
    requires AnchorsReadOff(o, s.shielded.anchors, s.blocks, Delay(s.maturity)) && k < |s.shielded.anchors|
    ensures 0 <= AnchorHeight(s, k) && CommitsTo(o, s, k, AnchorHeight(s, k))
  {
    RootAfter(o, s.blocks, Delay(s.maturity), AnchorHeight(s, k));
  }

  lemma {:induction false} RewardIsLeafAfter(s: Ledger, n: nat, h: nat, note: Bytes32)
    requires n <= |s.blocks| && h < |s.blocks| && RewardAt(s.blocks, h) == [note]
    ensures Reward(h, note) in LeavesAfter(s, n) <==> h + Max(s.maturity, 2) <= n
  {
    RewardIsLeafIff(s.blocks[..n], s.maturity, h, note);
    if h < n {
      assert RewardAt(s.blocks[..n], h) == RewardAt(s.blocks, h);
    }
  }

  /**
   The accepted anchors are the roots of the trees after the last 100 heights, the newest
   last; the tree behind an anchor holds the reward of block h exactly when it has seen
   `max(maturity, 2)` blocks from h on.
   */
  lemma {:induction false} AnchorsCommit(
    o: Crypto, g: Block, maturity: U64, s: Ledger, k: nat, h: nat, note: Bytes32)
    requires Reachable(o, g, maturity, s) && k < |s.shielded.anchors|
    requires h < |s.blocks| && RewardAt(s.blocks, h) == [note]
    ensures 0 <= AnchorHeight(s, k) && CommitsTo(o, s, k, AnchorHeight(s, k))
    ensures Reward(h, note) in LeavesAfter(s, AnchorHeight(s, k)) <==> h + Max(maturity, 2) <= AnchorHeight(s, k)
  {
    PoolReadsOffChain(o, g, maturity, s);
    AnchorIsRoot(o, s, k);
    RewardIsLeafAfter(s, AnchorHeight(s, k), h, note);
  }

  /** The tree behind the k-th accepted anchor holds the reward of block h. */
  ghost predicate AnchorHolds(o: Crypto, s: Ledger, k: nat, h: nat, note: Bytes32) {
    && 0 <= AnchorHeight(s, k) && CommitsTo(o, s, k, AnchorHeight(s, k))
    && Reward(h, note) in LeavesAfter(s, AnchorHeight(s, k))
  }

  lemma {:induction false} AnchorHoldsIff(
    o: Crypto, g: Block, maturity: U64, s: Ledger, k: nat, h: nat, note: Bytes32)
    requires Reachable(o, g, maturity, s) && k < |s.shielded.anchors|
    requires h < |s.blocks| && RewardAt(s.blocks, h) == [note]
    ensures AnchorHolds(o, s, k, h, note) <==> h + Max(maturity, 2) <= AnchorHeight(s, k)
  {
    AnchorsCommit(o, g, maturity, s, k, h, note);
  }

  lemma {:induction false} SomeAnchorHolds(o: Crypto, g: Block, maturity: U64, s: Ledger, h: nat, note: Bytes32)
    requires Reachable(o, g, maturity, s) && s.shielded.anchors != []
    requires h < |s.blocks| && RewardAt(s.blocks, h) == [note]
    ensures (exists k :: AnchorHolds(o, s, k, h, note)) <==> h + Max(maturity, 2) <= |s.blocks|
    ensures AnchorHolds(o, s, |s.shielded.anchors| - 1, h, note) <==> h + Max(maturity, 2) <= |s.blocks|
  {
    AnchorHoldsIff(o, g, maturity, s, |s.shielded.anchors| - 1, h, note);
    forall k | AnchorHolds(o, s, k, h, note)
      ensures h + Max(maturity, 2) <= |s.blocks|
    {
      AnchorHoldsIff(o, g, maturity, s, k, h, note);
    }
  }

  /**
   The reward of block h can be shown in a tree the next block accepts exactly once
   `max(maturity, 2)` blocks are on the chain from h on; the newest accepted anchor then
   already commits to it, and the tree itself holds it.
   */
  lemma {:induction false} RewardIsProvableIff(o: Crypto, g: Block, maturity: U64, s: Ledger, h: nat, note: Bytes32)
    requires Reachable(o, g, maturity, s)
    requires h < |s.blocks| && RewardAt(s.blocks, h) == [note]
    ensures s.shielded.anchors != []
    ensures (exists k :: AnchorHolds(o, s, k, h, note)) <==> h + Max(maturity, 2) <= |s.blocks|
    ensures AnchorHolds(o, s, |s.shielded.anchors| - 1, h, note) <==> h + Max(maturity, 2) <= |s.blocks|
    ensures s.shielded.tree == Values(Leaves(s.blocks, Delay(maturity)))
    ensures Reward(h, note) in Leaves(s.blocks, Delay(maturity)) <==> h + Max(maturity, 2) <= |s.blocks|
  {
    PoolReadsOffChain(o, g, maturity, s);
    RewardIsLeafIff(s.blocks, maturity, h, note);
    SomeAnchorHolds(o, g, maturity, s, h, note);
  }

  // --- the ring rewards ----------------------------------------------------

  /** Every ring reward on record was paid by a block that paid no shielded one. */
  predicate OnePoolEach(meta: seq<OutputMeta>, blocks: seq<StoredBlock>) {
    forall i :: 0 <= i < |meta| && meta[i].coinbase ==>
      meta[i].height < |blocks| && RewardAt(blocks, meta[i].height) == []
  }

  lemma {:induction false} OnePoolStep(o: Crypto, s: Ledger, b: StoredBlock, v: Verdict)
    requires OnePoolEach(s.meta, s.blocks) && |s.ids| == |s.blocks| && CoinbaseOk(o, s, b, v)
    ensures OnePoolEach(s.meta + BlockMeta(b.block, b.txs), s.blocks + [b])
  {
    var blocks := s.blocks + [b];
    forall h | 0 <= h < |s.blocks|
      ensures RewardAt(blocks, h) == RewardAt(s.blocks, h)
    {
    }
    assert b.block.coinbase.outputs != [] ==> RewardAt(blocks, |s.blocks|) == [];
  }

  lemma {:induction false} AddedToOnePool(o: Crypto, t: Ledger, b: StoredBlock)
    requires t.Shaped() && Parallel(t) && !t.prune && OnePoolEach(t.meta, t.blocks)
    requires Added(o, t, true, b.block, b.txs).Ok?
    ensures var t' := Added(o, t, true, b.block, b.txs).value; OnePoolEach(t'.meta, t'.blocks)
  {
    var v := AddedReward(o, t, b);
    OnePoolStep(o, t, b, v);
    assert Extended(o, t, b.block, b.txs, v).blocks == t.blocks + [b];
  }

  /**
   A block pays its reward into one pool: on every reachable chain the block behind a ring
   reward has no shielded one.
   */
  lemma {:induction false} RewardsGoToOnePool(o: Crypto, g: Block, maturity: U64, s: Ledger)
    requires IsGenesis(o, g)
    requires Genuine(ConsensusRules(o), GenesisLedger(o, g, maturity), s)
    ensures OnePoolEach(s.meta, s.blocks)
  {
    var rules, start := ConsensusRules(o), GenesisLedger(o, g, maturity);
    ConsensusIsLawful(o);
    var inv := (t: Ledger) => OnePoolEach(t.meta, t.blocks);
    forall t, b | rules.valid(t) && inv(t) && rules.add(t, true, b).Ok?
      ensures inv(rules.add(t, true, b).value)
    {
      AddedToOnePool(o, t, b);
    }
    ReplayInduction(rules, start, s.blocks[1..], s, inv);
  }

  /** A ring reward of block h: no shielded one, and spendable from block `h + maturity` on. */
  lemma {:induction false} RingRewardMatures(
    o: Crypto, g: Block, maturity: U64, t: Ledger, h: U64, index: nat)
    requires Reachable(o, g, maturity, t) && index < |t.meta| && t.meta[index] == OutputMeta(h, true)
    ensures h < |t.blocks| && RewardAt(t.blocks, h) == []
    ensures t.SpendableAt(index, |t.blocks|) <==> h + maturity <= |t.blocks|
  {
    RewardsGoToOnePool(o, g, maturity, t);
  }

  /**
   A reward matures at the same height whichever pool it was paid into. Take two reachable
   chains of one maturity and length, block h paying a shielded reward on the first and a
   ring output on the second (no chain has both): some anchor the next block accepts on
   the first commits to a tree holding the note exactly when the next block on the second
   may name the output, which is from block `h + maturity` on. A maturity below 2 parts
   them: the note still waits for the block after its own.
   */
  lemma {:induction false} ShieldedAndRingRewardsMatureTogether(
    o: Crypto, g: Block, g': Block, maturity: U64, s: Ledger, t: Ledger, h: nat, note: Bytes32, index: nat)
    requires Reachable(o, g, maturity, s) && Reachable(o, g', maturity, t) && |s.blocks| == |t.blocks|
    requires h < |s.blocks| && RewardAt(s.blocks, h) == [note]
    requires index < |t.meta| && t.meta[index] == OutputMeta(h, true)
    ensures 2 <= maturity ==> ((exists k :: AnchorHolds(o, s, k, h, note)) <==> t.SpendableAt(index, |t.blocks|))
    ensures (exists k :: AnchorHolds(o, s, k, h, note)) <==> h + Max(maturity, 2) <= |s.blocks|
    ensures t.SpendableAt(index, |t.blocks|) <==> h + maturity <= |t.blocks|
    ensures RewardAt(t.blocks, h) == []
  {
    RewardIsProvableIff(o, g, maturity, s, h, note);
    RingRewardMatures(o, g', maturity, t, h, index);
  }

  /** No tree of this chain has the root of `leaves` without having those leaves. */
  ghost predicate NoRootCollision(o: Crypto, s: Ledger, leaves: seq<Bytes32>) {
    forall n :: 0 <= n <= |s.blocks| && o.treeRoot(Values(LeavesAfter(s, n))) == o.treeRoot(leaves) ==>
      Values(LeavesAfter(s, n)) == leaves
  }

  /** Where in the tree the reward of block h goes: it is the first leaf its maturing block adds. */
  function RewardPosition(s: Ledger, h: nat): nat
    requires h + Delay(s.maturity) <= |s.blocks|
  {
    |LeavesAfter(s, h + Delay(s.maturity))|
  }

  lemma {:induction false} LeavesArePrefix(blocks: seq<StoredBlock>, delay: nat, n: nat)
    requires n <= |blocks|
    ensures Leaves(blocks[..n], delay) <= Leaves(blocks, delay)
  {
    if n == |blocks| {
      assert blocks[..n] == blocks;
    } else {
      var below := blocks[..|blocks| - 1];
      assert below[..n] == blocks[..n];
      LeavesArePrefix(below, delay, n);
    }
  }

  /** The maturing block puts the reward right after the leaves that were there. */
  lemma {:induction false} RewardIsNextLeaf(
    below: seq<StoredBlock>, b: StoredBlock, delay: nat, h: nat, note: Bytes32)
    requires |below| == h + delay && RewardAt(below + [b], h) == [note]
    ensures |Leaves(below, delay)| < |Leaves(below + [b], delay)|
    ensures Leaves(below + [b], delay)[|Leaves(below, delay)|] == Reward(h, note)
  {
    LeavesUnfold(below, b, delay);
    var next := MaturedLeaves(below, b, delay);
    assert |next| == 1 && next[0] == Reward(h, note);
  }

  lemma {:induction false} TreesGrow(s: Ledger, m: nat, n: nat)
    requires m <= n <= |s.blocks|
    ensures LeavesAfter(s, m) <= LeavesAfter(s, n)
  {
    assert s.blocks[..n][..m] == s.blocks[..m];
    LeavesArePrefix(s.blocks[..n], Delay(s.maturity), m);
  }

  lemma TakeSnoc(blocks: seq<StoredBlock>, m: nat)
    requires m < |blocks|
    ensures blocks[..m + 1] == blocks[..m] + [blocks[m]]
  {
  }

  /** The block that matures the reward puts it at its position. */
  lemma {:induction false} RewardArrives(s: Ledger, h: nat, note: Bytes32, base: nat)
    requires base == h + Delay(s.maturity) < |s.blocks| && RewardAt(s.blocks, h) == [note]
    ensures |LeavesAfter(s, base)| < |LeavesAfter(s, base + 1)|
    ensures LeavesAfter(s, base + 1)[|LeavesAfter(s, base)|] == Reward(h, note)
  {
    TakeSnoc(s.blocks, base);
    assert RewardAt(s.blocks[..base] + [s.blocks[base]], h) == RewardAt(s.blocks, h);
    RewardIsNextLeaf(s.blocks[..base], s.blocks[base], Delay(s.maturity), h, note);
  }

  lemma SitsIn(before: seq<Leaf>, arrived: seq<Leaf>, later: seq<Leaf>, leaf: Leaf)
    requires |before| < |arrived| && arrived[|before|] == leaf && arrived <= later
    ensures |before| < |later| && later[|before|] == leaf
  {
  }

  /** From the maturing block on, the reward sits where the tree ended before. */
  lemma {:induction false} RewardSits(s: Ledger, h: nat, note: Bytes32, base: nat, n: nat)
    requires base == h + Delay(s.maturity) < n <= |s.blocks| && RewardAt(s.blocks, h) == [note]
    ensures |LeavesAfter(s, base)| < |LeavesAfter(s, n)|
    ensures LeavesAfter(s, n)[|LeavesAfter(s, base)|] == Reward(h, note)
  {
    RewardArrives(s, h, note, base);
    TreesGrow(s, base + 1, n);
    SitsIn(LeavesAfter(s, base), LeavesAfter(s, base + 1), LeavesAfter(s, n), Reward(h, note));
  }

  /** The tree after n blocks reaches the reward's position exactly when it holds the note there. */
  lemma {:induction false} ReachesReward(s: Ledger, h: nat, note: Bytes32, n: nat)
    requires n <= |s.blocks| && h + Delay(s.maturity) <= |s.blocks| && RewardAt(s.blocks, h) == [note]
    ensures RewardPosition(s, h) < |LeavesAfter(s, n)| <==> h + Max(s.maturity, 2) <= n
    ensures RewardPosition(s, h) < |LeavesAfter(s, n)| ==> LeavesAfter(s, n)[RewardPosition(s, h)].note == note
  {
    var base := h + Delay(s.maturity);
    if n > base {
      RewardSits(s, h, note, base, n);
    } else {
      TreesGrow(s, n, base);
    }
  }

  /** Leaves that are those of the tree after the first n blocks, n within the anchor window. */
  predicate TreeInWindow(s: Ledger, leaves: seq<Bytes32>, n: nat) {
    && |s.blocks| + 1 - |s.shielded.anchors| <= n <= |s.blocks|
    && leaves == Values(LeavesAfter(s, n))
  }

  lemma {:induction false} AcceptedTreeIsOurs(o: Crypto, s: Ledger, leaves: seq<Bytes32>) returns (n: nat)
    requires AnchorsReadOff(o, s.shielded.anchors, s.blocks, Delay(s.maturity)) && NoRootCollision(o, s, leaves)
    requires o.treeRoot(leaves) in s.shielded.anchors
    ensures TreeInWindow(s, leaves, n)
  {
    var k :| 0 <= k < |s.shielded.anchors| && s.shielded.anchors[k] == o.treeRoot(leaves);
    AnchorIsRoot(o, s, k);
    n := AnchorHeight(s, k);
  }

  /**
   Nothing but a tree of this chain passes for an accepted one. Whoever shows leaves whose
   root is an accepted anchor shows the tree after some height of the window; it reaches
   the place of the reward of block h exactly if it has seen `max(maturity, 2)` blocks from
   h on, and then holds the note there.
   */
  lemma {:induction false} OnlyMaturedRewardsAreProvable(
    o: Crypto, g: Block, maturity: U64, s: Ledger, leaves: seq<Bytes32>, h: nat, note: Bytes32)
    requires Reachable(o, g, maturity, s) && NoRootCollision(o, s, leaves)
    requires o.treeRoot(leaves) in s.shielded.anchors
    requires h + Delay(maturity) <= |s.blocks| && RewardAt(s.blocks, h) == [note]
    ensures exists n :: TreeInWindow(s, leaves, n) && (RewardPosition(s, h) < |leaves| <==> h + Max(maturity, 2) <= n)
    ensures RewardPosition(s, h) < |leaves| ==> leaves[RewardPosition(s, h)] == note
  {
    PoolReadsOffChain(o, g, maturity, s);
    var n := AcceptedTreeIsOurs(o, s, leaves);
    ReachesReward(s, h, note, n);
  }
}
