/**
 Body pruning (noct/core/src/chain.rs): a chain that drops old bodies beside one that keeps
 them. They stay alike, undo included, as long as no rollback goes more than 128 blocks
 below the highest height ever reached; past that, undo forgets to un-spend.
 */
module Pruning {
  import opened Types
  import opened Data
  import opened Oracles
  import opened Ledgers
  import opened Replay
  import opened Consensus
  import opened Reorg
  import opened Restart
  import opened Runs
  import opened SideBySide

  /** The first `k` blocks without their bodies. */
  function Stripped(blocks: seq<StoredBlock>, k: nat): (r: seq<StoredBlock>)
    ensures |r| == |blocks|
  {
    seq(|blocks|, i requires 0 <= i < |blocks| => if i < k then blocks[i].(txs := []) else blocks[i])
  }

  /** `s` is `t` with pruning on and the first `k` bodies dropped. */
  predicate PrunedLike(s: Ledger, t: Ledger, k: nat) {
    && s.prune && !t.prune && SameForward(s, t) && s.undos == t.undos
    && k <= |t.blocks| && s.blocks == Stripped(t.blocks, k)
  }

  /** How many bodies are gone once the chain has been `peak` blocks long. */
  function Dropped(peak: nat): nat {
    Max(peak - KEEP_RECENT_BODIES, 0)
  }

  lemma PruningDropsOne(blocks: seq<StoredBlock>, b: StoredBlock, peak: nat)
    requires Dropped(peak) <= |blocks| <= peak
    ensures Pruned(true, Stripped(blocks, Dropped(peak)) + [b]) ==
              Stripped(blocks + [b], Dropped(Max(peak, |blocks| + 1)))
  {
    var kept := Stripped(blocks, Dropped(peak)) + [b];
    assert |kept| == |blocks| + 1;
  }

  lemma ExtendedStaysAlike(o: Crypto, s: Ledger, t: Ledger, peak: nat, b: StoredBlock, v: Verdict)
    requires s.Shaped() && t.Shaped() && PrunedLike(s, t, Dropped(peak)) && |t.blocks| <= peak
    ensures PrunedLike(Extended(o, s, b.block, b.txs, v), Extended(o, t, b.block, b.txs, v),
              Dropped(Max(peak, |t.blocks| + 1)))
  {
    ExtendedSame(o, s, t, b, v);
    assert StoredBlock(b.block, b.txs) == b;
    PruningDropsOne(t.blocks, b, peak);
  }

  /** Both chains take the same blocks and stay alike. */
  lemma AddStaysAlike(o: Crypto, s: Ledger, t: Ledger, peak: nat, inTime: bool, b: StoredBlock)
    requires s.Shaped() && t.Shaped() && PrunedLike(s, t, Dropped(peak)) && |t.blocks| <= peak
    ensures var left, right := Added(o, s, inTime, b.block, b.txs), Added(o, t, inTime, b.block, b.txs);
            && left.Ok? == right.Ok?
            && (left.Ok? ==>
                  PrunedLike(left.value, right.value, Dropped(Max(peak, |t.blocks| + 1)))
                  && |right.value.blocks| == |t.blocks| + 1)
            && (left.Err? ==> left.error == right.error)
  {
    JudgeSame(o, s, t, inTime, b.block, b.txs);
    var judged := Judge(o, s, inTime, b.block, b.txs);
    if judged.Ok? {
      ExtendedStaysAlike(o, s, t, peak, b, judged.value);
    }
  }

  /** A tip whose body is still there is undone exactly. */
  lemma PopStaysAlike(s: Ledger, t: Ledger, k: nat)
    requires s.Shaped() && t.Shaped() && PrunedLike(s, t, k)
    requires |t.ids| >= 2 && k < |t.blocks|
    ensures PrunedLike(Popped(s), Popped(t), k)
  {
    var n := |t.blocks| - 1;
    assert Stripped(t.blocks, k)[..n] == Stripped(t.blocks[..n], k);
  }

  lemma AddedShape(o: Crypto, before: Ledger, b: StoredBlock, t: Ledger)
    requires before.Shaped() && !before.prune && Added(o, before, true, b.block, b.txs) == Ok(t)
    ensures t.spent == before.spent + SetOf(BlockImages(b.txs))
    ensures t.ids == before.ids + [o.blockId(b.block)] && |t.blocks| == |before.blocks| + 1
  {
  }

  /** Undoing a tip without its body takes no image back. */
  lemma {:induction false} PopWithoutBody(s: Ledger, t: Ledger)
    requires s.Shaped() && PrunedLike(s, t, |t.blocks|) && t.blocks != [] && |t.ids| >= 2
    ensures |s.ids| >= 2 && s.blocks != [] && Popped(s).spent == t.spent
  {
    assert s.blocks[|s.blocks| - 1].txs == [] && SetOf(BlockImages([])) == {};
  }

  lemma NothingAdded(before: set<Bytes32>, images: seq<Bytes32>)
    requires forall image :: image in images ==> image !in before
    ensures before + SetOf(images) == before <==> images == []
  {
    if images != [] {
      assert images[0] in SetOf(images);
    }
  }

  /**
   A tip whose body was dropped: undoing it leaves its images spent, so the undo is exact
   if and only if it spent nothing.
   */
  lemma {:induction false} PopOfPrunedTip(o: Crypto, s: Ledger, before: Ledger, b: StoredBlock, t: Ledger)
    requires before.Shaped() && !before.prune && Added(o, before, true, b.block, b.txs) == Ok(t)
    requires |before.blocks| == |before.ids|
    requires s.Shaped() && PrunedLike(s, t, |t.blocks|)
    ensures Popped(t) == before
    ensures |s.ids| >= 2 && s.blocks != [] && Popped(s).spent == before.spent + SetOf(BlockImages(b.txs))
    ensures Popped(s).spent == before.spent <==> BlockImages(b.txs) == []
  {
    PopInvertsAdd(o, before, true, b.block, b.txs);
    AddedTxs(o, before, b);
    AddedShape(o, before, b, t);
    PopWithoutBody(s, t);
    NothingAdded(before.spent, BlockImages(b.txs));
  }

  // --- rollbacks and reorganisations ---------------------------------------

  /** The pruning chain beside the keeping one, which has been up to `peak` blocks long. */
  predicate Alike(s: Ledger, t: Ledger, peak: nat) {
    && s.Shaped() && t.Shaped() && |t.blocks| == |t.ids| <= peak
    && PrunedLike(s, t, Dropped(peak))
  }

  /** Turning pruning on drops exactly what a chain of that length no longer keeps. */
  lemma EnablingStartsAlike(s: Ledger, t: Ledger)
    requires t.Shaped() && !t.prune && |t.blocks| == |t.ids|
    requires s == t.(prune := true, blocks := s.blocks) && |s.blocks| == |t.blocks|
    requires forall i :: 0 <= i < |s.blocks| ==>
               s.blocks[i] == if i + KEEP_RECENT_BODIES < |s.blocks| then t.blocks[i].(txs := []) else t.blocks[i]
    ensures Alike(s, t, |t.blocks|)
  {
  }

  lemma TailsAgree(s: Ledger, t: Ledger, k: nat, n: nat)
    requires PrunedLike(s, t, k) && k <= n <= |t.blocks|
    ensures s.blocks[n..] == t.blocks[n..]
  {
  }

  lemma AlikeTails(s: Ledger, t: Ledger, peak: nat)
    ensures LikeLaw(Alike, Dropped, s, t, peak)
  {
    if Alike(s, t, peak) {
      forall n: nat | n <= |t.blocks| - Dropped(peak)
        ensures Newest(s.blocks, n) == Newest(t.blocks, n)
      {
        TailsAgree(s, t, Dropped(peak), |t.blocks| - n);
      }
    }
  }

  lemma AlikeAdds(o: Crypto, s: Ledger, t: Ledger, peak: nat, inTime: bool, b: StoredBlock)
    ensures AddLaw(ConsensusRules(o), Alike, s, t, peak, inTime, b)
  {
    if Alike(s, t, peak) {
      AddStaysAlike(o, s, t, peak, inTime, b);
    }
  }

  lemma AlikePops(o: Crypto, s: Ledger, t: Ledger, peak: nat)
    ensures PopLaw(ConsensusRules(o), Alike, Dropped, s, t, peak)
  {
    if Alike(s, t, peak) && |t.blocks| >= 2 && Dropped(peak) < |t.blocks| {
      PopStaysAlike(s, t, Dropped(peak));
    }
  }

  /** Blocks, and undos within the window, keep the two chains alike. */
  lemma {:induction false} PruningSimulates(o: Crypto)
    ensures Simulates(ConsensusRules(o), Alike, Dropped)
  {
    forall s, t, peak
      ensures LikeLaw(Alike, Dropped, s, t, peak) && PopLaw(ConsensusRules(o), Alike, Dropped, s, t, peak)
    {
      AlikeTails(s, t, peak);
      AlikePops(o, s, t, peak);
    }
    forall s, t, peak, inTime, b
      ensures AddLaw(ConsensusRules(o), Alike, s, t, peak, inTime, b)
    {
      AlikeAdds(o, s, t, peak, inTime, b);
    }
  }

  // --- the window in heights -----------------------------------------------

  /** Cutting the chain back to this height takes off nothing more than 128 below the greatest length reached. */
  predicate InWindow(t: Ledger, peak: nat, height: nat) {
    Excess(t, height) > 0 ==> peak - Max(height, 1) <= KEEP_RECENT_BODIES
  }

  /** So do both cuts of a reorganisation: the blocks it replaces, and those of a branch that loses. */
  predicate SwitchInWindow(rules: Rules, clock: Clock, tick: nat, t: Ledger, peak: nat, branch: seq<StoredBlock>) {
    Attempted(rules, t, branch) ==>
      var rest := Rest(rules, t, branch);
      var fork, run := rest[0].block.coinbase.height, Tried(rules, clock, tick, t, rest);
      && InWindow(t, peak, fork)
      && (Lost(run, t) ==> InWindow(run.state, Max(peak, |run.state.blocks|), fork))
  }

  predicate OpInWindow(rules: Rules, clock: Clock, tick: nat, t: Ledger, peak: nat, op: Op) {
    match op
    case AddBlock(_) => true
    case RollbackTo(height) => InWindow(t, peak, height)
    case SwitchTo(branch) => SwitchInWindow(rules, clock, tick, t, peak, branch)
  }

  /** Every operation of the run stays in the window, as the chain and its greatest length stand at that moment. */
  predicate RunInWindow(rules: Rules, clock: Clock, tick: nat, t: Ledger, peak: nat, ops: seq<Op>)
    decreases |ops|
  {
    ops == [] ||
    (OpInWindow(rules, clock, tick, t, peak, ops[0]) &&
     match Step(rules, clock, tick, t, ops[0])
     case Panicked => true
     case Running(t', tick') =>
       RunInWindow(rules, clock, tick', t', OpPeak(rules, clock, tick, t, peak, ops[0]), ops[1..]))
  }

  /** The window is the stretch above the height where bodies are gone. */
  lemma WithinWindow(t: Ledger, peak: nat, height: nat)
    ensures Within(Dropped, t, peak, height) <==> InWindow(t, peak, height)
  {
  }

  lemma {:induction false} OpWithinWindow(rules: Rules, clock: Clock, tick: nat, t: Ledger, peak: nat, op: Op)
    ensures OpWithin(Dropped, rules, clock, tick, t, peak, op) <==> OpInWindow(rules, clock, tick, t, peak, op)
    ensures op.SwitchTo? ==>
              (SwitchWithin(Dropped, rules, clock, tick, t, peak, op.branch) <==>
               SwitchInWindow(rules, clock, tick, t, peak, op.branch))
  {
    if op.RollbackTo? {
      WithinWindow(t, peak, op.height);
    } else if op.SwitchTo? && Attempted(rules, t, op.branch) {
      var rest := Rest(rules, t, op.branch);
      var fork, run := rest[0].block.coinbase.height, Tried(rules, clock, tick, t, rest);
      WithinWindow(t, peak, fork);
      WithinWindow(run.state, Max(peak, |run.state.blocks|), fork);
    }
  }

  lemma {:induction false} RunWithinWindow(
    rules: Rules, clock: Clock, tick: nat, t: Ledger, peak: nat, ops: seq<Op>)
    ensures Shallow(Dropped, rules, clock, tick, t, peak, ops) <==> RunInWindow(rules, clock, tick, t, peak, ops)
    decreases |ops|
  {
    if ops != [] {
      OpWithinWindow(rules, clock, tick, t, peak, ops[0]);
      var step := Step(rules, clock, tick, t, ops[0]);
      if step.Running? {
        RunWithinWindow(rules, clock, step.tick, step.state, OpPeak(rules, clock, tick, t, peak, ops[0]), ops[1..]);
      }
    }
  }

  /** `rollback_to` within the window: the same blocks go, bodies and all. */
  lemma RollbackStaysAlike(o: Crypto, s: Ledger, t: Ledger, peak: nat, height: nat)
    requires Alike(s, t, peak) && InWindow(t, peak, height)
    ensures Alike(RolledBack(ConsensusRules(o), s, height), RolledBack(ConsensusRules(o), t, height), peak)
    ensures Removed(s, height) == Removed(t, height)
  {
    PruningSimulates(o);
    WithinWindow(t, peak, height);
    SideBySide.RollbackStaysAlike(ConsensusRules(o), Alike, Dropped, s, t, peak, height);
  }

  /**
   `try_reorg` within the window, whatever comes of it: the pruning chain gives the same
   answer after the same readings of the clock, and is the keeping one minus old bodies.
   */
  lemma ReorgStaysAlike(
    o: Crypto, clock: Clock, tick: nat, s: Ledger, t: Ledger, peak: nat, branch: seq<StoredBlock>)
    requires Alike(s, t, peak) && SwitchInWindow(ConsensusRules(o), clock, tick, t, peak, branch)
    ensures var rules := ConsensusRules(o);
            var left, right := TryReorg(rules, clock, tick, s, branch), TryReorg(rules, clock, tick, t, branch);
            && left.result == right.result && left.tick == right.tick
            && Alike(left.state, right.state, SwitchPeak(rules, clock, tick, t, peak, branch))
  {
    PruningSimulates(o);
    OpWithinWindow(ConsensusRules(o), clock, tick, t, peak, SwitchTo(branch));
    SideBySide.ReorgStaysAlike(ConsensusRules(o), Alike, Dropped, clock, tick, s, t, peak, branch);
  }

  /**
   Through every run of `add_block`, `rollback_to` and `try_reorg` that takes off nothing
   more than 128 below the highest height reached - failed reorganisations and the height
   they reach part-way included - the pruning chain answers as the keeping one does and is
   that chain minus old bodies: same validation state, same undo records.
   */
  lemma ShallowRunsStayAlike(
    o: Crypto, clock: Clock, tick: nat, s: Ledger, t: Ledger, peak: nat, ops: seq<Op>)
    requires Alike(s, t, peak) && RunInWindow(ConsensusRules(o), clock, tick, t, peak, ops)
    ensures var rules := ConsensusRules(o);
            StagesAlike(Alike, Exec(rules, clock, tick, s, ops), Exec(rules, clock, tick, t, ops),
              RunPeak(rules, clock, tick, t, peak, ops))
  {
    PruningSimulates(o);
    RunWithinWindow(ConsensusRules(o), clock, tick, t, peak, ops);
    RunsStayAlike(ConsensusRules(o), Alike, Dropped, clock, tick, s, t, peak, ops);
  }
}
