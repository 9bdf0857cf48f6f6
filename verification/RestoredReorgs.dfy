/**
 Reorganisations on a restored chain. It has no blocks from before its snapshot, so it can
 undo only what came after; down to there it is the original chain in all it does
 (noct/core/src/chain.rs).
 */
module RestoredReorgs {
  import opened Types
  import opened Data
  import opened Oracles
  import opened Ledgers
  import opened Replay
  import opened Reorg
  import opened Runs
  import opened Consensus
  import opened Restart
  import opened SideBySide
  import opened RestoredChains

  /** The chain without the blocks and undo records of its first `base` heights. */
  function Forget(t: Ledger, base: nat): Ledger
    requires base <= |t.blocks| == |t.undos|
  {
    t.(blocks := t.blocks[base..], undos := t.undos[base..], prune := false)
  }

  /** `s` is `t`, restored from a snapshot taken when it had `base` blocks. */
  predicate IsRestored(base: nat, s: Ledger, t: Ledger, peak: nat) {
    && t.Shaped() && !t.prune && 1 <= base <= |t.blocks| == |t.ids| <= peak
    && s == Forget(t, base)
  }

  function Since(base: nat): Relation {
    (s: Ledger, t: Ledger, peak: nat) => IsRestored(base, s, t, peak)
  }

  /** A restored chain lacks history below its snapshot, however long it gets. */
  function From(base: nat): Floor {
    (peak: nat) => base
  }

  lemma ForgetfulTails(base: nat, s: Ledger, t: Ledger, peak: nat)
    ensures LikeLaw(Since(base), From(base), s, t, peak)
  {
    if IsRestored(base, s, t, peak) {
      forall n: nat | n <= |t.blocks| - base
        ensures Newest(s.blocks, n) == Newest(t.blocks, n)
      {
      }
    }
  }

  lemma {:induction false} LaterUndosFit(undos: seq<Undo>, outputs: nat, base: nat)
    requires UndosFit(undos, outputs) && base <= |undos|
    ensures UndosFit(undos[base..], outputs)
  {
    if base < |undos| {
      var last := |undos| - 1;
      LaterUndosFit(undos[..last], undos[last].outputsLenBefore, base);
      assert undos[base..][..last - base] == undos[..last][base..];
    }
  }

  lemma ForgetfulShape(base: nat, s: Ledger, t: Ledger, peak: nat)
    requires IsRestored(base, s, t, peak)
    ensures s.Shaped() && SameForward(s, t)
  {
    LaterUndosFit(t.undos, |t.outputs|, base);
  }

  lemma ExtendedForgets(o: Crypto, base: nat, s: Ledger, t: Ledger, peak: nat, b: StoredBlock, v: Verdict)
    requires IsRestored(base, s, t, peak) && s.Shaped() && t.Shaped()
    ensures var right := Extended(o, t, b.block, b.txs, v);
            && |right.blocks| == |t.blocks| + 1
            && IsRestored(base, Extended(o, s, b.block, b.txs, v), right, Max(peak, |right.blocks|))
  {
    ForgetfulShape(base, s, t, peak);
    ExtendedSame(o, s, t, b, v);
    var left, right := Extended(o, s, b.block, b.txs, v), Extended(o, t, b.block, b.txs, v);
    assert left.blocks == right.blocks[base..];
    assert left.undos == right.undos[base..];
  }

  lemma ForgetfulAdds(o: Crypto, base: nat, s: Ledger, t: Ledger, peak: nat, inTime: bool, b: StoredBlock)
    ensures AddLaw(ConsensusRules(o), Since(base), s, t, peak, inTime, b)
  {
    if IsRestored(base, s, t, peak) {
      ForgetfulShape(base, s, t, peak);
      JudgeSame(o, s, t, inTime, b.block, b.txs);
      var judged := Judge(o, s, inTime, b.block, b.txs);
      if judged.Ok? {
        ExtendedForgets(o, base, s, t, peak, b, judged.value);
      }
    }
  }

  lemma PoppedForgets(base: nat, s: Ledger, t: Ledger, peak: nat)
    requires IsRestored(base, s, t, peak) && s.Shaped() && |t.blocks| >= 2 && base < |t.blocks|
    ensures IsRestored(base, Popped(s), Popped(t), peak)
  {
    var n := |t.blocks| - 1;
    assert t.blocks[base..][..n - base] == t.blocks[..n][base..];
    assert t.undos[base..][..n - base] == t.undos[..n][base..];
  }

  lemma ForgetfulPops(o: Crypto, base: nat, s: Ledger, t: Ledger, peak: nat)
    ensures PopLaw(ConsensusRules(o), Since(base), From(base), s, t, peak)
  {
    if IsRestored(base, s, t, peak) && |t.blocks| >= 2 && base < |t.blocks| {
      ForgetfulShape(base, s, t, peak);
      PoppedForgets(base, s, t, peak);
    }
  }

  /** Blocks, and undos above the snapshot, keep the restored chain what it is. */
  lemma {:induction false} RestoringSimulates(o: Crypto, base: nat)
    ensures Simulates(ConsensusRules(o), Since(base), From(base))
  {
    forall s, t, peak
      ensures LikeLaw(Since(base), From(base), s, t, peak)
      ensures PopLaw(ConsensusRules(o), Since(base), From(base), s, t, peak)
    {
      ForgetfulTails(base, s, t, peak);
      ForgetfulPops(o, base, s, t, peak);
    }
    forall s, t, peak, inTime, b
      ensures AddLaw(ConsensusRules(o), Since(base), s, t, peak, inTime, b)
    {
      ForgetfulAdds(o, base, s, t, peak, inTime, b);
    }
  }

  /** What a restart hands over is the restored chain of the theory. */
  lemma RestartIsForgetful(t: Ledger)
    requires t.Shaped() && !t.prune && 1 <= |t.blocks| == |t.ids|
    ensures IsRestored(|t.blocks|, Forgotten(t), t, |t.blocks|)
  {
  }

  // --- forks from before the snapshot --------------------------------------

  /** The branch wants blocks replaced that the restored chain does not have. */
  predicate ForksBelow(rules: Rules, base: nat, s: Ledger, branch: seq<StoredBlock>) {
    Attempted(rules, s, branch) && Max(Rest(rules, s, branch)[0].block.coinbase.height, 1) < base
  }

  /** A chain without stored blocks cannot be popped; a block of another height than the next is refused. */
  ghost predicate EdgeLaws(rules: Rules) {
    && (forall s: Ledger {:trigger rules.pop(s)} :: s.blocks == [] ==> rules.pop(s) == s)
    && (forall s: Ledger, inTime: bool, b: StoredBlock {:trigger rules.add(s, inTime, b)} ::
          b.block.coinbase.height != |s.ids| ==> rules.add(s, inTime, b).Err?)
  }

  lemma {:induction false} WrongHeightIsRefused(o: Crypto, s: Ledger, inTime: bool, b: StoredBlock)
    requires b.block.coinbase.height != |s.ids| && s.Shaped()
    ensures Added(o, s, inTime, b.block, b.txs).Err?
  {
    if Judge(o, s, inTime, b.block, b.txs).Ok? {
      JudgedFacts(o, s, inTime, b.block, b.txs);
    }
  }

  lemma {:induction false} ConsensusHasEdges(o: Crypto)
    ensures EdgeLaws(ConsensusRules(o))
  {
    var rules := ConsensusRules(o);
    forall s: Ledger, inTime: bool, b: StoredBlock | b.block.coinbase.height != |s.ids|
      ensures rules.add(s, inTime, b).Err?
    {
      if s.Shaped() {
        WrongHeightIsRefused(o, s, inTime, b);
      }
    }
  }

  lemma {:induction false} PopTimesMore(rules: Rules, s: Ledger, m: nat, n: nat)
    ensures PopTimes(rules, s, m + n) == PopTimes(rules, PopTimes(rules, s, m), n)
    decreases m
  {
    if m > 0 {
      PopTimesMore(rules, rules.pop(s), m - 1, n);
    }
  }

  lemma {:induction false} BareStays(rules: Rules, s: Ledger, n: nat)
    requires EdgeLaws(rules) && s.blocks == []
    ensures PopTimes(rules, s, n) == s
    decreases n
  {
    if n > 0 {
      BareStays(rules, s, n - 1);
    }
  }

  /** What undoing everything leaves of a restored chain: its snapshot, beside the original at that length. */
  ghost predicate Bottom(rules: Rules, start: Ledger, base: nat, s: Ledger, t: Ledger, peak: nat) {
    var n := |s.blocks|;
    && n == |t.blocks| - base && IsRestored(base, PopTimes(rules, s, n), PopTimes(rules, t, n), peak)
    && PopTimes(rules, s, n).blocks == [] && |PopTimes(rules, s, n).ids| == base
    && Genuine(rules, start, PopTimes(rules, t, n)) && PopTimes(rules, t, n).blocks + s.blocks == t.blocks
  }

  lemma {:induction false} BackToSnapshot(rules: Rules, start: Ledger, base: nat, s: Ledger, t: Ledger, peak: nat)
    requires Lawful(rules) && Simulates(rules, Since(base), From(base))
    requires Genuine(rules, start, t) && IsRestored(base, s, t, peak)
    ensures Bottom(rules, start, base, s, t, peak)
  {
    var n := |t.blocks| - base;
    PopTimesStayAlike(rules, Since(base), From(base), s, t, peak, n);
    PopTimesGenuine(rules, start, t, n);
  }

  /** Rolling back past the snapshot stops there. */
  lemma {:induction false} RollbackStopsAtSnapshot(rules: Rules, s: Ledger, height: nat)
    requires EdgeLaws(rules) && PopTimes(rules, s, |s.blocks|).blocks == [] && |s.blocks| <= Excess(s, height)
    ensures RolledBack(rules, s, height) == PopTimes(rules, s, |s.blocks|)
    ensures Removed(s, height) == s.blocks
  {
    PopTimesMore(rules, s, |s.blocks|, Excess(s, height) - |s.blocks|);
    BareStays(rules, PopTimes(rules, s, |s.blocks|), Excess(s, height) - |s.blocks|);
  }

  /** Blocks from after the snapshot apply again to the chain it left, unless the clock stops one. */
  lemma {:induction false} ReapplyFromSnapshot(
    rules: Rules, clock: Clock, tick: nat, start: Ledger, base: nat, s: Ledger, t: Ledger, peak: nat)
    requires Lawful(rules) && Simulates(rules, Since(base), From(base))
    requires Genuine(rules, start, t) && IsRestored(base, s, t, peak) && Bottom(rules, start, base, s, t, peak)
    ensures var run := RunBranch(rules, clock, tick, PopTimes(rules, s, |s.blocks|), s.blocks);
            && (AllInTime(clock, tick, s.blocks) ==> run == Run(s, tick + |s.blocks|, None))
            && (!AllInTime(clock, tick, s.blocks) ==> run.failure.Some?)
  {
    var bare, below := PopTimes(rules, s, |s.blocks|), PopTimes(rules, t, |s.blocks|);
    ReapplyIff(rules, clock, tick, start, t, below, s.blocks);
    RunStaysAlike(rules, Since(base), From(base), clock, tick, bare, below, peak, s.blocks);
  }

  /** An attempt whose first block is refused on a bare chain: all there is goes off and on again. */
  lemma {:induction false} BareAttempt(
    rules: Rules, clock: Clock, tick: nat, s: Ledger, rest: seq<StoredBlock>, bare: Ledger)
    requires rest != [] && EdgeLaws(rules) && bare.blocks == []
    requires RolledBack(rules, s, rest[0].block.coinbase.height) == bare
    requires Removed(s, rest[0].block.coinbase.height) == s.blocks && rest[0].block.coinbase.height != |bare.ids|
    ensures var run, out := RunBranch(rules, clock, tick + 1, bare, s.blocks), Attempt(rules, clock, tick, s, rest);
            out.state == run.state && (if run.failure.None? then out.result.Refused? else out.result.Panic?)
  {
    BareStays(rules, bare, Excess(bare, rest[0].block.coinbase.height));
  }

  lemma {:induction false} ForkBelowIsAttempted(
    rules: Rules, clock: Clock, tick: nat, base: nat, s: Ledger, branch: seq<StoredBlock>)
    requires ForksBelow(rules, base, s, branch)
    ensures Rest(rules, s, branch) != []
    ensures TryReorg(rules, clock, tick, s, branch) == Attempt(rules, clock, tick, s, Rest(rules, s, branch))
  {
  }

  /** Below the base there is more to undo than the restored chain has. */
  lemma MoreThanStored(base: nat, s: Ledger, t: Ledger, peak: nat, height: nat)
    requires IsRestored(base, s, t, peak) && Max(height, 1) < base
    ensures |s.blocks| <= Excess(s, height)
  {
  }

  /**
   A fork from before the snapshot. The rollback takes off all blocks there are, the
   branch's first block does not fit, and the discarded blocks go back on: a refusal that
   leaves every field as it was, or, if the clock has meanwhile gone back behind one of
   them, the panic.
   */
  lemma {:induction false} ForkBelowIsRefused(
    rules: Rules, clock: Clock, tick: nat, start: Ledger, base: nat, s: Ledger, t: Ledger, peak: nat,
    branch: seq<StoredBlock>)
    requires Lawful(rules) && EdgeLaws(rules) && Simulates(rules, Since(base), From(base))
    requires Genuine(rules, start, t) && IsRestored(base, s, t, peak) && ForksBelow(rules, base, s, branch)
    ensures var out := TryReorg(rules, clock, tick, s, branch);
            if AllInTime(clock, tick + 1, s.blocks) then out.result.Refused? && out.state == s else out.result.Panic?
  {
    ForkBelowIsAttempted(rules, clock, tick, base, s, branch);
    var rest, bare := Rest(rules, s, branch), PopTimes(rules, s, |s.blocks|);
    BackToSnapshot(rules, start, base, s, t, peak);
    MoreThanStored(base, s, t, peak, rest[0].block.coinbase.height);
    RollbackStopsAtSnapshot(rules, s, rest[0].block.coinbase.height);
    BareAttempt(rules, clock, tick, s, rest, bare);
    ReapplyFromSnapshot(rules, clock, tick + 1, start, base, s, t, peak);
  }

  /** Forks from the snapshot on, or no attempt at all: nothing below the snapshot is taken off. */
  lemma {:induction false} ForkAboveIsWithin(
    rules: Rules, clock: Clock, tick: nat, base: nat, s: Ledger, t: Ledger, peak: nat, branch: seq<StoredBlock>)
    requires IsRestored(base, s, t, peak) && !ForksBelow(rules, base, s, branch)
    ensures SwitchWithin(From(base), rules, clock, tick, t, peak, branch)
  {
    SharedSame(rules, s, t, branch);
  }

  /**
   All-or-nothing on a restored chain, whatever the branch: a refusal leaves every field as
   it was. A reorganisation that takes off nothing from before the snapshot has the outcome
   it would have on the original; one that would is never accepted.
   */
  lemma {:induction false} RestoredAllOrNothing(
    o: Crypto, clock: Clock, tick: nat, start: Ledger, base: nat, s: Ledger, t: Ledger, peak: nat,
    branch: seq<StoredBlock>)
    requires Genuine(ConsensusRules(o), start, t) && IsRestored(base, s, t, peak)
    ensures var rules := ConsensusRules(o);
            var left, right := TryReorg(rules, clock, tick, s, branch), TryReorg(rules, clock, tick, t, branch);
            && (left.result.Refused? ==> left.state == s)
            && (ForksBelow(rules, base, s, branch) ==>
                  !left.result.Switched? && (left.result.Panic? <==> !AllInTime(clock, tick + 1, s.blocks)))
            && (!ForksBelow(rules, base, s, branch) ==>
                  && left.result == right.result && left.tick == right.tick
                  && IsRestored(base, left.state, right.state, SwitchPeak(rules, clock, tick, t, peak, branch)))
  {
    var rules := ConsensusRules(o);
    ConsensusIsLawful(o);
    RestoringSimulates(o, base);
    if ForksBelow(rules, base, s, branch) {
      ConsensusHasEdges(o);
      ForkBelowIsRefused(rules, clock, tick, start, base, s, t, peak, branch);
    } else {
      ForkAboveIsWithin(rules, clock, tick, base, s, t, peak, branch);
      ReorgStaysAlike(rules, Since(base), From(base), clock, tick, s, t, peak, branch);
      AllOrNothing(rules, clock, tick, start, t, branch);
    }
  }

  /**
   Through every run that takes off nothing from before the snapshot, the restored chain
   does not panic and is the original without that history, which is the replay of its
   surviving blocks.
   */
  lemma RestoredRunsFollow(
    o: Crypto, clock: Clock, tick: nat, start: Ledger, t: Ledger, ops: seq<Op>)
    requires Genuine(ConsensusRules(o), start, t) && NeverGoesBack(clock) && Settled(clock, tick, t)
    requires Shallow(From(|t.blocks|), ConsensusRules(o), clock, tick, t, |t.blocks|, ops)
    ensures var rules := ConsensusRules(o);
            var left, right := Exec(rules, clock, tick, Forgotten(t), ops), Exec(rules, clock, tick, t, ops);
            && left.Running? && right.Running? && left.tick == right.tick
            && Genuine(rules, start, right.state)
            && |t.blocks| <= |right.state.blocks| == |right.state.undos|
            && left.state == Forget(right.state, |t.blocks|)
  {
    var rules, base := ConsensusRules(o), |t.blocks|;
    ConsensusIsLawful(o);
    GenuineFacts(rules, start, t);
    RestartIsForgetful(t);
    RestoringSimulates(o, base);
    RunsStayAlike(rules, Since(base), From(base), clock, tick, Forgotten(t), t, base, ops);
    RunsStayGenuine(rules, clock, tick, start, t, ops);
  }
}
