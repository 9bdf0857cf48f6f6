/**
 The main results about single chains, for the program's own rules and over whole runs:
 any interleaving of blocks, rollbacks and reorganisations from genesis.
 */
module Safety {
  import opened Types
  import opened Data
  import opened Oracles
  import opened Ledgers
  import opened Replay
  import opened Reorg
  import opened Runs
  import opened Consensus
  import Supply
  import Conservation
  import NoteMaturity
  import RingAcceptance
  import ChainTime
  import ProvenChains
  import Pruning
  import SideBySide

  /** A chain some run of the program has left behind. */
  ghost predicate LeftByRun(o: Crypto, g: Block, maturity: U64, clock: Clock, ops: seq<Op>, s: Ledger) {
    && IsGenesis(o, g) && NeverGoesBack(clock)
    && Exec(ConsensusRules(o), clock, 0, GenesisLedger(o, g, maturity), ops).Running?
    && Exec(ConsensusRules(o), clock, 0, GenesisLedger(o, g, maturity), ops).state == s
  }

  /** No run panics, and what it leaves is the replay of the surviving blocks. */
  lemma EveryRunIsAReplay(o: Crypto, g: Block, maturity: U64, clock: Clock, ops: seq<Op>)
    requires IsGenesis(o, g) && NeverGoesBack(clock)
    ensures var end := Exec(ConsensusRules(o), clock, 0, GenesisLedger(o, g, maturity), ops);
            end.Running? && Genuine(ConsensusRules(o), GenesisLedger(o, g, maturity), end.state)
  {
    var rules, start := ConsensusRules(o), GenesisLedger(o, g, maturity);
    ConsensusIsLawful(o);
    GenesisIsStart(o, g, maturity);
    StartIsGenuine(rules, start);
    RunsStayGenuine(rules, clock, 0, start, start, ops);
  }

  /** The emission counter is the supply of the two pools and follows the emission curve. */
  lemma SupplyAfterEveryRun(o: Crypto, g: Block, maturity: U64, clock: Clock, ops: seq<Op>, s: Ledger)
    requires LeftByRun(o, g, maturity, clock, ops, s)
    ensures Supply.SupplyInvariant(Premine(g), s)
  {
    EveryRunIsAReplay(o, g, maturity, clock, ops);
    Supply.EmittedIsSupply(o, g, maturity, s);
  }

  /** Every output was consumed at most once, and the ring total is the value of the rest. */
  lemma ValueAfterEveryRun(o: Crypto, g: Block, maturity: U64, clock: Clock, ops: seq<Op>, s: Ledger)
    requires LeftByRun(o, g, maturity, clock, ops, s)
    requires Conservation.Sound(o) && Conservation.InMemory(s.blocks)
    ensures Conservation.Conserved(o, s)
  {
    EveryRunIsAReplay(o, g, maturity, clock, ops);
    Conservation.ValueIsConserved(o, g, maturity, s);
  }

  /** Tree, queue and anchors are those of the surviving blocks, the anchors exactly the last 100 roots. */
  lemma PoolAfterEveryRun(o: Crypto, g: Block, maturity: U64, clock: Clock, ops: seq<Op>, s: Ledger)
    requires LeftByRun(o, g, maturity, clock, ops, s) && |s.blocks| + maturity <= U64_MAX
    ensures NoteMaturity.PoolReadsOff(o, s.shielded, s.blocks, maturity)
  {
    EveryRunIsAReplay(o, g, maturity, clock, ops);
    NoteMaturity.PoolReadsOffChain(o, g, maturity, s);
  }

  /** Output heights rise, the index inverts the outputs, times pass the median, work grows. */
  lemma ColumnsAfterEveryRun(o: Crypto, g: Block, maturity: U64, clock: Clock, ops: seq<Op>, s: Ledger)
    requires LeftByRun(o, g, maturity, clock, ops, s)
    ensures RingAcceptance.Columns(s)
    ensures ChainTime.TimeAndWork(s)
  {
    EveryRunIsAReplay(o, g, maturity, clock, ops);
    RingAcceptance.ColumnsHold(o, g, maturity, s);
    ChainTime.TimeAndWorkHold(o, g, maturity, s);
  }

  /**
   Every block above genesis carries its proofs: its transactions', its bundles' and its
   reward's, and the hash under the id at its seed height meets the work the block adds.
   */
  lemma {:induction false} ProofsAfterEveryRun(
    o: Crypto, g: Block, maturity: U64, clock: Clock, ops: seq<Op>, s: Ledger)
    requires LeftByRun(o, g, maturity, clock, ops, s)
    ensures ProvenChains.Proven(o, s)
    ensures forall n :: 1 <= n < |s.blocks| ==> ProvenChains.WorkMet(o, s.ids, s.work, s.blocks[n].block, n)
  {
    EveryRunIsAReplay(o, g, maturity, clock, ops);
    ProvenChains.ReachableIsProven(o, g, maturity, s);
    ProvenChains.WorkIsShown(o, s);
  }

  /** Outputs, marks, times and ids are those of the surviving blocks; no image and no nullifier occurs twice. */
  lemma {:induction false} BlocksReadOffAfterEveryRun(
    o: Crypto, g: Block, maturity: U64, clock: Clock, ops: seq<Op>, s: Ledger)
    requires LeftByRun(o, g, maturity, clock, ops, s)
    ensures ProvenChains.ReadsOff(o, s)
  {
    EveryRunIsAReplay(o, g, maturity, clock, ops);
    ProvenChains.ReachableReadsOff(o, g, maturity, s);
  }

  /** Two runs that end with the same blocks end in the same state, whatever they did on the way. */
  lemma RunsConverge(
    o: Crypto, g: Block, maturity: U64, clock: Clock, ops: seq<Op>, s: Ledger,
    clock': Clock, ops': seq<Op>, s': Ledger)
    requires LeftByRun(o, g, maturity, clock, ops, s) && LeftByRun(o, g, maturity, clock', ops', s')
    requires s.blocks == s'.blocks
    ensures s == s'
  {
    EveryRunIsAReplay(o, g, maturity, clock, ops);
    EveryRunIsAReplay(o, g, maturity, clock', ops');
    BlocksDetermineState(ConsensusRules(o), GenesisLedger(o, g, maturity), s, s');
  }

  /**
   With pruning on from the start, a run that takes off nothing more than 128 below the
   highest height reached does not panic either, and leaves the replay of the surviving
   blocks without the bodies dropped on the way.
   */
  lemma PrunedRunsAreReplays(o: Crypto, g: Block, maturity: U64, clock: Clock, ops: seq<Op>)
    requires IsGenesis(o, g) && NeverGoesBack(clock)
    requires Pruning.RunInWindow(ConsensusRules(o), clock, 0, GenesisLedger(o, g, maturity), 1, ops)
    ensures var rules, start := ConsensusRules(o), GenesisLedger(o, g, maturity);
            var kept, pruned := Exec(rules, clock, 0, start, ops), Exec(rules, clock, 0, start.(prune := true), ops);
            && kept.Running? && pruned.Running? && Genuine(rules, start, kept.state)
            && Pruning.PrunedLike(pruned.state, kept.state,
                 Pruning.Dropped(SideBySide.RunPeak(rules, clock, 0, start, 1, ops)))
  {
    var start := GenesisLedger(o, g, maturity);
    EveryRunIsAReplay(o, g, maturity, clock, ops);
    assert Pruning.Stripped(start.blocks, 0) == start.blocks;
    Pruning.ShallowRunsStayAlike(o, clock, 0, start.(prune := true), start, 1, ops);
  }
}
