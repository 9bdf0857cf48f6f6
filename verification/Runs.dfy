/**
 Whole runs: any sequence of `add_block`, `rollback_to` and `try_reorg` calls, under a
 clock that never goes back.
 */
module Runs {
  import opened Types
  import opened Data
  import opened Ledgers
  import opened Replay
  import opened Reorg

  datatype Op =
    | AddBlock(b: StoredBlock)
    | RollbackTo(height: nat)
    | SwitchTo(branch: seq<StoredBlock>)

  datatype Stage = Running(state: Ledger, tick: nat) | Panicked

  function Step(rules: Rules, clock: Clock, tick: nat, s: Ledger, op: Op): Stage {
    match op
    case AddBlock(b) =>
      var added := rules.add(s, InTime(clock(tick), b.block), b);
      Running(if added.Ok? then added.value else s, tick + 1)
    case RollbackTo(height) => Running(RolledBack(rules, s, height), tick)
    case SwitchTo(branch) =>
      var out := TryReorg(rules, clock, tick, s, branch);
      if out.result.Panic? then Panicked else Running(out.state, out.tick)
  }

  function Exec(rules: Rules, clock: Clock, tick: nat, s: Ledger, ops: seq<Op>): Stage
    decreases |ops|
  {
    if ops == [] then Running(s, tick)
    else
      match Step(rules, clock, tick, s, ops[0])
      case Panicked => Panicked
      case Running(s', tick') => Exec(rules, clock, tick', s', ops[1..])
  }

  /** Every block above genesis has passed the clock by now. */
  predicate Settled(clock: Clock, tick: nat, s: Ledger) {
    forall i :: 1 <= i < |s.blocks| ==> InTime(clock(tick), s.blocks[i].block)
  }

  lemma {:induction false} SettledBlocksStayInTime(clock: Clock, now: nat, tick: nat, blocks: seq<StoredBlock>)
    requires NeverGoesBack(clock) && now <= tick
    requires forall i :: 0 <= i < |blocks| ==> InTime(clock(now), blocks[i].block)
    ensures AllInTime(clock, tick, blocks)
    decreases |blocks|
  {
    if blocks != [] {
      assert clock(now) <= clock(tick);
      SettledBlocksStayInTime(clock, now, tick + 1, blocks[1..]);
    }
  }

  /** With a clock that never goes back, the restoring `expect` of a failed reorg cannot fire. */
  lemma ReorgNeverPanics(rules: Rules, clock: Clock, tick: nat, start: Ledger, s: Ledger, branch: seq<StoredBlock>)
    requires Lawful(rules) && Genuine(rules, start, s)
    requires NeverGoesBack(clock) && Settled(clock, tick, s)
    ensures !TryReorg(rules, clock, tick, s, branch).result.Panic?
  {
    AllOrNothing(rules, clock, tick, start, s, branch);
    if Attempted(rules, s, branch) {
      var rest := branch[SharedCount(rules, s, branch)..];
      var fork := rest[0].block.coinbase.height;
      var base := RolledBack(rules, s, fork);
      RollbackFacts(rules, start, s, fork);
      GenuineFacts(rules, start, base);
      var removed := Removed(s, fork);
      var k := Progress(rules, clock, tick, base, rest);
      forall i | 0 <= i < |removed|
        ensures InTime(clock(tick), removed[i].block)
      {
        assert removed[i] == s.blocks[|base.blocks| + i];
      }
      SettledBlocksStayInTime(clock, tick, RunBranch(rules, clock, tick, base, rest).tick, removed);
    }
  }

  lemma RunSettles(rules: Rules, clock: Clock, tick: nat, start: Ledger, s: Ledger, branch: seq<StoredBlock>)
    requires Lawful(rules) && Genuine(rules, start, s)
    requires NeverGoesBack(clock) && Settled(clock, tick, s)
    ensures var run := RunBranch(rules, clock, tick, s, branch);
            tick <= run.tick && Settled(clock, run.tick, run.state)
  {
    GenuineFacts(rules, start, s);
    RunAppends(rules, clock, tick, s, branch);
    var k := Progress(rules, clock, tick, s, branch);
    var run := RunBranch(rules, clock, tick, s, branch);
    forall i | 1 <= i < |run.state.blocks|
      ensures InTime(clock(run.tick), run.state.blocks[i].block)
    {
      if i < |s.blocks| {
        assert clock(tick) <= clock(run.tick);
      } else {
        var j := i - |s.blocks|;
        AppliedBlocksFit(rules, clock, tick, start, s, branch, j);
        assert clock(tick + j) <= clock(run.tick);
      }
    }
  }

  lemma RollbackStaysSettled(rules: Rules, clock: Clock, tick: nat, start: Ledger, s: Ledger, height: nat)
    requires Lawful(rules) && Genuine(rules, start, s) && Settled(clock, tick, s)
    ensures Genuine(rules, start, RolledBack(rules, s, height))
    ensures Settled(clock, tick, RolledBack(rules, s, height))
  {
    RollbackFacts(rules, start, s, height);
    var t := RolledBack(rules, s, height);
    forall i | 1 <= i < |t.blocks|
      ensures InTime(clock(tick), t.blocks[i].block)
    {
      assert t.blocks[i] == s.blocks[i];
    }
  }

  /** A refused attempt reads the clock further but ends in the old state. */
  lemma RestoreSettles(rules: Rules, clock: Clock, tick: nat, start: Ledger, s: Ledger, rest: seq<StoredBlock>)
    requires Lawful(rules) && Genuine(rules, start, s) && rest != []
    requires NeverGoesBack(clock) && Settled(clock, tick, s)
    requires Attempt(rules, clock, tick, s, rest).result.Refused?
    ensures Settled(clock, Attempt(rules, clock, tick, s, rest).tick, s)
  {
    var fork := rest[0].block.coinbase.height;
    var run := RunBranch(rules, clock, tick, RolledBack(rules, s, fork), rest);
    var k := Progress(rules, clock, tick, RolledBack(rules, s, fork), rest);
    var restored := RunBranch(rules, clock, run.tick, RolledBack(rules, run.state, fork), Removed(s, fork));
    var j := Progress(rules, clock, run.tick, RolledBack(rules, run.state, fork), Removed(s, fork));
    assert Attempt(rules, clock, tick, s, rest).tick == restored.tick;
    assert clock(tick) <= clock(restored.tick);
  }

  lemma SwitchStaysGenuine(rules: Rules, clock: Clock, tick: nat, start: Ledger, s: Ledger, branch: seq<StoredBlock>)
    requires Lawful(rules) && Genuine(rules, start, s)
    requires NeverGoesBack(clock) && Settled(clock, tick, s)
    ensures var out := TryReorg(rules, clock, tick, s, branch);
            !out.result.Panic? && Genuine(rules, start, out.state) && Settled(clock, out.tick, out.state)
  {
    ReorgNeverPanics(rules, clock, tick, start, s, branch);
    if Attempted(rules, s, branch) {
      var rest := branch[SharedCount(rules, s, branch)..];
      AttemptAllOrNothing(rules, clock, tick, start, s, rest);
      var fork := rest[0].block.coinbase.height;
      RollbackStaysSettled(rules, clock, tick, start, s, fork);
      var base := RolledBack(rules, s, fork);
      RunSettles(rules, clock, tick, start, base, rest);
      RunKeepsGenuine(rules, clock, tick, start, base, rest);
      if Attempt(rules, clock, tick, s, rest).result.Refused? {
        RestoreSettles(rules, clock, tick, start, s, rest);
      }
    }
  }

  lemma StepStaysGenuine(rules: Rules, clock: Clock, tick: nat, start: Ledger, s: Ledger, op: Op)
    requires Lawful(rules) && Genuine(rules, start, s)
    requires NeverGoesBack(clock) && Settled(clock, tick, s)
    ensures var next := Step(rules, clock, tick, s, op);
            next.Running? && Genuine(rules, start, next.state) && Settled(clock, next.tick, next.state)
  {
    match op
    case AddBlock(b) =>
      RunSettles(rules, clock, tick, start, s, [b]);
      RunKeepsGenuine(rules, clock, tick, start, s, [b]);
      GenuineFacts(rules, start, s);
      var added := rules.add(s, InTime(clock(tick), b.block), b);
      if added.Ok? {
        assert RunBranch(rules, clock, tick + 1, added.value, [b][1..]) == Run(added.value, tick + 1, None);
      }
    case RollbackTo(height) =>
      RollbackStaysSettled(rules, clock, tick, start, s, height);
    case SwitchTo(branch) =>
      SwitchStaysGenuine(rules, clock, tick, start, s, branch);
  }

  /**
   Safety over whole runs. Starting from genesis, any interleaving of blocks applied,
   rollbacks and reorgs (won, lost or invalid) neither panics nor leaves a trace of the
   blocks it dropped: the state is the replay of the surviving blocks.
   */
  lemma {:induction false} RunsStayGenuine(
    rules: Rules, clock: Clock, tick: nat, start: Ledger, s: Ledger, ops: seq<Op>)
    requires Lawful(rules) && Genuine(rules, start, s)
    requires NeverGoesBack(clock) && Settled(clock, tick, s)
    ensures var end := Exec(rules, clock, tick, s, ops);
            end.Running? && Genuine(rules, start, end.state) &&
            end.state.blocks[0] == start.blocks[0] && Settled(clock, end.tick, end.state)
    decreases |ops|
  {
    GenuineFacts(rules, start, s);
    if ops != [] {
      StepStaysGenuine(rules, clock, tick, start, s, ops[0]);
      var next := Step(rules, clock, tick, s, ops[0]);
      RunsStayGenuine(rules, clock, next.tick, start, next.state, ops[1..]);
    }
  }
}
