/**
 `try_reorg` (noct/core/src/chain.rs): the branch is applied in place and undone if it
 does not win. All-or-nothing, the restoring `expect`, and the claim that skipping the
 shared prefix changes nothing.
 */
module Reorg {
  import opened Types
  import opened Data
  import opened Ledgers
  import opened Replay

  /** The n-th reading of the node's clock. Each call of `add_block` takes one. */
  type Clock = nat -> U64

  ghost predicate NeverGoesBack(clock: Clock) {
    forall m: nat, n: nat :: m <= n ==> clock(m) <= clock(n)
  }

  // --- specification -------------------------------------------------------

  datatype Run = Run(state: Ledger, tick: nat, failure: Option<ChainError>)

  /** Blocks applied in order until one is refused. */
  function RunBranch(rules: Rules, clock: Clock, tick: nat, s: Ledger, branch: seq<StoredBlock>): Run
    decreases |branch|
  {
    if branch == [] then Run(s, tick, None)
    else
      match rules.add(s, InTime(clock(tick), branch[0].block), branch[0])
      case Err(e) => Run(s, tick + 1, Some(e))
      case Ok(s') => RunBranch(rules, clock, tick + 1, s', branch[1..])
  }

  predicate IsShared(rules: Rules, s: Ledger, b: StoredBlock) {
    b.block.coinbase.height < |s.ids| && s.ids[b.block.coinbase.height] == rules.blockId(b.block)
  }

  function SharedCount(rules: Rules, s: Ledger, branch: seq<StoredBlock>): (n: nat)
    ensures n <= |branch|
    ensures forall i :: 0 <= i < n ==> IsShared(rules, s, branch[i])
    ensures n < |branch| ==> !IsShared(rules, s, branch[n])
  {
    if branch == [] || !IsShared(rules, s, branch[0]) then 0 else 1 + SharedCount(rules, s, branch[1..])
  }

  function TotalWork(s: Ledger): nat {
    if s.work == [] then 0 else s.work[|s.work| - 1]
  }

  datatype ReorgResult =
    | Switched(discarded: seq<StoredBlock>, applied: nat)
    | Refused(error: ChainError)
    /** The `expect` on a discarded block that would not re-apply. */
    | Panic

  datatype Outcome = Outcome(state: Ledger, tick: nat, result: ReorgResult)

  function Attempt(rules: Rules, clock: Clock, tick: nat, s: Ledger, rest: seq<StoredBlock>): Outcome
    requires rest != []
  {
    var fork := rest[0].block.coinbase.height;
    var run := RunBranch(rules, clock, tick, RolledBack(rules, s, fork), rest);
    var failure := if run.failure.None? && TotalWork(run.state) <= TotalWork(s) then Some(NotHeavier) else run.failure;
    if failure.None? then Outcome(run.state, run.tick, Switched(Removed(s, fork), |rest|))
    else
      var restored := RunBranch(rules, clock, run.tick, RolledBack(rules, run.state, fork), Removed(s, fork));
      Outcome(restored.state, restored.tick, if restored.failure.Some? then Panic else Refused(failure.value))
  }

  function TryReorg(rules: Rules, clock: Clock, tick: nat, s: Ledger, branch: seq<StoredBlock>): Outcome {
    if branch == [] then Outcome(s, tick, Refused(EmptyBranch))
    else if branch[0].block.coinbase.height > |s.ids| then Outcome(s, tick, Refused(BadPrevId))
    else if branch[0].block.coinbase.height == 0 then Outcome(s, tick, Refused(CannotReplaceGenesis))
    else
      var rest := branch[SharedCount(rules, s, branch)..];
      if rest == [] then Outcome(s, tick, Refused(NotHeavier)) else Attempt(rules, clock, tick, s, rest)
  }

  // --- running and restoring -----------------------------------------------

  /** How many blocks of the branch a run gets through. */
  function Progress(rules: Rules, clock: Clock, tick: nat, s: Ledger, branch: seq<StoredBlock>): (k: nat)
    ensures k <= |branch|
    ensures var run := RunBranch(rules, clock, tick, s, branch);
            if run.failure.None? then k == |branch| && run.tick == tick + k
            else k < |branch| && run.tick == tick + k + 1
    decreases |branch|
  {
    if branch == [] then 0
    else
      match rules.add(s, InTime(clock(tick), branch[0].block), branch[0])
      case Err(e) => 0
      case Ok(s') => 1 + Progress(rules, clock, tick + 1, s', branch[1..])
  }

  lemma {:induction false} RunKeepsGenuine(
    rules: Rules, clock: Clock, tick: nat, start: Ledger, s: Ledger, branch: seq<StoredBlock>)
    requires Lawful(rules) && Genuine(rules, start, s)
    ensures Genuine(rules, start, RunBranch(rules, clock, tick, s, branch).state)
    decreases |branch|
  {
    if branch != [] {
      var b := branch[0];
      var added := rules.add(s, InTime(clock(tick), b.block), b);
      if added.Ok? {
        GenuineFacts(rules, start, s);
        AddKeepsGenuine(rules, start, s, b);
        RunKeepsGenuine(rules, clock, tick + 1, start, added.value, branch[1..]);
      }
    }
  }

  /** A run appends exactly the blocks it got through. */
  lemma {:induction false} RunAppends(
    rules: Rules, clock: Clock, tick: nat, s: Ledger, branch: seq<StoredBlock>)
    requires Lawful(rules) && rules.valid(s)
    ensures RunBranch(rules, clock, tick, s, branch).state.blocks ==
            s.blocks + branch[..Progress(rules, clock, tick, s, branch)]
    decreases |branch|
  {
    if branch != [] {
      var b := branch[0];
      var added := rules.add(s, InTime(clock(tick), b.block), b);
      if added.Ok? {
        assert AcceptLaw(rules, s, b, added.value);
        RunAppends(rules, clock, tick + 1, added.value, branch[1..]);
        var j := Progress(rules, clock, tick + 1, added.value, branch[1..]);
        assert branch[..j + 1] == [b] + branch[1..][..j];
      }
    }
  }

  /** What an applied block must have been: next in height, its own body, in time. */
  predicate Fits(rules: Rules, clock: Clock, tick: nat, height: nat, b: StoredBlock) {
    b.block.coinbase.height == height && rules.bodyFits(b) && InTime(clock(tick), b.block)
  }

  lemma AcceptedBlockFits(rules: Rules, clock: Clock, tick: nat, start: Ledger, s: Ledger, b: StoredBlock)
    requires Lawful(rules) && Genuine(rules, start, s)
    requires rules.add(s, InTime(clock(tick), b.block), b).Ok?
    ensures InTime(clock(tick), b.block) && Genuine(rules, start, rules.add(s, true, b).value)
    ensures Fits(rules, clock, tick, |s.blocks|, b) && |rules.add(s, true, b).value.blocks| == |s.blocks| + 1
  {
    GenuineFacts(rules, start, s);
    AddKeepsGenuine(rules, start, s, b);
  }

  lemma {:induction false} AppliedBlocksFit(
    rules: Rules, clock: Clock, tick: nat, start: Ledger, s: Ledger, branch: seq<StoredBlock>, i: nat)
    requires Lawful(rules) && Genuine(rules, start, s)
    requires i < Progress(rules, clock, tick, s, branch)
    ensures Fits(rules, clock, tick + i, |s.blocks| + i, branch[i])
    decreases i
  {
    AcceptedBlockFits(rules, clock, tick, start, s, branch[0]);
    if i > 0 {
      AppliedBlocksFit(rules, clock, tick + 1, start, rules.add(s, true, branch[0]).value, branch[1..], i - 1);
    }
  }

  /** The next block of a genuine chain applies to the state below it. */
  lemma NextBlockApplies(rules: Rules, start: Ledger, s: Ledger, below: Ledger)
    requires Lawful(rules) && Genuine(rules, start, s) && Genuine(rules, start, below)
    requires |below.blocks| < |s.blocks| && below.blocks == s.blocks[..|below.blocks|]
    ensures var b := s.blocks[|below.blocks|];
            rules.add(below, true, b).Ok? &&
            Genuine(rules, start, rules.add(below, true, b).value) &&
            rules.add(below, true, b).value.blocks == s.blocks[..|below.blocks| + 1]
  {
    var n := |below.blocks|;
    PopTimesGenuine(rules, start, s, |s.blocks| - n - 1);
    var t := PopTimes(rules, s, |s.blocks| - n - 1);
    PopKeepsGenuine(rules, start, t);
    assert t.blocks[..n] == below.blocks;
    BlocksDetermineState(rules, start, rules.pop(t), below);
  }

  predicate AllInTime(clock: Clock, tick: nat, blocks: seq<StoredBlock>)
    decreases |blocks|
  {
    blocks == [] || (InTime(clock(tick), blocks[0].block) && AllInTime(clock, tick + 1, blocks[1..]))
  }

  /** Re-applying the blocks of a genuine chain can be stopped by the clock and by nothing else. */
  lemma {:induction false} ReapplyIff(
    rules: Rules, clock: Clock, tick: nat, start: Ledger, s: Ledger, below: Ledger, removed: seq<StoredBlock>)
    requires Lawful(rules) && Genuine(rules, start, s) && Genuine(rules, start, below)
    requires below.blocks + removed == s.blocks
    ensures AllInTime(clock, tick, removed) ==>
              RunBranch(rules, clock, tick, below, removed) == Run(s, tick + |removed|, None)
    ensures !AllInTime(clock, tick, removed) ==> RunBranch(rules, clock, tick, below, removed).failure.Some?
    decreases |removed|
  {
    if removed == [] {
      BlocksDetermineState(rules, start, s, below);
    } else {
      var b := removed[0];
      assert s.blocks[|below.blocks|] == b;
      NextBlockApplies(rules, start, s, below);
      GenuineFacts(rules, start, below);
      var next := rules.add(below, true, b).value;
      assert next.blocks + removed[1..] == s.blocks;
      ReapplyIff(rules, clock, tick + 1, start, s, next, removed[1..]);
    }
  }

  // --- all or nothing ------------------------------------------------------

  /** After an attempt that did not win, the second rollback ends where the first one did. */
  lemma RollsBackToSameBase(
    rules: Rules, clock: Clock, tick: nat, start: Ledger, s: Ledger, rest: seq<StoredBlock>)
    requires Lawful(rules) && Genuine(rules, start, s) && rest != []
    ensures var fork := rest[0].block.coinbase.height;
            var base := RolledBack(rules, s, fork);
            RolledBack(rules, RunBranch(rules, clock, tick, base, rest).state, fork) == base
  {
    var fork := rest[0].block.coinbase.height;
    RollbackFacts(rules, start, s, fork);
    var base := RolledBack(rules, s, fork);
    GenuineFacts(rules, start, base);
    RunKeepsGenuine(rules, clock, tick, start, base, rest);
    RunAppends(rules, clock, tick, base, rest);
    var k := Progress(rules, clock, tick, base, rest);
    if k > 0 {
      AppliedBlocksFit(rules, clock, tick, start, base, rest, 0);
    }
    var tip := RunBranch(rules, clock, tick, base, rest).state;
    RollbackFacts(rules, start, tip, fork);
    var again := RolledBack(rules, tip, fork);
    assert |again.blocks| == |base.blocks|;
    assert again.blocks == tip.blocks[..|base.blocks|];
    BlocksDetermineState(rules, start, again, base);
  }

  /** The attempt itself, once the shared prefix is gone. */
  lemma AttemptAllOrNothing(
    rules: Rules, clock: Clock, tick: nat, start: Ledger, s: Ledger, rest: seq<StoredBlock>)
    requires Lawful(rules) && Genuine(rules, start, s) && rest != []
    ensures var out := Attempt(rules, clock, tick, s, rest);
            var fork := rest[0].block.coinbase.height;
            var run := RunBranch(rules, clock, tick, RolledBack(rules, s, fork), rest);
            var lost := run.failure.Some? || TotalWork(run.state) <= TotalWork(s);
            if !lost then out == Outcome(run.state, run.tick, Switched(Removed(s, fork), |rest|))
            else if AllInTime(clock, run.tick, Removed(s, fork)) then out.result.Refused? && out.state == s
            else out.result.Panic?
  {
    var fork := rest[0].block.coinbase.height;
    RollbackFacts(rules, start, s, fork);
    RollsBackToSameBase(rules, clock, tick, start, s, rest);
    var base := RolledBack(rules, s, fork);
    var run := RunBranch(rules, clock, tick, base, rest);
    ReapplyIff(rules, clock, run.tick, start, s, base, Removed(s, fork));
  }

  /** The shape of a branch that gets past the checks on its first block and the shared prefix. */
  predicate Attempted(rules: Rules, s: Ledger, branch: seq<StoredBlock>) {
    && branch != []
    && 1 <= branch[0].block.coinbase.height <= |s.ids|
    && SharedCount(rules, s, branch) < |branch|
  }

  /**
   What `try_reorg` can do to a genuine chain. A refusal leaves every field as it was.
   The restoring `expect` fires exactly when the branch loses and the clock, read again
   for some discarded block, has gone back below what once let that block in.
   */
  lemma AllOrNothing(rules: Rules, clock: Clock, tick: nat, start: Ledger, s: Ledger, branch: seq<StoredBlock>)
    requires Lawful(rules) && Genuine(rules, start, s)
    ensures var out := TryReorg(rules, clock, tick, s, branch);
            out.result.Refused? ==> out.state == s
    ensures TryReorg(rules, clock, tick, s, branch).result.Panic? <==>
              Attempted(rules, s, branch) &&
              var rest := branch[SharedCount(rules, s, branch)..];
              var fork := rest[0].block.coinbase.height;
              var run := RunBranch(rules, clock, tick, RolledBack(rules, s, fork), rest);
              (run.failure.Some? || TotalWork(run.state) <= TotalWork(s)) &&
              !AllInTime(clock, run.tick, Removed(s, fork))
  {
    if Attempted(rules, s, branch) {
      AttemptAllOrNothing(rules, clock, tick, start, s, branch[SharedCount(rules, s, branch)..]);
    }
  }

  /**
   An instance of the panic: a branch of one block b that would replace the tip and is
   refused, while the clock, read again for the tip, has gone back to before it let the
   tip in.
   */
  lemma ClockGoneBackPanics(rules: Rules, clock: Clock, tick: nat, start: Ledger, s: Ledger, b: StoredBlock)
    requires Lawful(rules) && Genuine(rules, start, s) && |s.blocks| >= 2 && |s.ids| == |s.blocks|
    requires b.block.coinbase.height == |s.blocks| - 1 && rules.blockId(b.block) != s.ids[|s.ids| - 1]
    requires rules.add(RolledBack(rules, s, |s.blocks| - 1), InTime(clock(tick), b.block), b).Err?
    requires !InTime(clock(tick + 1), s.blocks[|s.blocks| - 1].block)
    ensures TryReorg(rules, clock, tick, s, [b]).result.Panic?
  {
    var fork := |s.blocks| - 1;
    assert SharedCount(rules, s, [b]) == 0 && [b][0..] == [b];
    var run := RunBranch(rules, clock, tick, RolledBack(rules, s, fork), [b]);
    assert run.failure.Some? && run.tick == tick + 1;
    assert Removed(s, fork) == [s.blocks[fork]];
    AllOrNothing(rules, clock, tick, start, s, [b]);
  }

  /**
   A successful switch: the new chain is genuine and strictly heavier, it keeps the old
   blocks below the fork (genesis among them) and continues with the branch.
   */
  lemma SwitchFacts(rules: Rules, clock: Clock, tick: nat, start: Ledger, s: Ledger, branch: seq<StoredBlock>)
    requires Lawful(rules) && Genuine(rules, start, s)
    requires TryReorg(rules, clock, tick, s, branch).result.Switched?
    ensures var out := TryReorg(rules, clock, tick, s, branch);
            var kept := |s.blocks| - |out.result.discarded|;
            Genuine(rules, start, out.state) && TotalWork(out.state) > TotalWork(s) &&
            1 <= kept && out.result.discarded == s.blocks[kept..] &&
            out.result.applied == |branch| - SharedCount(rules, s, branch) &&
            out.state.blocks == s.blocks[..kept] + branch[SharedCount(rules, s, branch)..]
  {
    var rest := branch[SharedCount(rules, s, branch)..];
    AttemptAllOrNothing(rules, clock, tick, start, s, rest);
    var fork := rest[0].block.coinbase.height;
    RollbackFacts(rules, start, s, fork);
    var base := RolledBack(rules, s, fork);
    GenuineFacts(rules, start, base);
    RunKeepsGenuine(rules, clock, tick, start, base, rest);
    RunAppends(rules, clock, tick, base, rest);
    assert rest[..|rest|] == rest;
    assert s.blocks[..|base.blocks|] == base.blocks;
  }

  // --- the decision --------------------------------------------------------

  /** Branches that are refused without touching the chain or the clock. */
  lemma RefusedOutright(rules: Rules, clock: Clock, tick: nat, s: Ledger, branch: seq<StoredBlock>)
    requires !Attempted(rules, s, branch)
    ensures TryReorg(rules, clock, tick, s, branch) ==
            Outcome(s, tick, Refused(
              if branch == [] then EmptyBranch
              else if branch[0].block.coinbase.height == 0 then CannotReplaceGenesis
              else if branch[0].block.coinbase.height >= |s.ids| + 1 then BadPrevId
              else NotHeavier))
    ensures branch != [] && 1 <= branch[0].block.coinbase.height <= |s.ids| ==>
              forall i :: 0 <= i < |branch| ==> IsShared(rules, s, branch[i])
  {
  }

  /** The states a run goes through: each is the one before with the next block added, up to the first refusal. */
  ghost predicate Walk(rules: Rules, clock: Clock, tick: nat, states: seq<Ledger>, blocks: seq<StoredBlock>) {
    && 1 <= |states| <= |blocks| + 1
    && (forall i :: 0 <= i < |states| - 1 ==>
          rules.add(states[i], InTime(clock(tick + i), blocks[i].block), blocks[i]) == Ok(states[i + 1]))
    && var k := |states| - 1;
       k < |blocks| ==> rules.add(states[k], InTime(clock(tick + k), blocks[k].block), blocks[k]).Err?
  }

  lemma {:induction false} RunIsWalk(rules: Rules, clock: Clock, tick: nat, s: Ledger, blocks: seq<StoredBlock>)
    returns (states: seq<Ledger>)
    ensures Walk(rules, clock, tick, states, blocks) && states[0] == s
    ensures var k := |states| - 1;
            RunBranch(rules, clock, tick, s, blocks) ==
            if k == |blocks| then Run(states[k], tick + k, None)
            else Run(states[k], tick + k + 1,
                     Some(rules.add(states[k], InTime(clock(tick + k), blocks[k].block), blocks[k]).error))
    decreases |blocks|
  {
    if blocks == [] || rules.add(s, InTime(clock(tick), blocks[0].block), blocks[0]).Err? {
      states := [s];
    } else {
      var next := rules.add(s, InTime(clock(tick), blocks[0].block), blocks[0]).value;
      var later := RunIsWalk(rules, clock, tick + 1, next, blocks[1..]);
      states := [s] + later;
      forall i | 0 <= i < |states| - 1
        ensures rules.add(states[i], InTime(clock(tick + i), blocks[i].block), blocks[i]) == Ok(states[i + 1])
      {
        if i > 0 {
          assert states[i] == later[i - 1] && states[i + 1] == later[i] && blocks[i] == blocks[1..][i - 1];
        }
      }
    }
  }

  /** The chain switches to the last state of a full walk that is heavier; otherwise it is what it was, or panics. */
  ghost predicate Decided(
    rules: Rules, clock: Clock, tick: nat, s: Ledger, rest: seq<StoredBlock>, states: seq<Ledger>,
    discarded: seq<StoredBlock>, out: Outcome)
    requires Walk(rules, clock, tick, states, rest)
  {
    var k := |states| - 1;
    if k == |rest| && TotalWork(states[k]) > TotalWork(s) then
      out == Outcome(states[k], tick + k, Switched(discarded, |rest|))
    else
      var readings := tick + Min(k + 1, |rest|);
      if !AllInTime(clock, readings, discarded) then out.result.Panic?
      else
        out == Outcome(s, readings + |discarded|, Refused(
          if k == |rest| then NotHeavier
          else rules.add(states[k], InTime(clock(tick + k), rest[k].block), rest[k]).error))
  }

  /** An attempt, taken apart into its run and its restoring run. */
  lemma {:induction false} AttemptUnfolds(
    rules: Rules, clock: Clock, tick: nat, start: Ledger, s: Ledger, rest: seq<StoredBlock>, base: Ledger, run: Run)
    requires Lawful(rules) && Genuine(rules, start, s) && rest != []
    requires base == RolledBack(rules, s, rest[0].block.coinbase.height)
    requires run == RunBranch(rules, clock, tick, base, rest)
    ensures var discarded := Removed(s, rest[0].block.coinbase.height);
            var restored := RunBranch(rules, clock, run.tick, base, discarded);
            Attempt(rules, clock, tick, s, rest) ==
            if run.failure.None? && TotalWork(run.state) > TotalWork(s) then
              Outcome(run.state, run.tick, Switched(discarded, |rest|))
            else
              Outcome(restored.state, restored.tick,
                      if restored.failure.Some? then Panic
                      else Refused(if run.failure.None? then NotHeavier else run.failure.value))
  {
    RollsBackToSameBase(rules, clock, tick, start, s, rest);
  }

  lemma {:induction false} AttemptDecides(
    rules: Rules, clock: Clock, tick: nat, start: Ledger, s: Ledger, rest: seq<StoredBlock>, states: seq<Ledger>,
    base: Ledger)
    requires Lawful(rules) && Genuine(rules, start, s) && rest != []
    requires Walk(rules, clock, tick, states, rest)
    requires base == RolledBack(rules, s, rest[0].block.coinbase.height)
    requires var k := |states| - 1;
             RunBranch(rules, clock, tick, base, rest) ==
             if k == |rest| then Run(states[k], tick + k, None)
             else Run(states[k], tick + k + 1,
                      Some(rules.add(states[k], InTime(clock(tick + k), rest[k].block), rest[k]).error))
    ensures Decided(rules, clock, tick, s, rest, states, Removed(s, rest[0].block.coinbase.height),
                    Attempt(rules, clock, tick, s, rest))
  {
    var fork, run := rest[0].block.coinbase.height, RunBranch(rules, clock, tick, base, rest);
    RollbackFacts(rules, start, s, fork);
    AttemptUnfolds(rules, clock, tick, start, s, rest, base, run);
    ReapplyIff(rules, clock, run.tick, start, s, base, Removed(s, fork));
  }

  /**
   The whole of `try_reorg` on a branch that is attempted: walk from the genuine chain of
   our blocks below the fork, and switch exactly if the walk gets through and ends heavier.
   */
  lemma {:induction false} TryReorgDecides(
    rules: Rules, clock: Clock, tick: nat, start: Ledger, s: Ledger, branch: seq<StoredBlock>)
    returns (states: seq<Ledger>, kept: nat)
    requires Lawful(rules) && Genuine(rules, start, s) && Attempted(rules, s, branch)
    ensures var rest := branch[SharedCount(rules, s, branch)..];
            && kept == Min(|s.blocks|, Max(rest[0].block.coinbase.height, 1))
            && Walk(rules, clock, tick, states, rest)
            && Genuine(rules, start, states[0]) && states[0].blocks == s.blocks[..kept]
            && Decided(rules, clock, tick, s, rest, states, s.blocks[kept..], TryReorg(rules, clock, tick, s, branch))
  {
    var rest := branch[SharedCount(rules, s, branch)..];
    var fork := rest[0].block.coinbase.height;
    RollbackFacts(rules, start, s, fork);
    kept := Min(|s.blocks|, Max(fork, 1));
    var base := RolledBack(rules, s, fork);
    assert s.blocks == base.blocks + Removed(s, fork);
    assert base.blocks == s.blocks[..kept] && Removed(s, fork) == s.blocks[kept..];
    states := RunIsWalk(rules, clock, tick, base, rest);
    AttemptDecides(rules, clock, tick, start, s, rest, states, base);
  }
}
