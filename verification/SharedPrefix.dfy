/**
 The optimisation inside `try_reorg`: blocks of the branch that the chain already has
 are skipped instead of being rolled back and applied again. Compared here with the
 reorg that does not skip.
 */
module SharedPrefix {
  import opened Types
  import opened Data
  import opened Ledgers
  import opened Replay
  import opened Reorg
  import opened Runs

  /** Roll back to the branch's first block and apply all of it. */
  function Naive(rules: Rules, clock: Clock, tick: nat, s: Ledger, branch: seq<StoredBlock>): Run
    requires branch != []
  {
    RunBranch(rules, clock, tick, RolledBack(rules, s, branch[0].block.coinbase.height), branch)
  }

  /** The naive reorg gets through the branch and ends, strictly heavier, in `final`. */
  predicate NaiveWins(rules: Rules, clock: Clock, tick: nat, s: Ledger, branch: seq<StoredBlock>, final: Ledger)
    requires branch != []
  {
    Naive(rules, clock, tick, s, branch) == Run(final, tick + |branch|, None) && TotalWork(final) > TotalWork(s)
  }

  predicate Contiguous(branch: seq<StoredBlock>) {
    forall i :: 0 <= i < |branch| ==>
      branch[i].block.coinbase.height == branch[0].block.coinbase.height + i
  }

  /** No reading of the clock from now on finds a block of the branch too far ahead. */
  ghost predicate InTimeFrom(clock: Clock, now: nat, branch: seq<StoredBlock>) {
    forall n: nat, i {:trigger InTime(clock(n), branch[i].block)} ::
      now <= n && 0 <= i < |branch| ==> InTime(clock(n), branch[i].block)
  }

  /** With a clock that never goes back, the reading at hand decides. */
  lemma SteadyClockStaysInTime(clock: Clock, now: nat, branch: seq<StoredBlock>)
    requires NeverGoesBack(clock)
    ensures InTimeFrom(clock, now, branch) <==> forall i :: 0 <= i < |branch| ==> InTime(clock(now), branch[i].block)
  {
    if forall i :: 0 <= i < |branch| ==> InTime(clock(now), branch[i].block) {
      forall n: nat, i | now <= n && 0 <= i < |branch|
        ensures InTime(clock(n), branch[i].block)
      {
        assert clock(now) <= clock(n);
      }
    }
  }

  predicate Confusable(rules: Rules, b: StoredBlock, c: StoredBlock) {
    rules.bodyFits(b) && rules.bodyFits(c) && rules.blockId(b.block) == rules.blockId(c.block)
  }

  /** Among these blocks equal ids mean equal blocks, transactions included. */
  predicate NoCollisions(rules: Rules, xs: seq<StoredBlock>, ys: seq<StoredBlock>) {
    forall i, j {:trigger Confusable(rules, xs[i], ys[j])} ::
      0 <= i < |xs| && 0 <= j < |ys| && Confusable(rules, xs[i], ys[j]) ==> xs[i] == ys[j]
  }

  /** The first n blocks of the branch are a stretch of the chain. */
  predicate Repeats(s: Ledger, branch: seq<StoredBlock>, n: nat)
    requires branch != [] && n <= |branch|
  {
    var h := branch[0].block.coinbase.height;
    h + n <= |s.blocks| && s.blocks[h..h + n] == branch[..n]
  }

  /** At the fork the chain holds another block, or none. */
  predicate DiffersAt(rules: Rules, s: Ledger, fork: nat, b: StoredBlock) {
    fork < |s.ids| ==> s.ids[fork] != rules.blockId(b.block)
  }

  predicate BodiesFit(rules: Rules, blocks: seq<StoredBlock>) {
    forall i :: 0 <= i < |blocks| ==> rules.bodyFits(blocks[i])
  }

  lemma {:induction false} RunSplits(
    rules: Rules, clock: Clock, tick: nat, s: Ledger, xs: seq<StoredBlock>, ys: seq<StoredBlock>)
    ensures var first := RunBranch(rules, clock, tick, s, xs);
            RunBranch(rules, clock, tick, s, xs + ys) ==
            if first.failure.Some? then first else RunBranch(rules, clock, first.tick, first.state, ys)
    decreases |xs|
  {
    if xs == [] {
      assert xs + ys == ys;
    } else {
      assert (xs + ys)[1..] == xs[1..] + ys;
      var added := rules.add(s, InTime(clock(tick), xs[0].block), xs[0]);
      if added.Ok? {
        RunSplits(rules, clock, tick + 1, added.value, xs[1..], ys);
      }
    }
  }

  /** When the clock refuses nothing, when a run happens does not matter. */
  lemma {:induction false} TickDoesNotMatter(
    rules: Rules, clock: Clock, now: nat, tick: nat, other: nat, s: Ledger, branch: seq<StoredBlock>)
    requires InTimeFrom(clock, now, branch) && now <= tick && now <= other
    ensures RunBranch(rules, clock, tick, s, branch).state == RunBranch(rules, clock, other, s, branch).state
    ensures RunBranch(rules, clock, tick, s, branch).failure == RunBranch(rules, clock, other, s, branch).failure
    decreases |branch|
  {
    if branch != [] {
      assert InTime(clock(tick), branch[0].block) && InTime(clock(other), branch[0].block);
      var added := rules.add(s, true, branch[0]);
      if added.Ok? {
        assert InTimeFrom(clock, now, branch[1..]);
        TickDoesNotMatter(rules, clock, now, tick + 1, other + 1, added.value, branch[1..]);
      }
    }
  }

  lemma {:induction false} StaysInTime(clock: Clock, tick: nat, branch: seq<StoredBlock>)
    requires InTimeFrom(clock, tick, branch)
    ensures AllInTime(clock, tick, branch)
    decreases |branch|
  {
    if branch != [] {
      assert InTime(clock(tick), branch[0].block);
      assert InTimeFrom(clock, tick + 1, branch[1..]);
      StaysInTime(clock, tick + 1, branch[1..]);
    }
  }

  /** A shared block with its own body is the chain's block at the height it states. */
  lemma SharedBlockIsOurs(rules: Rules, start: Ledger, s: Ledger, branch: seq<StoredBlock>, i: nat)
    requires Lawful(rules) && Genuine(rules, start, s)
    requires NoCollisions(rules, s.blocks, branch)
    requires i < SharedCount(rules, s, branch) && rules.bodyFits(branch[i])
    ensures branch[i].block.coinbase.height < |s.blocks|
    ensures s.blocks[branch[i].block.coinbase.height] == branch[i]
  {
    GenuineIsIdentified(rules, start, s);
    assert IsShared(rules, s, branch[i]);
    assert Confusable(rules, s.blocks[branch[i].block.coinbase.height], branch[i]);
  }

  /** A contiguous shared prefix is a stretch of the chain. */
  lemma {:induction false} SharedBlocksAreOurs(
    rules: Rules, start: Ledger, s: Ledger, branch: seq<StoredBlock>, n: nat)
    requires Lawful(rules) && Genuine(rules, start, s)
    requires NoCollisions(rules, s.blocks, branch)
    requires n <= SharedCount(rules, s, branch) && Contiguous(branch) && BodiesFit(rules, branch[..n])
    requires branch != [] && branch[0].block.coinbase.height <= |s.blocks|
    ensures Repeats(s, branch, n)
  {
    var h := branch[0].block.coinbase.height;
    forall i | 0 <= i < n
      ensures branch[i].block.coinbase.height == h + i < |s.blocks| && s.blocks[h + i] == branch[i]
    {
      assert branch[..n][i] == branch[i];
      SharedBlockIsOurs(rules, start, s, branch, i);
    }
    assert n > 0 ==> branch[n - 1].block.coinbase.height == h + (n - 1);
  }

  lemma RollbackKeeps(rules: Rules, start: Ledger, s: Ledger, h: nat)
    requires Lawful(rules) && Genuine(rules, start, s) && 1 <= h <= |s.blocks|
    ensures Genuine(rules, start, RolledBack(rules, s, h))
    ensures RolledBack(rules, s, h).blocks == s.blocks[..h]
  {
    RollbackFacts(rules, start, s, h);
    assert s.blocks[..h] == RolledBack(rules, s, h).blocks;
  }

  lemma {:induction false} Rebuild(
    rules: Rules, clock: Clock, tick: nat, start: Ledger, low: Ledger, high: Ledger, xs: seq<StoredBlock>,
    branch: seq<StoredBlock>)
    requires Lawful(rules) && Genuine(rules, start, low) && Genuine(rules, start, high)
    requires low.blocks + xs == high.blocks
    requires xs <= branch && InTimeFrom(clock, tick, branch)
    ensures RunBranch(rules, clock, tick, low, branch) ==
            RunBranch(rules, clock, tick + |xs|, high, branch[|xs|..])
  {
    assert InTimeFrom(clock, tick, xs);
    StaysInTime(clock, tick, xs);
    ReapplyIff(rules, clock, tick, start, high, low, xs);
    assert xs + branch[|xs|..] == branch;
    RunSplits(rules, clock, tick, low, xs, branch[|xs|..]);
  }

  lemma TakeMore(blocks: seq<StoredBlock>, h: nat, n: nat)
    requires h + n <= |blocks|
    ensures blocks[..h] + blocks[h..h + n] == blocks[..h + n]
  {
  }

  /**
   Over a prefix that is its own, the chain goes down to the branch's first block and
   comes back up to where skipping would have stopped rolling back.
   */
  lemma {:induction false} NaiveRebuildsShared(
    rules: Rules, clock: Clock, tick: nat, start: Ledger, s: Ledger, branch: seq<StoredBlock>, n: nat)
    requires Lawful(rules) && Genuine(rules, start, s)
    requires branch != [] && n <= |branch| && InTimeFrom(clock, tick, branch)
    requires 1 <= branch[0].block.coinbase.height
    requires Repeats(s, branch, n)
    ensures Naive(rules, clock, tick, s, branch) ==
            RunBranch(rules, clock, tick + n, RolledBack(rules, s, branch[0].block.coinbase.height + n), branch[n..])
  {
    var h := branch[0].block.coinbase.height;
    RollbackKeeps(rules, start, s, h);
    RollbackKeeps(rules, start, s, h + n);
    TakeMore(s.blocks, h, n);
    Rebuild(rules, clock, tick, start, RolledBack(rules, s, h), RolledBack(rules, s, h + n), branch[..n], branch);
  }

  /** A naive win tells that the branch is contiguous and that every block carries its own body. */
  lemma {:induction false} NaiveWinShapesBranch(
    rules: Rules, clock: Clock, tick: nat, start: Ledger, s: Ledger, branch: seq<StoredBlock>, final: Ledger)
    requires Lawful(rules) && Genuine(rules, start, s)
    requires branch != [] && 1 <= branch[0].block.coinbase.height <= |s.blocks|
    requires NaiveWins(rules, clock, tick, s, branch, final)
    ensures Contiguous(branch) && BodiesFit(rules, branch)
  {
    var h := branch[0].block.coinbase.height;
    RollbackFacts(rules, start, s, h);
    GenuineFacts(rules, start, s);
    var base := RolledBack(rules, s, h);
    assert Progress(rules, clock, tick, base, branch) == |branch|;
    forall i | 0 <= i < |branch|
      ensures branch[i].block.coinbase.height == h + i && rules.bodyFits(branch[i])
    {
      AppliedBlocksFit(rules, clock, tick, start, base, branch, i);
    }
  }

  lemma PrefixIsNoHeavier(rules: Rules, start: Ledger, s: Ledger, height: nat)
    requires Lawful(rules) && Genuine(rules, start, s)
    ensures TotalWork(RolledBack(rules, s, height)) <= TotalWork(s)
  {
    GenuineFacts(rules, start, s);
    PopTimesGenuine(rules, start, s, Excess(s, height));
  }

  /** An attempt switches exactly if its run gets through and ends heavier, and then ends where the run does. */
  lemma {:induction false} AttemptWinsIff(
    rules: Rules, clock: Clock, tick: nat, start: Ledger, s: Ledger, rest: seq<StoredBlock>)
    requires Lawful(rules) && Genuine(rules, start, s) && rest != []
    ensures var fork := rest[0].block.coinbase.height;
            var run, out := RunBranch(rules, clock, tick, RolledBack(rules, s, fork), rest),
                            Attempt(rules, clock, tick, s, rest);
            && (out.result.Switched? <==> run.failure.None? && TotalWork(run.state) > TotalWork(s))
            && (out.result.Switched? ==>
                  out.state == run.state && out.result == Switched(Removed(s, fork), |rest|))
  {
    AttemptAllOrNothing(rules, clock, tick, start, s, rest);
  }

  /** The run got through and ended, strictly heavier than s, in `final`. */
  predicate Wins(run: Run, s: Ledger, final: Ledger) {
    run.failure.None? && run.state == final && TotalWork(final) > TotalWork(s)
  }

  /** An attempt wins exactly if its run does, at whatever reading of the clock that starts. */
  lemma {:induction false} AttemptWins(
    rules: Rules, clock: Clock, tick: nat, other: nat, start: Ledger, s: Ledger, rest: seq<StoredBlock>, final: Ledger)
    requires Lawful(rules) && Genuine(rules, start, s) && rest != []
    requires InTimeFrom(clock, tick, rest) && tick <= other
    ensures var out, base := Attempt(rules, clock, tick, s, rest), RolledBack(rules, s, rest[0].block.coinbase.height);
            Wins(RunBranch(rules, clock, other, base, rest), s, final) <==>
            out.result.Switched? && out.state == final
  {
    TickDoesNotMatter(rules, clock, tick, tick, other, RolledBack(rules, s, rest[0].block.coinbase.height), rest);
    AttemptWinsIff(rules, clock, tick, start, s, rest);
  }

  /** The naive win, told by the run over what is not shared. */
  lemma {:induction false} NaiveWinsIff(
    rules: Rules, clock: Clock, tick: nat, s: Ledger, branch: seq<StoredBlock>, base: Ledger, shared: nat,
    final: Ledger)
    requires branch != [] && shared <= |branch|
    requires Naive(rules, clock, tick, s, branch) ==
             RunBranch(rules, clock, tick + shared, base, branch[shared..])
    ensures NaiveWins(rules, clock, tick, s, branch, final) <==>
            Wins(RunBranch(rules, clock, tick + shared, base, branch[shared..]), s, final)
  {
    var k := Progress(rules, clock, tick + shared, base, branch[shared..]);
  }

  /** Where `try_reorg` goes after the checks on the first block. */
  lemma {:induction false} ReorgUnfolds(rules: Rules, clock: Clock, tick: nat, s: Ledger, branch: seq<StoredBlock>)
    requires branch != [] && 1 <= branch[0].block.coinbase.height <= |s.ids|
    ensures var rest := branch[SharedCount(rules, s, branch)..];
            TryReorg(rules, clock, tick, s, branch) ==
            if rest == [] then Outcome(s, tick, Refused(NotHeavier)) else Attempt(rules, clock, tick, s, rest)
  {
  }

  lemma {:induction false} RestInTime(clock: Clock, tick: nat, branch: seq<StoredBlock>, n: nat)
    requires InTimeFrom(clock, tick, branch) && n <= |branch|
    ensures InTimeFrom(clock, tick, branch[n..])
  {
  }

  /** What a switch reports: the blocks from the fork on, and how many of the branch are new. */
  lemma {:induction false} SwitchReport(
    rules: Rules, clock: Clock, tick: nat, start: Ledger, s: Ledger, branch: seq<StoredBlock>)
    requires Lawful(rules) && Genuine(rules, start, s) && Contiguous(branch) && |s.blocks| == |s.ids|
    requires branch != [] && 1 <= branch[0].block.coinbase.height
    requires branch[0].block.coinbase.height + SharedCount(rules, s, branch) <= |s.ids|
    requires TryReorg(rules, clock, tick, s, branch).result.Switched?
    ensures var shared := SharedCount(rules, s, branch);
            var fork := branch[0].block.coinbase.height + shared;
            shared < |branch| &&
            TryReorg(rules, clock, tick, s, branch).result == Switched(s.blocks[fork..], |branch| - shared)
  {
    var rest := branch[SharedCount(rules, s, branch)..];
    ReorgUnfolds(rules, clock, tick, s, branch);
    assert rest != [] && rest[0] == branch[SharedCount(rules, s, branch)];
    AttemptWinsIff(rules, clock, tick, start, s, rest);
  }

  /** The two reorgs compared from the fork on, where they do the same work. */
  lemma {:induction false} SkippingFrom(
    rules: Rules, clock: Clock, tick: nat, start: Ledger, s: Ledger, branch: seq<StoredBlock>, final: Ledger,
    base: Ledger)
    requires Lawful(rules) && Genuine(rules, start, s) && InTimeFrom(clock, tick, branch)
    requires branch != [] && 1 <= branch[0].block.coinbase.height <= |s.ids|
    requires base == RolledBack(rules, s, branch[0].block.coinbase.height + SharedCount(rules, s, branch))
    requires Contiguous(branch)
    requires var shared := SharedCount(rules, s, branch);
             Naive(rules, clock, tick, s, branch) ==
             RunBranch(rules, clock, tick + shared, base, branch[shared..])
    ensures var out := TryReorg(rules, clock, tick, s, branch);
            NaiveWins(rules, clock, tick, s, branch, final) <==> out.result.Switched? && out.state == final
  {
    var shared := SharedCount(rules, s, branch);
    var rest := branch[shared..];
    NaiveWinsIff(rules, clock, tick, s, branch, base, shared, final);
    ReorgUnfolds(rules, clock, tick, s, branch);
    if rest == [] {
      PrefixIsNoHeavier(rules, start, s, branch[0].block.coinbase.height + shared);
    } else {
      assert rest[0] == branch[shared];
      RestInTime(clock, tick, branch, shared);
      AttemptWins(rules, clock, tick, tick + shared, start, s, rest, final);
    }
  }

  /** The skipped blocks are a stretch of the chain, and the naive reorg builds it up again. */
  lemma {:induction false} SharedStretch(
    rules: Rules, clock: Clock, tick: nat, start: Ledger, s: Ledger, branch: seq<StoredBlock>)
    requires Lawful(rules) && Genuine(rules, start, s)
    requires branch != [] && 1 <= branch[0].block.coinbase.height <= |s.blocks|
    requires NoCollisions(rules, s.blocks, branch)
    requires InTimeFrom(clock, tick, branch)
    requires Contiguous(branch) && BodiesFit(rules, branch[..SharedCount(rules, s, branch)])
    ensures var h := branch[0].block.coinbase.height;
            var shared := SharedCount(rules, s, branch);
            |s.ids| == |s.blocks| && Repeats(s, branch, shared) &&
            Naive(rules, clock, tick, s, branch) ==
            RunBranch(rules, clock, tick + shared, RolledBack(rules, s, h + shared), branch[shared..])
  {
    var shared := SharedCount(rules, s, branch);
    GenuineFacts(rules, start, s);
    SharedBlocksAreOurs(rules, start, s, branch, shared);
    NaiveRebuildsShared(rules, clock, tick, start, s, branch, shared);
  }

  lemma {:induction false} SkippingWellShaped(
    rules: Rules, clock: Clock, tick: nat, start: Ledger, s: Ledger, branch: seq<StoredBlock>, final: Ledger)
    requires Lawful(rules) && Genuine(rules, start, s)
    requires branch != [] && 1 <= branch[0].block.coinbase.height <= |s.blocks|
    requires NoCollisions(rules, s.blocks, branch)
    requires InTimeFrom(clock, tick, branch)
    requires Contiguous(branch) && BodiesFit(rules, branch[..SharedCount(rules, s, branch)])
    ensures var out := TryReorg(rules, clock, tick, s, branch);
            NaiveWins(rules, clock, tick, s, branch, final) <==> out.result.Switched? && out.state == final
  {
    var shared := SharedCount(rules, s, branch);
    SharedStretch(rules, clock, tick, start, s, branch);
    SkippingFrom(rules, clock, tick, start, s, branch, final,
                 RolledBack(rules, s, branch[0].block.coinbase.height + shared));
  }

  /**
   Skipping against not skipping. If rolling back to the branch's first block and
   applying all of it would win, `try_reorg` ends in the same state, and vice versa -
   except that `try_reorg` also accepts branches whose shared blocks are out of sequence
   or come with foreign transaction lists, which the naive reorg refuses.
   */
  lemma {:induction false} SkippingRefinesNaive(
    rules: Rules, clock: Clock, tick: nat, start: Ledger, s: Ledger, branch: seq<StoredBlock>, final: Ledger)
    requires Lawful(rules) && Genuine(rules, start, s)
    requires branch != [] && 1 <= branch[0].block.coinbase.height <= |s.blocks|
    requires NoCollisions(rules, s.blocks, branch)
    requires InTimeFrom(clock, tick, branch)
    ensures NaiveWins(rules, clock, tick, s, branch, final) <==>
            var out := TryReorg(rules, clock, tick, s, branch);
            out.result.Switched? && out.state == final &&
            Contiguous(branch) && BodiesFit(rules, branch[..SharedCount(rules, s, branch)])
  {
    var shared := SharedCount(rules, s, branch);
    if NaiveWins(rules, clock, tick, s, branch, final) {
      NaiveWinShapesBranch(rules, clock, tick, start, s, branch, final);
    }
    if Contiguous(branch) && BodiesFit(rules, branch[..shared]) {
      SkippingWellShaped(rules, clock, tick, start, s, branch, final);
    }
  }

  /** Blocks the chain has already taken in stay in time while the clock does not go back. */
  lemma {:induction false} SharedBlocksAreInTime(
    rules: Rules, clock: Clock, tick: nat, start: Ledger, s: Ledger, branch: seq<StoredBlock>)
    requires Lawful(rules) && Genuine(rules, start, s)
    requires branch != [] && 1 <= branch[0].block.coinbase.height <= |s.blocks|
    requires NoCollisions(rules, s.blocks, branch)
    requires NeverGoesBack(clock) && Settled(clock, tick, s)
    requires InTimeFrom(clock, tick, branch[SharedCount(rules, s, branch)..])
    requires Contiguous(branch) && BodiesFit(rules, branch[..SharedCount(rules, s, branch)])
    ensures InTimeFrom(clock, tick, branch)
  {
    var shared, h := SharedCount(rules, s, branch), branch[0].block.coinbase.height;
    SharedBlocksAreOurs(rules, start, s, branch, shared);
    forall i | 0 <= i < |branch|
      ensures InTime(clock(tick), branch[i].block)
    {
      if i < shared {
        assert s.blocks[h..h + shared][i] == branch[..shared][i];
        assert s.blocks[h + i] == branch[i];
      } else {
        assert branch[shared..][i - shared] == branch[i];
      }
    }
    SteadyClockStaysInTime(clock, tick, branch);
  }

  /**
   The same on a node in service: its clock never goes back and has let in every block it
   holds. There only the part of the branch that is new has to be in time.
   */
  lemma {:induction false} SteadySkippingRefinesNaive(
    rules: Rules, clock: Clock, tick: nat, start: Ledger, s: Ledger, branch: seq<StoredBlock>, final: Ledger)
    requires Lawful(rules) && Genuine(rules, start, s)
    requires branch != [] && 1 <= branch[0].block.coinbase.height <= |s.blocks|
    requires NoCollisions(rules, s.blocks, branch)
    requires NeverGoesBack(clock) && Settled(clock, tick, s)
    requires forall i :: SharedCount(rules, s, branch) <= i < |branch| ==> InTime(clock(tick), branch[i].block)
    ensures NaiveWins(rules, clock, tick, s, branch, final) <==>
            var out := TryReorg(rules, clock, tick, s, branch);
            out.result.Switched? && out.state == final &&
            Contiguous(branch) && BodiesFit(rules, branch[..SharedCount(rules, s, branch)])
  {
    var shared := SharedCount(rules, s, branch);
    if NaiveWins(rules, clock, tick, s, branch, final) {
      NaiveWinShapesBranch(rules, clock, tick, start, s, branch, final);
    }
    if Contiguous(branch) && BodiesFit(rules, branch[..shared]) {
      SteadyClockStaysInTime(clock, tick, branch[shared..]);
      SharedBlocksAreInTime(rules, clock, tick, start, s, branch);
      SkippingRefinesNaive(rules, clock, tick, start, s, branch, final);
    }
  }

  /** The scan stops where the chain holds another block, or none. */
  lemma FirstDifferingBlock(rules: Rules, s: Ledger, branch: seq<StoredBlock>)
    requires branch != [] && Contiguous(branch) && SharedCount(rules, s, branch) < |branch|
    ensures var shared := SharedCount(rules, s, branch);
            DiffersAt(rules, s, branch[0].block.coinbase.height + shared, branch[shared])
  {
    assert !IsShared(rules, s, branch[SharedCount(rules, s, branch)]);
  }

  /**
   When the naive reorg wins, what was skipped is exactly the stretch of the chain the
   branch repeats, and the first block discarded is the first that differs.
   */
  lemma {:induction false} OnlyDifferingBlocksAreDiscarded(
    rules: Rules, clock: Clock, tick: nat, start: Ledger, s: Ledger, branch: seq<StoredBlock>, final: Ledger)
    requires Lawful(rules) && Genuine(rules, start, s)
    requires branch != [] && 1 <= branch[0].block.coinbase.height <= |s.blocks|
    requires NoCollisions(rules, s.blocks, branch)
    requires InTimeFrom(clock, tick, branch)
    requires NaiveWins(rules, clock, tick, s, branch, final)
    ensures var shared := SharedCount(rules, s, branch);
            var fork := branch[0].block.coinbase.height + shared;
            Repeats(s, branch, shared) && shared < |branch| && DiffersAt(rules, s, fork, branch[shared]) &&
            TryReorg(rules, clock, tick, s, branch).result == Switched(s.blocks[fork..], |branch| - shared)
  {
    var shared := SharedCount(rules, s, branch);
    NaiveWinShapesBranch(rules, clock, tick, start, s, branch, final);
    SharedStretch(rules, clock, tick, start, s, branch);
    SkippingFrom(rules, clock, tick, start, s, branch, final,
                 RolledBack(rules, s, branch[0].block.coinbase.height + shared));
    SwitchReport(rules, clock, tick, start, s, branch);
    FirstDifferingBlock(rules, s, branch);
  }

  /** In a genuine chain every block above genesis states its own height. */
  lemma SharedHeight(rules: Rules, start: Ledger, s: Ledger, h: nat)
    requires Lawful(rules) && Genuine(rules, start, s) && 1 <= h < |s.blocks|
    ensures s.blocks[h].block.coinbase.height == h
  {
    GenuineFacts(rules, start, s);
    PopTimesGenuine(rules, start, s, |s.blocks| - h - 1);
    PopKeepsGenuine(rules, start, PopTimes(rules, s, |s.blocks| - h - 1));
  }

  /**
   The exception is real: put two copies of our own block 1 before any block that
   extends the tip. `try_reorg` skips both and switches; the naive reorg refuses the
   second copy.
   */
  lemma {:induction false} SkippingIsMorePermissive(
    rules: Rules, clock: Clock, tick: nat, start: Ledger, s: Ledger, b: StoredBlock)
    requires Lawful(rules) && Genuine(rules, start, s) && |s.blocks| >= 2
    requires rules.add(s, InTime(clock(tick), b.block), b).Ok?
    ensures var branch := [s.blocks[1], s.blocks[1], b];
            TryReorg(rules, clock, tick, s, branch).result == Switched([], 1) &&
            forall final :: !NaiveWins(rules, clock, tick, s, branch, final)
  {
    GenuineFacts(rules, start, s);
    GenuineIsIdentified(rules, start, s);
    var ours := s.blocks[1];
    var branch := [ours, ours, b];
    AddKeepsGenuine(rules, start, s, b);
    SharedHeight(rules, start, s, 1);
    assert branch[1..] == [ours, b] && branch[1..][1..] == [b];
    assert !IsShared(rules, s, b);
    assert SharedCount(rules, s, [b]) == 0;
    assert SharedCount(rules, s, [ours, b]) == 1;
    assert SharedCount(rules, s, branch) == 2;
    assert branch[2..] == [b];
    assert RunBranch(rules, clock, tick, s, [b]).failure.None?;
    AttemptAllOrNothing(rules, clock, tick, start, s, [b]);
    forall final
      ensures !NaiveWins(rules, clock, tick, s, branch, final)
    {
      if NaiveWins(rules, clock, tick, s, branch, final) {
        NaiveWinShapesBranch(rules, clock, tick, start, s, branch, final);
        assert false;
      }
    }
  }
}
