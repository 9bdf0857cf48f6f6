/**
 Two chains under the same rules, side by side: a relation that single blocks keep, and
 single undos as long as they stay near the greatest length reached, is kept by
 `rollback_to`, by `try_reorg` whatever comes of it, and by whole runs
 (noct/core/src/chain.rs).
 */
module SideBySide {
  import opened Types
  import opened Data
  import opened Ledgers
  import opened Replay
  import opened Reorg
  import opened Runs

  /** Two chains, and the greatest length the second has had. */
  type Relation = (Ledger, Ledger, nat) -> bool

  /** Below which height the first chain lacks history, given that greatest length. */
  type Floor = nat -> nat

  /** The last n blocks, or all of them. */
  function Newest(blocks: seq<StoredBlock>, n: nat): seq<StoredBlock> {
    blocks[Max(|blocks| - n, 0)..]
  }

  /** Related chains have the same ids, work and heights, and the same blocks from the floor on. */
  ghost predicate LikeLaw(alike: Relation, floor: Floor, s: Ledger, t: Ledger, peak: nat) {
    alike(s, t, peak) ==>
      && s.ids == t.ids && s.work == t.work
      && |t.blocks| == |t.ids| <= peak && 1 <= |t.ids|
      && |t.blocks| - floor(peak) <= |s.blocks| <= |t.blocks|
      && (forall n: nat :: n <= |t.blocks| - floor(peak) ==> Newest(s.blocks, n) == Newest(t.blocks, n))
  }

  /** The same block gets the same answer and keeps the relation. */
  ghost predicate AddLaw(
    rules: Rules, alike: Relation, s: Ledger, t: Ledger, peak: nat, inTime: bool, b: StoredBlock)
  {
    var left, right := rules.add(s, inTime, b), rules.add(t, inTime, b);
    alike(s, t, peak) ==>
      && left.Ok? == right.Ok?
      && (left.Err? ==> left.error == right.error)
      && (left.Ok? ==> |right.value.blocks| == |t.blocks| + 1
                       && alike(left.value, right.value, Max(peak, |right.value.blocks|)))
  }

  /** Undoing a block above the floor keeps the relation. */
  ghost predicate PopLaw(rules: Rules, alike: Relation, floor: Floor, s: Ledger, t: Ledger, peak: nat) {
    alike(s, t, peak) && |t.blocks| >= 2 && floor(peak) < |t.blocks| ==>
      alike(rules.pop(s), rules.pop(t), peak) && |rules.pop(t).blocks| == |t.blocks| - 1
  }

  ghost predicate Simulates(rules: Rules, alike: Relation, floor: Floor) {
    && (forall s, t, peak :: LikeLaw(alike, floor, s, t, peak))
    && (forall s, t, peak, inTime, b :: AddLaw(rules, alike, s, t, peak, inTime, b))
    && (forall s, t, peak :: PopLaw(rules, alike, floor, s, t, peak))
  }

  // --- rollbacks and reorganisations ---------------------------------------

  /** A stretch of blocks applied to both until one is refused. */
  lemma {:induction false} RunStaysAlike(
    rules: Rules, alike: Relation, floor: Floor, clock: Clock, tick: nat, s: Ledger, t: Ledger, peak: nat,
    branch: seq<StoredBlock>)
    requires Simulates(rules, alike, floor) && alike(s, t, peak)
    ensures var left := RunBranch(rules, clock, tick, s, branch);
            var right := RunBranch(rules, clock, tick, t, branch);
            && left.tick == right.tick && left.failure == right.failure
            && |t.blocks| <= |right.state.blocks|
            && alike(left.state, right.state, Max(peak, |right.state.blocks|))
    decreases |branch|
  {
    assert LikeLaw(alike, floor, s, t, peak);
    if branch != [] {
      var inTime := InTime(clock(tick), branch[0].block);
      assert AddLaw(rules, alike, s, t, peak, inTime, branch[0]);
      var right := rules.add(t, inTime, branch[0]);
      if right.Ok? {
        RunStaysAlike(rules, alike, floor, clock, tick + 1, rules.add(s, inTime, branch[0]).value, right.value,
          Max(peak, |right.value.blocks|), branch[1..]);
      }
    }
  }

  lemma {:induction false} PopTimesStayAlike(rules: Rules, alike: Relation, floor: Floor, s: Ledger, t: Ledger,
      peak: nat, n: nat)
    requires Simulates(rules, alike, floor) && alike(s, t, peak) && n < |t.blocks|
               && (n > 0 ==> floor(peak) <= |t.blocks| - n)
    ensures alike(PopTimes(rules, s, n), PopTimes(rules, t, n), peak)
            && |PopTimes(rules, t, n).blocks| == |t.blocks| - n
    decreases n
  {
    if n > 0 {
      assert LikeLaw(alike, floor, s, t, peak) && PopLaw(rules, alike, floor, s, t, peak);
      PopTimesStayAlike(rules, alike, floor, rules.pop(s), rules.pop(t), peak, n - 1);
    }
  }

  /** Cutting the chain back to this height removes nothing below the floor. */
  predicate Within(floor: Floor, t: Ledger, peak: nat, height: nat) {
    Excess(t, height) > 0 ==> floor(peak) <= Max(height, 1)
  }

  /** `rollback_to` above the floor: the same blocks go, bodies and all. */
  lemma RollbackStaysAlike(rules: Rules, alike: Relation, floor: Floor, s: Ledger, t: Ledger, peak: nat, height: nat)
    requires Simulates(rules, alike, floor) && alike(s, t, peak) && Within(floor, t, peak, height)
    ensures alike(RolledBack(rules, s, height), RolledBack(rules, t, height), peak)
    ensures Removed(s, height) == Removed(t, height)
  {
    assert LikeLaw(alike, floor, s, t, peak);
    var n := Excess(t, height);
    PopTimesStayAlike(rules, alike, floor, s, t, peak, n);
    assert Removed(s, height) == Newest(s.blocks, n) && Removed(t, height) == Newest(t.blocks, n);
    assert n == 0 ==> Newest(s.blocks, n) == [] && Newest(t.blocks, n) == [];
  }

  predicate Lost(run: Run, before: Ledger) {
    run.failure.Some? || TotalWork(run.state) <= TotalWork(before)
  }

  /** The branch as far as it goes, from the block it forks at. */
  function Tried(rules: Rules, clock: Clock, tick: nat, t: Ledger, rest: seq<StoredBlock>): Run
    requires rest != []
  {
    RunBranch(rules, clock, tick, RolledBack(rules, t, rest[0].block.coinbase.height), rest)
  }

  /**
   What a reorganisation takes off stays above the floor: the blocks it replaces, and if
   it loses, the blocks of the branch it takes off again, however long the branch has made
   the chain meanwhile.
   */
  predicate AttemptWithin(floor: Floor, rules: Rules, clock: Clock, tick: nat, t: Ledger, peak: nat,
      rest: seq<StoredBlock>)
    requires rest != []
  {
    var fork := rest[0].block.coinbase.height;
    var run := Tried(rules, clock, tick, t, rest);
    && Within(floor, t, peak, fork)
    && (Lost(run, t) ==> Within(floor, run.state, Max(peak, |run.state.blocks|), fork))
  }

  /** The longest the chain gets during a reorganisation. */
  function AttemptPeak(rules: Rules, clock: Clock, tick: nat, t: Ledger, peak: nat, rest: seq<StoredBlock>): nat
    requires rest != []
  {
    Max(Max(peak, |Tried(rules, clock, tick, t, rest).state.blocks|),
        |Attempt(rules, clock, tick, t, rest).state.blocks|)
  }

  lemma {:induction false} TriedStaysAlike(
    rules: Rules, alike: Relation, floor: Floor, clock: Clock, tick: nat, s: Ledger, t: Ledger, peak: nat,
    rest: seq<StoredBlock>)
    requires Simulates(rules, alike, floor) && alike(s, t, peak) && rest != []
               && Within(floor, t, peak, rest[0].block.coinbase.height)
    ensures var left, right := Tried(rules, clock, tick, s, rest), Tried(rules, clock, tick, t, rest);
            && left.tick == right.tick && left.failure == right.failure
            && alike(left.state, right.state, Max(peak, |right.state.blocks|))
  {
    var fork := rest[0].block.coinbase.height;
    RollbackStaysAlike(rules, alike, floor, s, t, peak, fork);
    RunStaysAlike(rules, alike, floor, clock, tick, RolledBack(rules, s, fork), RolledBack(rules, t, fork), peak, rest);
  }

  /** Taking a lost branch off again and putting the old blocks back. */
  function PutBack(rules: Rules, clock: Clock, run: Run, fork: nat, removed: seq<StoredBlock>): Run {
    RunBranch(rules, clock, run.tick, RolledBack(rules, run.state, fork), removed)
  }

  lemma {:induction false} PutBackStaysAlike(
    rules: Rules, alike: Relation, floor: Floor, clock: Clock, left: Run, right: Run, peak: nat, fork: nat,
    removed: seq<StoredBlock>)
    requires Simulates(rules, alike, floor) && left.tick == right.tick && alike(left.state, right.state, peak)
               && Within(floor, right.state, peak, fork)
    ensures var l, r := PutBack(rules, clock, left, fork, removed), PutBack(rules, clock, right, fork, removed);
            && l.tick == r.tick && l.failure == r.failure
            && alike(l.state, r.state, Max(peak, |r.state.blocks|))
  {
    RollbackStaysAlike(rules, alike, floor, left.state, right.state, peak, fork);
    RunStaysAlike(rules, alike, floor, clock, right.tick, RolledBack(rules, left.state, fork),
        RolledBack(rules, right.state, fork),
      peak, removed);
  }

  /** An attempt in terms of the branch tried and, if it lost, the blocks put back. */
  lemma {:induction false} AttemptUnfolds(
    rules: Rules, clock: Clock, tick: nat, s: Ledger, rest: seq<StoredBlock>)
    requires rest != []
    ensures var fork := rest[0].block.coinbase.height;
            var run := Tried(rules, clock, tick, s, rest);
            var back := PutBack(rules, clock, run, fork, Removed(s, fork));
            Attempt(rules, clock, tick, s, rest) ==
            if !Lost(run, s) then Outcome(run.state, run.tick, Switched(Removed(s, fork), |rest|))
            else Outcome(back.state, back.tick, if back.failure.Some? then Panic
                                                else Refused(if run.failure.Some? then run.failure.value
                                                    else NotHeavier))
  {
  }

  lemma {:induction false} AttemptStaysAlike(
    rules: Rules, alike: Relation, floor: Floor, clock: Clock, tick: nat, s: Ledger, t: Ledger, peak: nat,
    rest: seq<StoredBlock>)
    requires Simulates(rules, alike, floor) && alike(s, t, peak) && rest != []
    requires AttemptWithin(floor, rules, clock, tick, t, peak, rest)
    ensures var left, right := Attempt(rules, clock, tick, s, rest), Attempt(rules, clock, tick, t, rest);
            && left.result == right.result && left.tick == right.tick
            && alike(left.state, right.state, AttemptPeak(rules, clock, tick, t, peak, rest))
  {
    var fork := rest[0].block.coinbase.height;
    var left, right := Tried(rules, clock, tick, s, rest), Tried(rules, clock, tick, t, rest);
    AttemptUnfolds(rules, clock, tick, s, rest);
    AttemptUnfolds(rules, clock, tick, t, rest);
    assert LikeLaw(alike, floor, s, t, peak)
        && LikeLaw(alike, floor, left.state, right.state, Max(peak, |right.state.blocks|));
    RollbackStaysAlike(rules, alike, floor, s, t, peak, fork);
    TriedStaysAlike(rules, alike, floor, clock, tick, s, t, peak, rest);
    if Lost(right, t) {
      PutBackStaysAlike(rules, alike, floor, clock, left, right, Max(peak, |right.state.blocks|), fork,
          Removed(t, fork));
    }
  }

  lemma {:induction false} SharedSame(rules: Rules, s: Ledger, t: Ledger, branch: seq<StoredBlock>)
    requires s.ids == t.ids
    ensures SharedCount(rules, s, branch) == SharedCount(rules, t, branch)
  {
    if branch != [] {
      SharedSame(rules, s, t, branch[1..]);
    }
  }

  function Rest(rules: Rules, t: Ledger, branch: seq<StoredBlock>): seq<StoredBlock> {
    branch[SharedCount(rules, t, branch)..]
  }

  predicate SwitchWithin(floor: Floor, rules: Rules, clock: Clock, tick: nat, t: Ledger, peak: nat,
      branch: seq<StoredBlock>) {
    Attempted(rules, t, branch) ==> AttemptWithin(floor, rules, clock, tick, t, peak, Rest(rules, t, branch))
  }

  function SwitchPeak(rules: Rules, clock: Clock, tick: nat, t: Ledger, peak: nat, branch: seq<StoredBlock>): nat {
    if Attempted(rules, t, branch) then AttemptPeak(rules, clock, tick, t, peak, Rest(rules, t, branch)) else peak
  }

  /** `try_reorg` above the floor, whatever comes of it: same answer, same clock readings, chains still alike. */
  lemma {:induction false} ReorgStaysAlike(
    rules: Rules, alike: Relation, floor: Floor, clock: Clock, tick: nat, s: Ledger, t: Ledger, peak: nat,
    branch: seq<StoredBlock>)
    requires Simulates(rules, alike, floor) && alike(s, t, peak)
    requires SwitchWithin(floor, rules, clock, tick, t, peak, branch)
    ensures var left, right := TryReorg(rules, clock, tick, s, branch), TryReorg(rules, clock, tick, t, branch);
            && left.result == right.result && left.tick == right.tick
            && alike(left.state, right.state, SwitchPeak(rules, clock, tick, t, peak, branch))
  {
    assert LikeLaw(alike, floor, s, t, peak);
    SharedSame(rules, s, t, branch);
    if Attempted(rules, t, branch) {
      AttemptStaysAlike(rules, alike, floor, clock, tick, s, t, peak, Rest(rules, t, branch));
    }
  }

  // --- runs ----------------------------------------------------------------

  predicate OpWithin(floor: Floor, rules: Rules, clock: Clock, tick: nat, t: Ledger, peak: nat, op: Op) {
    match op
    case AddBlock(_) => true
    case RollbackTo(height) => Within(floor, t, peak, height)
    case SwitchTo(branch) => SwitchWithin(floor, rules, clock, tick, t, peak, branch)
  }

  /** The longest the chain has been once the operation is over. */
  function OpPeak(rules: Rules, clock: Clock, tick: nat, t: Ledger, peak: nat, op: Op): nat {
    match op
    case AddBlock(b) =>
      var added := rules.add(t, InTime(clock(tick), b.block), b);
      if added.Ok? then Max(peak, |added.value.blocks|) else peak
    case RollbackTo(_) => peak
    case SwitchTo(branch) => SwitchPeak(rules, clock, tick, t, peak, branch)
  }

  /** No operation of the run removes a block below the floor. */
  predicate Shallow(floor: Floor, rules: Rules, clock: Clock, tick: nat, t: Ledger, peak: nat, ops: seq<Op>)
    decreases |ops|
  {
    ops == [] ||
    (OpWithin(floor, rules, clock, tick, t, peak, ops[0]) &&
     match Step(rules, clock, tick, t, ops[0])
     case Panicked => true
     case Running(t', tick') =>
       Shallow(floor, rules, clock, tick', t', OpPeak(rules, clock, tick, t, peak, ops[0]), ops[1..]))
  }

  function RunPeak(rules: Rules, clock: Clock, tick: nat, t: Ledger, peak: nat, ops: seq<Op>): nat
    decreases |ops|
  {
    if ops == [] then peak
    else
      match Step(rules, clock, tick, t, ops[0])
      case Panicked => peak
      case Running(t', tick') =>
        RunPeak(rules, clock, tick', t', OpPeak(rules, clock, tick, t, peak, ops[0]), ops[1..])
  }

  /** The same outcome on both chains: both panicked, or both running at the same reading of the clock. */
  predicate StagesAlike(alike: Relation, left: Stage, right: Stage, peak: nat) {
    match (left, right)
    case (Panicked, Panicked) => true
    case (Running(s, m), Running(t, n)) => m == n && alike(s, t, peak)
    case _ => false
  }

  lemma {:induction false} StepStaysAlike(
    rules: Rules, alike: Relation, floor: Floor, clock: Clock, tick: nat, s: Ledger, t: Ledger, peak: nat, op: Op)
    requires Simulates(rules, alike, floor) && alike(s, t, peak) && OpWithin(floor, rules, clock, tick, t, peak, op)
    ensures StagesAlike(alike, Step(rules, clock, tick, s, op), Step(rules, clock, tick, t, op),
              OpPeak(rules, clock, tick, t, peak, op))
  {
    match op
    case AddBlock(b) => assert AddLaw(rules, alike, s, t, peak, InTime(clock(tick), b.block), b);
    case RollbackTo(height) => RollbackStaysAlike(rules, alike, floor, s, t, peak, height);
    case SwitchTo(branch) => ReorgStaysAlike(rules, alike, floor, clock, tick, s, t, peak, branch);
  }

  /** Chains that start alike stay alike, and answer alike, through every shallow run. */
  lemma {:induction false} RunsStayAlike(
    rules: Rules, alike: Relation, floor: Floor, clock: Clock, tick: nat, s: Ledger, t: Ledger, peak: nat, ops: seq<Op>)
    requires Simulates(rules, alike, floor) && alike(s, t, peak) && Shallow(floor, rules, clock, tick, t, peak, ops)
    ensures StagesAlike(alike, Exec(rules, clock, tick, s, ops), Exec(rules, clock, tick, t, ops),
              RunPeak(rules, clock, tick, t, peak, ops))
    decreases |ops|
  {
    if ops != [] {
      StepStaysAlike(rules, alike, floor, clock, tick, s, t, peak, ops[0]);
      var left, right := Step(rules, clock, tick, s, ops[0]), Step(rules, clock, tick, t, ops[0]);
      if right.Running? {
        RunsStayAlike(rules, alike, floor, clock, right.tick, left.state, right.state,
          OpPeak(rules, clock, tick, t, peak, ops[0]), ops[1..]);
      }
    }
  }
}
