/**
 Time and work on every reachable chain (noct/core/src/chain.rs): the premises of the
 retarget and of the median rule hold there, so their conclusions do.
 */
module ChainTime {
  import opened Types
  import opened Data
  import opened Oracles
  import opened Ledgers
  import opened Replay
  import opened Consensus
  import opened Difficulty
  import opened MedianTime
  import opened Retarget

  ghost predicate TimeAndWork(s: Ledger) {
    && |s.ids| == |s.timestamps| == |s.work| >= 1
    && Timed(s.timestamps)
    && WorkGrows(s.work) && s.work[0] == MIN_DIFFICULTY
  }

  lemma BlockTimes(o: Crypto, s: Ledger, b: StoredBlock)
    requires s.Shaped() && Added(o, s, true, b.block, b.txs).Ok?
    ensures b.block.header.timestamp > MedianTimePast(s.timestamps)
    ensures Judge(o, s, true, b.block, b.txs).Ok?
    ensures Judge(o, s, true, b.block, b.txs).value.difficulty == s.Required()
  {
    JudgedFacts(o, s, true, b.block, b.txs);
  }

  lemma TimedExtends(timestamps: seq<U64>, t: U64)
    requires Timed(timestamps) && |timestamps| >= 1 && t > MedianTimePast(timestamps)
    ensures Timed(timestamps + [t])
  {
    forall n | 1 <= n < |timestamps + [t]|
      ensures (timestamps + [t])[n] > MedianTimePast((timestamps + [t])[..n])
    {
      assert (timestamps + [t])[..n] == timestamps[..n];
      assert timestamps[..|timestamps|] == timestamps;
    }
  }

  lemma TimeAndWorkExtend(o: Crypto, s: Ledger, b: StoredBlock, v: Verdict)
    requires s.Shaped() && TimeAndWork(s)
    requires b.block.header.timestamp > MedianTimePast(s.timestamps) && v.difficulty >= 1
    ensures TimeAndWork(Extended(o, s, b.block, b.txs, v))
  {
    TimedExtends(s.timestamps, b.block.header.timestamp);
  }

  lemma {:induction false} TimeAndWorkByAdd(o: Crypto, t: Ledger, b: StoredBlock)
    requires t.Shaped() && TimeAndWork(t) && Added(o, t, true, b.block, b.txs).Ok?
    ensures TimeAndWork(Added(o, t, true, b.block, b.txs).value)
  {
    BlockTimes(o, t, b);
    TimeAndWorkExtend(o, t, b, Judge(o, t, true, b.block, b.txs).value);
  }

  lemma {:induction false} TimeAndWorkHold(o: Crypto, g: Block, maturity: U64, s: Ledger)
    requires IsGenesis(o, g)
    requires Genuine(ConsensusRules(o), GenesisLedger(o, g, maturity), s)
    ensures TimeAndWork(s)
  {
    var rules, start := ConsensusRules(o), GenesisLedger(o, g, maturity);
    ConsensusIsLawful(o);
    var inv := (t: Ledger) => TimeAndWork(t);
    forall t, b | rules.valid(t) && inv(t) && rules.add(t, true, b).Ok?
      ensures inv(rules.add(t, true, b).value)
    {
      TimeAndWorkByAdd(o, t, b);
    }
    ReplayInduction(rules, start, s.blocks[1..], s, inv);
  }

  lemma {:induction false} WorkIsBounded(work: seq<nat>, i: nat)
    requires WorkGrows(work) && i < |work| && work[0] == MIN_DIFFICULTY
    ensures work[i] <= (i + 1) * U64_MAX
  {
    if i > 0 {
      WorkIsBounded(work, i - 1);
    }
  }

  ghost predicate RetargetSafe(timestamps: seq<U64>, work: seq<nat>) {
    && |timestamps| == |work| >= 2
    && Increasing(work)
    && NothingWraps(work)
    && (forall i :: 0 <= i < |work| ==> work[i] <= U128_MAX)
    && var last := work[|work| - 1] - work[|work| - 2];
       var next := NextDifficulty(timestamps, work);
       1 <= last && (last / 2 <= next || next == U64_MAX) && next <= Max(2 * last, 1)
  }

  lemma SafeFromWork(timestamps: seq<U64>, work: seq<nat>)
    requires 2 <= |timestamps| == |work| <= TWO_64 && WorkGrows(work) && work[0] == MIN_DIFFICULTY
    ensures RetargetSafe(timestamps, work)
  {
    WorkIncreases(work);
    NoUnderflow(work);
    StepIsBounded(timestamps, work);
    forall i | 0 <= i < |work|
      ensures work[i] <= U128_MAX
    {
      WorkIsBounded(work, i);
      assert (i + 1) * U64_MAX <= TWO_64 * U64_MAX;
    }
  }

  ghost predicate MedianMoves(timestamps: seq<U64>, n: nat)
    requires 1 <= n < |timestamps|
  {
    && MedianTimePast(timestamps[..n]) <= MedianTimePast(timestamps[..n + 1])
    && (n + 6 <= |timestamps| ==> MedianTimePast(timestamps[..n]) < MedianTimePast(timestamps[..n + 6]))
  }

  lemma MedianMovesWhenTimed(timestamps: seq<U64>, n: nat)
    requires Timed(timestamps) && 1 <= n < |timestamps|
    ensures MedianMoves(timestamps, n)
  {
    MedianMonotone(timestamps, n, n + 1);
    if n + 6 <= |timestamps| {
      MedianRisesWithinSix(timestamps, n);
    }
  }

  /**
   On every reachable chain of two or more blocks the next difficulty stays within a factor
   of two of the last, no subtraction of the retarget wraps, and cumulative work fits 128 bits.
   */
  lemma RetargetIsSafe(o: Crypto, g: Block, maturity: U64, s: Ledger)
    requires IsGenesis(o, g)
    requires Genuine(ConsensusRules(o), GenesisLedger(o, g, maturity), s)
    requires 2 <= |s.ids| <= TWO_64
    ensures RetargetSafe(s.timestamps, s.work)
  {
    TimeAndWorkHold(o, g, maturity, s);
    SafeFromWork(s.timestamps, s.work);
  }

  /** And it is the pace of the kept samples of the chain's own window. */
  lemma {:induction false} RetargetIsPaced(
    o: Crypto, g: Block, maturity: U64, s: Ledger) returns (start: nat, end: nat, front: nat, back: nat)
    requires IsGenesis(o, g)
    requires Genuine(ConsensusRules(o), GenesisLedger(o, g, maturity), s)
    requires |s.ids| >= 2
    ensures |s.timestamps| == |s.work| == |s.ids| && WorkGrows(s.work)
    ensures Sampled(|s.ids|, start, end, front, back) && front + back + 1 < end - start
    ensures NextDifficulty(s.timestamps, s.work) ==
            Paced(WorkDone(s.work, start + front, end - 1 - back), KeptSpan(s.timestamps[start..end], front, back),
                  LastStep(s.work))
  {
    TimeAndWorkHold(o, g, maturity, s);
    start, end, front, back := RetargetIs(s.timestamps, s.work);
  }

  /** Median-time-past never falls as blocks arrive and rises at least once in every six. */
  lemma MedianAdvances(o: Crypto, g: Block, maturity: U64, s: Ledger, n: nat)
    requires IsGenesis(o, g)
    requires Genuine(ConsensusRules(o), GenesisLedger(o, g, maturity), s)
    requires 1 <= n < |s.timestamps|
    ensures MedianMoves(s.timestamps, n)
  {
    TimeAndWorkHold(o, g, maturity, s);
    MedianMovesWhenTimed(s.timestamps, n);
  }
}
