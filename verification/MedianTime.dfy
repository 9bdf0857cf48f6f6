/** The median-time-past rule (noct/core/src/chain.rs). */
module MedianTime {
  import opened Types
  import opened OrderStatistics

  const MTP_WINDOW: nat := 11

  function WindowOf(timestamps: seq<U64>): (window: seq<U64>)
    ensures |window| == Min(|timestamps|, MTP_WINDOW)
  {
    timestamps[Max(|timestamps| - MTP_WINDOW, 0)..]
  }

  function MedianTimePast(timestamps: seq<U64>): U64 {
    if timestamps == [] then 0
    else
      var window := WindowOf(timestamps);
      Sorted(window)[|window| / 2]
  }

  /** Every block after genesis is later than the median of the blocks before it. */
  predicate Timed(timestamps: seq<U64>) {
    forall n :: 1 <= n < |timestamps| ==> MedianTimePast(timestamps[..n]) < timestamps[n]
  }

  lemma MedianRank(timestamps: seq<U64>, x: int)
    requires timestamps != []
    ensures var window := WindowOf(timestamps);
            MedianTimePast(timestamps) <= x <==> |window| / 2 < CountLe(window, x)
  {
    var window := WindowOf(timestamps);
    Rank(window, |window| / 2, x);
  }

  /** The median is the least value that more than half of the newest eleven timestamps, or of all, are at most. */
  lemma {:induction false} MedianIs(timestamps: seq<U64>, x: int)
    requires timestamps != []
    ensures var window := timestamps[Max(|timestamps| - 11, 0)..];
            MedianTimePast(timestamps) <= x <==> 2 * CountLe(window, x) > |window|
  {
    MedianRank(timestamps, x);
  }

  /** Accepting a block never moves the median backwards, in a growing or a full window. */
  lemma MedianNeverFalls(timestamps: seq<U64>, n: nat)
    requires 1 <= n < |timestamps|
    requires MedianTimePast(timestamps[..n]) < timestamps[n]
    ensures MedianTimePast(timestamps[..n]) <= MedianTimePast(timestamps[..n + 1])
  {
    var before, after := timestamps[..n], timestamps[..n + 1];
    var x := MedianTimePast(before) as int - 1;
    var earlier, later := WindowOf(before), WindowOf(after);
    var kept := timestamps[n + 1 - |later|..n];
    assert later == kept + [timestamps[n]];
    CountLeConcat(kept, [timestamps[n]], x);
    CountLeConcat(earlier[..|earlier| - |kept|], kept, x);
    assert earlier == earlier[..|earlier| - |kept|] + kept;
    MedianRank(before, x);
    MedianRank(after, x);
  }

  lemma {:induction false} MedianMonotone(timestamps: seq<U64>, m: nat, n: nat)
    requires Timed(timestamps) && 1 <= m <= n <= |timestamps|
    ensures MedianTimePast(timestamps[..m]) <= MedianTimePast(timestamps[..n])
    decreases n
  {
    if m < n {
      MedianMonotone(timestamps, m, n - 1);
      MedianNeverFalls(timestamps, n - 1);
    }
  }

  /** Six accepted blocks always move the median strictly forward. */
  lemma MedianRisesWithinSix(timestamps: seq<U64>, n: nat)
    requires Timed(timestamps) && 1 <= n && n + 6 <= |timestamps|
    ensures MedianTimePast(timestamps[..n]) < MedianTimePast(timestamps[..n + 6])
  {
    var median := MedianTimePast(timestamps[..n]);
    var after := timestamps[..n + 6];
    var window := WindowOf(after);
    var kept, newest := window[..|window| - 6], timestamps[n..n + 6];
    assert window == kept + newest;
    forall i | 0 <= i < 6
      ensures newest[i] > median
    {
      MedianMonotone(timestamps, n, n + i);
    }
    CountLeNone(newest, median);
    CountLeConcat(kept, newest, median);
    MedianRank(after, median);
  }
}
