/**
 What the difficulty retarget comes to: work over time, at the pace of the trimmed window,
 held to a factor of two (noct/core/src/pow.rs).
 */
module Retarget {
  import opened Types
  import opened Difficulty
  import opened OrderStatistics

  /** Work grows by at least one and at most 2^64 - 1 a block. */
  predicate WorkGrows(work: seq<nat>) {
    forall i :: 0 < i < |work| ==> work[i - 1] < work[i] <= work[i - 1] + U64_MAX
  }

  lemma {:induction false} WorkIncreases(work: seq<nat>)
    requires WorkGrows(work)
    ensures Increasing(work)
    decreases |work|
  {
    if |work| >= 2 {
      var last := |work| - 1;
      WorkIncreases(work[..last]);
      forall i, j | 0 <= i < j < |work|
        ensures work[i] < work[j]
      {
        if j == last {
          assert i < last - 1 ==> work[..last][i] < work[..last][last - 1];
        } else {
          assert work[..last][i] < work[..last][j];
        }
      }
    }
  }

  lemma {:induction false} WorkBetween(work: seq<nat>, i: nat, j: nat)
    requires WorkGrows(work) && i <= j < |work|
    ensures work[i] <= work[j] <= work[i] + (j - i) * U64_MAX
    decreases j - i
  {
    if i < j {
      WorkBetween(work, i, j - 1);
    }
  }

  // --- the pace ------------------------------------------------------------

  /**
   `next` is 120 seconds' share of `total` work done in `span` seconds, rounded down, held
   between half and twice `last` and within 1 and 2^64 - 1; said without a division.
   */
  predicate Pace(next: nat, total: nat, span: nat, last: nat) {
    var low, high := Max(last / 2, 1), Min(2 * last, U64_MAX);
    && low <= next <= high
    && (next > low ==> next * span <= total * 120)
    && (next < high ==> total * 120 < (next + 1) * span)
  }

  lemma QuotientBounds(a: nat, b: nat)
    requires b >= 1
    ensures a / b * b <= a < (a / b + 1) * b
  {
    assert a == a / b * b + a % b;
  }

  lemma {:induction false} PaceOfQuotient(q: nat, total: nat, span: nat, last: U64)
    requires span >= 1 && last >= 1 && q * span <= total * 120 < (q + 1) * span
    ensures Pace(Clamp(q, Max(last / 2, 1), Min(2 * last, U64_MAX)), total, span, last)
  {
    var low, high := Max(last / 2, 1), Min(2 * last, U64_MAX);
    if q < low {
      ProductMonotone(q + 1, low + 1, span);
    } else if q > high {
      ProductMonotone(high, q, span);
    }
  }

  /** A shorter time for the same work never lowers the pace. */
  lemma {:induction false} FasterIsHarder(fast: nat, slow: nat, total: nat, short: nat, long: nat, last: nat)
    requires Pace(fast, total, short, last) && Pace(slow, total, long, last) && short <= long
    ensures slow <= fast
  {
    if fast < slow {
      ProductMonotone(fast + 1, slow, short);
      ProductMonotone(short, long, slow);
      assert false;
    }
  }

  lemma {:induction false} PaceIs(next: nat, total: nat, span: nat, last: U64)
    requires span >= 1 && last >= 1
    ensures Pace(next, total, span, last) <==>
              next == Clamp(total * 120 / span, Max(last / 2, 1), Min(2 * last, U64_MAX))
  {
    var held := Clamp(total * 120 / span, Max(last / 2, 1), Min(2 * last, U64_MAX));
    QuotientBounds(total * 120, span);
    PaceOfQuotient(total * 120 / span, total, span, last);
    if Pace(next, total, span, last) {
      FasterIsHarder(next, held, total, span, span, last);
      FasterIsHarder(held, next, total, span, span, last);
    }
  }

  /** The difficulty for this much work in this much time. */
  ghost function Paced(total: nat, span: nat, last: U64): (next: U64)
    requires span >= 1 && last >= 1
    ensures Pace(next, total, span, last)
  {
    PaceIs(Clamp(total * 120 / span, Max(last / 2, 1), Min(2 * last, U64_MAX)), total, span, last);
    var next: U64 :| Pace(next, total, span, last);
    next
  }

  // --- the window ----------------------------------------------------------

  /**
   The samples the retarget goes by: of all blocks but the newest 15, if more than 16, the
   newest 720; with `front` of the sorted times dropped in front and `back` behind, as many
   as leave 600 and as evenly as can be.
   */
  predicate Sampled(n: nat, start: nat, end: nat, front: nat, back: nat) {
    && end == (if n <= 16 then n else n - 15)
    && start <= end && end - start == Min(end, 720)
    && front + back == Max(end - start - 600, 0) && (front == back || front == back + 1)
  }

  /** The time between the first and the last kept time of the sorted window, at least a second. */
  function KeptSpan(window: seq<U64>, front: nat, back: nat): (span: nat)
    requires front + back < |window|
    ensures span >= 1
  {
    var sorted := Sorted(window);
    Max(sorted[|window| - 1 - back] as int - sorted[front], 1)
  }

  lemma {:induction false} WindowIsSampled(n: nat) returns (start: nat, end: nat, front: nat, back: nat)
    requires n >= 2
    ensures Sampled(n, start, end, front, back) && end - start >= 2 && front + back + 1 < end - start
    ensures start == WindowStart(n) && end == WindowEnd(n)
    ensures front == CutBegin(end - start) && end - start - back == CutEnd(end - start)
  {
    start, end := WindowStart(n), WindowEnd(n);
    front, back := CutBegin(end - start), end - start - CutEnd(end - start);
  }

  /** The work of the blocks after `first` up to `last`. */
  function WorkDone(work: seq<nat>, first: nat, last: nat): (done: nat)
    requires WorkGrows(work) && first <= last < |work|
  {
    WorkBetween(work, first, last);
    work[last] - work[first]
  }

  /** One block's work is a difficulty; that of a window, times the target, stays far within 128 bits. */
  lemma {:induction false} WindowWork(work: seq<nat>, first: nat, last: nat)
    requires WorkGrows(work) && first < last < |work| && last - first <= 720
    ensures 1 <= WorkDone(work, first, last) && WorkDone(work, first, last) * 120 <= U128_MAX
    ensures last - first == 1 ==> WorkDone(work, first, last) <= U64_MAX
  {
    WorkBetween(work, first + 1, last);
    ProductMonotone(last - first, 720, U64_MAX);
    WorkBetween(work, first, last);
  }

  lemma {:induction false} SpanIsKept(window: seq<U64>, front: nat, back: nat)
    requires 2 <= |window| <= WINDOW && front + back < |window|
    requires front == CutBegin(|window|) && |window| - back == CutEnd(|window|)
    ensures TimeSpan(window) == KeptSpan(window, front, back)
  {
  }

  lemma {:induction false} ClampedPace(total: nat, span: nat, last: U64)
    requires span >= 1 && last >= 1 && total * 120 <= U128_MAX
    ensures Clamp(Clamp(Min(total * TARGET_BLOCK_TIME, U128_MAX) / span, StepLow(last), StepHigh(last)),
                  MIN_DIFFICULTY, U64_MAX) == Paced(total, span, last)
  {
    PaceIs(Paced(total, span, last), total, span, last);
  }

  lemma {:induction false} NextUnfolded(
    timestamps: seq<U64>, work: seq<nat>, start: nat, end: nat, front: nat, back: nat, total: nat, last: U64)
    requires |timestamps| == |work| >= 2 && start == WindowStart(|work|) && end == WindowEnd(|work|)
    requires 2 <= end - start && front + back + 1 < end - start
    requires front == CutBegin(end - start) && end - start - back == CutEnd(end - start)
    requires work[end - 1 - back] == work[start + front] + total && total * 120 <= U128_MAX
    requires work[|work| - 1] == work[|work| - 2] + last && last >= 1
    ensures NextDifficulty(timestamps, work) == Paced(total, TimeSpan(timestamps[start..end]), last)
  {
    assert work[start..end][CutEnd(end - start) - 1] == work[end - 1 - back];
    assert work[start..end][CutBegin(end - start)] == work[start + front];
    ClampedPace(total, TimeSpan(timestamps[start..end]), last);
  }

  /** The difficulty of the newest block. */
  function LastStep(work: seq<nat>): (last: U64)
    requires WorkGrows(work) && |work| >= 2
    ensures last >= 1 && work[|work| - 1] == work[|work| - 2] + last
  {
    WindowWork(work, |work| - 2, |work| - 1);
    WorkDone(work, |work| - 2, |work| - 1)
  }

  lemma SampledOnce(n: nat, start: nat, end: nat, front: nat, back: nat, start': nat, end': nat, front': nat,
                    back': nat)
    requires Sampled(n, start, end, front, back) && Sampled(n, start', end', front', back')
    ensures start == start' && end == end' && front == front' && back == back'
  {
  }

  lemma {:induction false} SamplesAreTheWindow(n: nat, start: nat, end: nat, front: nat, back: nat)
    requires n >= 2 && Sampled(n, start, end, front, back)
    ensures end - start >= 2 && front + back + 1 < end - start
    ensures start == WindowStart(n) && end == WindowEnd(n)
    ensures front == CutBegin(end - start) && end - start - back == CutEnd(end - start)
  {
    var start', end', front', back' := WindowIsSampled(n);
    SampledOnce(n, start, end, front, back, start', end', front', back');
  }

  /** The next difficulty is the pace of the kept samples. */
  lemma {:induction false} NextIsPaced(
    timestamps: seq<U64>, work: seq<nat>, start: nat, end: nat, front: nat, back: nat)
    requires |timestamps| == |work| >= 2 && WorkGrows(work)
    requires Sampled(|work|, start, end, front, back)
    ensures front + back + 1 < end - start
    ensures NextDifficulty(timestamps, work) ==
            Paced(WorkDone(work, start + front, end - 1 - back), KeptSpan(timestamps[start..end], front, back),
                  LastStep(work))
  {
    SamplesAreTheWindow(|work|, start, end, front, back);
    WindowWork(work, start + front, end - 1 - back);
    SpanIsKept(timestamps[start..end], front, back);
    NextUnfolded(timestamps, work, start, end, front, back, WorkDone(work, start + front, end - 1 - back),
                 LastStep(work));
  }

  /** There are such samples, at least two of them kept. */
  lemma {:induction false} RetargetIs(
    timestamps: seq<U64>, work: seq<nat>) returns (start: nat, end: nat, front: nat, back: nat)
    requires |timestamps| == |work| >= 2 && WorkGrows(work)
    ensures Sampled(|work|, start, end, front, back) && front + back + 1 < end - start
    ensures NextDifficulty(timestamps, work) ==
            Paced(WorkDone(work, start + front, end - 1 - back), KeptSpan(timestamps[start..end], front, back),
                  LastStep(work))
  {
    start, end, front, back := WindowIsSampled(|work|);
    NextIsPaced(timestamps, work, start, end, front, back);
  }

  /** On the same work, times that span less never give a lower difficulty. */
  lemma {:induction false} ShorterSpanIsHarder(
    fast: seq<U64>, slow: seq<U64>, work: seq<nat>, start: nat, end: nat, front: nat, back: nat)
    requires |fast| == |slow| == |work| >= 2 && WorkGrows(work)
    requires Sampled(|work|, start, end, front, back) && front + back < end - start
    requires KeptSpan(fast[start..end], front, back) <= KeptSpan(slow[start..end], front, back)
    ensures NextDifficulty(slow, work) <= NextDifficulty(fast, work)
  {
    NextIsPaced(fast, work, start, end, front, back);
    NextIsPaced(slow, work, start, end, front, back);
    FasterIsHarder(NextDifficulty(fast, work), NextDifficulty(slow, work),
                   WorkDone(work, start + front, end - 1 - back), KeptSpan(fast[start..end], front, back),
                   KeptSpan(slow[start..end], front, back), LastStep(work));
  }

  lemma {:induction false} PacesBetween(total: nat, short: nat, span: nat, long: nat, last: U64)
    requires last >= 1 && 1 <= short <= span <= long
    ensures Paced(total, long, last) <= Paced(total, span, last) <= Paced(total, short, last)
  {
    FasterIsHarder(Paced(total, short, last), Paced(total, span, last), total, short, span, last);
    FasterIsHarder(Paced(total, span, last), Paced(total, long, last), total, span, long, last);
  }

  /**
   With a full window, whoever controls at most 60 of its timestamps can move the next
   difficulty only between its values for two spans of the honest window.
   */
  lemma {:induction false} ForgersMoveLittle(honest: seq<U64>, forged: seq<U64>, work: seq<nat>, k: nat)
    requires |honest| == |forged| == |work| >= 735 && WorkGrows(work) && k <= 60
    requires Differences(honest[|work| - 735..|work| - 15], forged[|work| - 735..|work| - 15]) <= k
    ensures var sorted := Sorted(honest[|work| - 735..|work| - 15]);
            var done, last := WorkDone(work, |work| - 675, |work| - 76), LastStep(work);
            Paced(done, Max(sorted[659 + k] as int - sorted[60 - k], 1), last) <= NextDifficulty(forged, work)
            <= Paced(done, Max(sorted[659 - k] as int - sorted[60 + k], 1), last)
  {
    var start, end := |work| - 735, |work| - 15;
    var sorted := Sorted(honest[start..end]);
    var done, last := WorkDone(work, |work| - 675, |work| - 76), LastStep(work);
    TrimBoundsOutliers(honest[start..end], forged[start..end], k);
    NextIsPaced(forged, work, start, end, 60, 60);
    SpanIsKept(forged[start..end], 60, 60);
    PacesBetween(done, Max(sorted[659 - k] as int - sorted[60 + k], 1), TimeSpan(forged[start..end]),
                 Max(sorted[659 + k] as int - sorted[60 - k], 1), last);
  }

  // --- an even pace --------------------------------------------------------

  /** Blocks of difficulty d, one every t seconds. */
  predicate Spaced(timestamps: seq<U64>, work: seq<nat>, d: U64, t: nat) {
    && |timestamps| == |work|
    && (forall i :: 0 < i < |work| ==> timestamps[i] == timestamps[i - 1] + t)
    && (forall i :: 0 < i < |work| ==> work[i] == work[i - 1] + d)
  }

  lemma OneMore(steps: nat, d: nat)
    ensures (steps + 1) * d == steps * d + d
  {
  }

  lemma {:induction false} EvenlySpaced(timestamps: seq<U64>, work: seq<nat>, d: U64, t: nat, i: nat, steps: nat)
    requires Spaced(timestamps, work, d, t) && i + steps < |work|
    ensures timestamps[i + steps] == timestamps[i] + steps * t
    ensures work[i + steps] == work[i] + steps * d
    decreases steps
  {
    if steps > 0 {
      EvenlySpaced(timestamps, work, d, t, i, steps - 1);
      OneMore(steps - 1, d);
      OneMore(steps - 1, t);
      assert work[i + steps] == work[i + steps - 1] + d;
    }
  }

  lemma {:induction false} SpacedIsOrdered(
    timestamps: seq<U64>, work: seq<nat>, d: U64, t: nat, start: nat, end: nat)
    requires Spaced(timestamps, work, d, t) && start <= end <= |work|
    ensures Ordered(timestamps[start..end])
  {
    var window := timestamps[start..end];
    forall i, j | 0 <= i < j < |window|
      ensures window[i] <= window[j]
    {
      EvenlySpaced(timestamps, work, d, t, start + i, j - i);
    }
  }

  lemma {:induction false} StepsCancel(x: nat, t: nat, y: nat, steps: nat)
    requires steps >= 1
    ensures x * (steps * t) <= steps * y <==> x * t <= y
  {
    assert x * (steps * t) == steps * (x * t);
    if x * t <= y {
      ScaledMonotone(steps, x * t, y);
    } else {
      ScaledMonotone(steps, y + 1, x * t);
    }
  }

  /** Any number of even steps shows the pace of one. */
  lemma {:induction false} EvenSteps(next: nat, d: nat, t: nat, steps: nat)
    requires steps >= 1 && Pace(next, steps * d, steps * t, d)
    ensures Pace(next, d, t, d)
  {
    assert steps * d * 120 == steps * (d * 120);
    StepsCancel(next, t, d * 120, steps);
    StepsCancel(next + 1, t, d * 120, steps);
  }

  lemma {:induction false} OrderedSpan(window: seq<U64>, front: nat, back: nat)
    requires Ordered(window) && front + back < |window|
    ensures KeptSpan(window, front, back) == Max(window[|window| - 1 - back] as int - window[front], 1)
  {
    SortedOfOrdered(window);
  }

  lemma {:induction false} SpacedSpan(
    timestamps: seq<U64>, work: seq<nat>, d: U64, t: nat, start: nat, end: nat, front: nat, back: nat, steps: nat)
    requires Spaced(timestamps, work, d, t) && t >= 1 && start < end <= |work| && steps >= 1
    requires start + front + steps == end - 1 - back
    ensures KeptSpan(timestamps[start..end], front, back) == steps * t
  {
    SpacedIsOrdered(timestamps, work, d, t, start, end);
    OrderedSpan(timestamps[start..end], front, back);
    EvenlySpaced(timestamps, work, d, t, start + front, steps);
    assert timestamps[start..end][front] == timestamps[start + front];
    assert timestamps[start..end][end - start - 1 - back] == timestamps[start + front + steps];
    ProductMonotone(1, steps, t);
  }

  lemma {:induction false} EvenPace(next: nat, done: nat, span: nat, d: U64, t: nat, steps: nat)
    requires steps >= 1 && d >= 1 && t >= 1 && done == steps * d && span == steps * t && Pace(next, done, span, d)
    ensures next == Clamp(d * 120 / t, Max(d / 2, 1), Min(2 * d, U64_MAX))
  {
    EvenSteps(next, d, t, steps);
    PaceIs(next, d, t, d);
  }

  lemma {:induction false} SpacedWork(
    timestamps: seq<U64>, work: seq<nat>, d: U64, t: nat, first: nat, steps: nat)
    requires Spaced(timestamps, work, d, t) && WorkGrows(work) && first + steps < |work| && |work| >= 2
    ensures WorkDone(work, first, first + steps) == steps * d && LastStep(work) == d
  {
    EvenlySpaced(timestamps, work, d, t, first, steps);
  }

  lemma {:induction false} EvenPaceSets(
    timestamps: seq<U64>, work: seq<nat>, d: U64, t: nat, start: nat, end: nat, front: nat, back: nat, next: U64)
    requires Spaced(timestamps, work, d, t) && |work| >= 2 && d >= 1 && t >= 1
    requires start < end <= |work| && front + back + 1 < end - start && WorkGrows(work)
    requires next == Paced(WorkDone(work, start + front, end - 1 - back), KeptSpan(timestamps[start..end], front, back),
                           LastStep(work))
    ensures next == Clamp(d * 120 / t, Max(d / 2, 1), Min(2 * d, U64_MAX))
  {
    var steps := end - start - 1 - back - front;
    var done, span := WorkDone(work, start + front, end - 1 - back), KeptSpan(timestamps[start..end], front, back);
    SpacedSpan(timestamps, work, d, t, start, end, front, back, steps);
    SpacedWork(timestamps, work, d, t, start + front, steps);
    EvenPace(next, done, span, d, t, steps);
  }

  /** Blocks one every t seconds set the difficulty to 120 / t of theirs, half and double at most. */
  lemma {:induction false} EvenPaceSetsDifficulty(timestamps: seq<U64>, work: seq<nat>, d: U64, t: nat)
    requires Spaced(timestamps, work, d, t) && |work| >= 2 && d >= 1 && t >= 1
    ensures NextDifficulty(timestamps, work) == Clamp(d * 120 / t, Max(d / 2, 1), Min(2 * d, U64_MAX))
  {
    var start, end, front, back := RetargetIs(timestamps, work);
    EvenPaceSets(timestamps, work, d, t, start, end, front, back, NextDifficulty(timestamps, work));
  }

  /** Blocks exactly on target leave the difficulty where it is. */
  lemma {:induction false} OnTargetIsStable(timestamps: seq<U64>, work: seq<nat>, d: U64)
    requires Spaced(timestamps, work, d, 120) && |work| >= 2 && d >= 1
    ensures NextDifficulty(timestamps, work) == d
  {
    EvenPaceSetsDifficulty(timestamps, work, d, 120);
  }
}
