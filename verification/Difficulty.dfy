/** Proof-of-work acceptance and the difficulty retarget (noct/core/src/pow.rs). */
module Difficulty {
  import opened Types
  import opened LittleEndian
  import opened OrderStatistics

  const TARGET_BLOCK_TIME: nat := 120
  const WINDOW: nat := 720
  const MIN_DIFFICULTY: nat := 1
  const MAX_STEP: nat := 2
  const LAG: nat := 15
  const CUT: nat := 60
  const KEEP: nat := WINDOW - 2 * CUT
  const EPOCH_BLOCKS: nat := 2048
  const EPOCH_LAG: nat := 64

  /** The height whose id keys the proof of work at `height`: a multiple of the epoch, lagged. */
  function SeedHeight(height: nat): nat {
    if height <= EPOCH_BLOCKS + EPOCH_LAG then 0
    else
      var x := height - EPOCH_LAG - 1;
      x - x % EPOCH_BLOCKS
  }

  predicate MeetsDifficulty(hash: HashBytes, difficulty: U64) {
    FromLe(hash) * difficulty < TWO_256
  }

  lemma CarryStep(low: int, carry: int, power: int, word: int, d: int, v: int)
    requires v * d == low + carry * power
    ensures var product := word * d + carry;
            (v + power * word) * d ==
            (low + product % TWO_64 * power) + product / TWO_64 * (TWO_64 * power)
  {
    var product := word * d + carry;
    calc {
      (v + power * word) * d;
      v * d + (power * word) * d;
      low + carry * power + power * (word * d);
      low + product * power;
      { assert product == product % TWO_64 + product / TWO_64 * TWO_64; }
      low + (product % TWO_64 + product / TWO_64 * TWO_64) * power;
      low + product % TWO_64 * power + product / TWO_64 * TWO_64 * power;
      (low + product % TWO_64 * power) + product / TWO_64 * (TWO_64 * power);
    }
  }

  lemma ProductMonotone(a: int, b: int, c: int)
    requires a <= b && 0 <= c
    ensures a * c <= b * c
  {
  }

  lemma LowStaysBelow(low: int, power: int, digit: int)
    requires 0 <= low < power && 0 <= digit < TWO_64
    ensures 0 <= low + digit * power < TWO_64 * power
  {
    ProductMonotone(digit, TWO_64 - 1, power);
  }

  lemma ProductFits(word: U64, d: U64, carry: U64)
    ensures 0 <= word * d + carry < TWO_128
    ensures 0 <= (word * d + carry) / TWO_64 < TWO_64
  {
    ProductMonotone(word, U64_MAX, d);
    ProductMonotone(0, word, d);
  }

  lemma NextWord(hash: HashBytes, i: nat)
    requires i < 4
    ensures FromLe(hash[i * 8..i * 8 + 8]) < TWO_64
    ensures FromLe(hash[..(i + 1) * 8]) == FromLe(hash[..i * 8]) + Power256(i * 8) * FromLe(hash[i * 8..i * 8 + 8])
    ensures Power256((i + 1) * 8) == TWO_64 * Power256(i * 8)
  {
    Widths();
    FromLeConcat(hash[..i * 8], hash[i * 8..i * 8 + 8]);
    assert hash[..(i + 1) * 8] == hash[..i * 8] + hash[i * 8..i * 8 + 8];
    PowerAdd(8, i * 8);
  }

  lemma NoCarryIffBelow(product: int, low: int, carry: nat, power: int)
    requires product == low + carry * power && 0 <= low < power
    ensures carry == 0 <==> product < power
  {
    if carry > 0 {
      assert carry * power >= power;
    }
  }

  /** What the loop knows after `i` words: the low part so far, and a carry of one word. */
  ghost predicate Multiplied(hash: HashBytes, d: U64, i: nat, low: int, carry: int) {
    && i <= 4 && 0 <= carry < TWO_64 && 0 <= low < Power256(i * 8)
    && FromLe(hash[..i * 8]) * d == low + carry * Power256(i * 8)
  }

  /** The same step on numbers alone, for any power. */
  lemma ScalarStep(v: nat, word: U64, d: U64, low: int, carry: U64, power: nat, product: int)
    requires v * d == low + carry * power && 0 <= low < power && product == word * d + carry
    ensures 0 <= product < TWO_128 && 0 <= product / TWO_64 < TWO_64
    ensures 0 <= low + product % TWO_64 * power < TWO_64 * power
    ensures (v + power * word) * d == (low + product % TWO_64 * power) + product / TWO_64 * (TWO_64 * power)
  {
    ProductFits(word, d, carry);
    CarryStep(low, carry, power, word, d, v);
    LowStaysBelow(low, power, product % TWO_64);
  }

  lemma {:induction false} MultipliedAt(
    hash: HashBytes, d: U64, i: nat, v: nat, power: nat, low: int, carry: int)
    requires i <= 4 && v == FromLe(hash[..i * 8]) && power == Power256(i * 8)
    requires 0 <= carry < TWO_64 && 0 <= low < power && v * d == low + carry * power
    ensures Multiplied(hash, d, i, low, carry)
  {
  }

  /** What the hash gives the step: its value one word further, and the power that goes with it. */
  lemma {:induction false} NextMultiplied(
    hash: HashBytes, d: U64, i: nat, word: U64, digit: int, low: int, carry: int)
    requires i < 4 && word == FromLe(hash[i * 8..i * 8 + 8]) && 0 <= carry < TWO_64
    requires 0 <= low + digit < TWO_64 * Power256(i * 8)
    requires (FromLe(hash[..i * 8]) + Power256(i * 8) * word) * d ==
             (low + digit) + carry * (TWO_64 * Power256(i * 8))
    ensures Multiplied(hash, d, i + 1, low + digit, carry)
  {
    NextWord(hash, i);
    MultipliedAt(hash, d, i + 1, FromLe(hash[..i * 8]) + Power256(i * 8) * word, TWO_64 * Power256(i * 8),
                 low + digit, carry);
  }

  /** One more word: the 128-bit product fits, and splits into a digit and the next carry. */
  lemma {:induction false} NextProduct(hash: HashBytes, d: U64, i: nat, word: U64, low: int, carry: U64, product: int)
    requires i < 4 && Multiplied(hash, d, i, low, carry)
    requires word == FromLe(hash[i * 8..i * 8 + 8]) && product == word * d + carry
    ensures 0 <= product < TWO_128
    ensures Multiplied(hash, d, i + 1, low + product % TWO_64 * Power256(i * 8), product / TWO_64)
  {
    ScalarStep(FromLe(hash[..i * 8]), word, d, low, carry, Power256(i * 8), product);
    NextMultiplied(hash, d, i, word, product % TWO_64 * Power256(i * 8), low, product / TWO_64);
  }

  /**
   The word-by-word multiplication accepts a hash exactly when the full 512-bit
   product stays below 2^256; no intermediate product leaves 128 bits.
   */
  method CheckHash(hash: HashBytes, difficulty: U64) returns (ok: bool)
    ensures ok <==> FromLe(hash) * difficulty < TWO_256
  {
    Widths();
    assert hash[..32] == hash;
    if difficulty <= 1 {
      return true;
    }
    var carry: U128 := 0;
    ghost var low := 0;
    var i := 0;
    while i < 4
      invariant 0 <= i <= 4
      invariant Multiplied(hash, difficulty, i, low, carry)
    {
      NextWord(hash, i);
      var word: U64 := FromLe(hash[i * 8..i * 8 + 8]);
      NextProduct(hash, difficulty, i, word, low, carry, word * difficulty + carry);
      var product: U128 := word * difficulty + carry;
      low := low + product % TWO_64 * Power256(i * 8);
      carry := product / TWO_64;
      i := i + 1;
    }
    NoCarryIffBelow(FromLe(hash) * difficulty, low, carry, TWO_256);
    return carry == 0;
  }

  // --- retarget ------------------------------------------------------------

  function WindowEnd(n: nat): (end: nat)
    ensures end <= n
  {
    if n > LAG + 1 then n - LAG else n
  }

  function WindowStart(n: nat): (start: nat)
    ensures start <= WindowEnd(n) <= start + WINDOW
  {
    Max(WindowEnd(n) - WINDOW, 0)
  }

  /** How many sorted samples are dropped at the front: none unless the window exceeds `KEEP`. */
  function CutBegin(length: nat): nat {
    if length <= KEEP then 0 else (length - KEEP + 1) / 2
  }

  function CutEnd(length: nat): nat {
    if length <= KEEP then length else CutBegin(length) + KEEP
  }

  /** The time between the first and last samples that survive the trim. */
  function SortedSpan(sorted: seq<U64>): (span: U64)
    requires 2 <= |sorted| <= WINDOW
    ensures span >= 1
  {
    Max(sorted[CutEnd(|sorted|) - 1] as int - sorted[CutBegin(|sorted|)], 1)
  }

  function TimeSpan(window: seq<U64>): (span: U64)
    requires 2 <= |window| <= WINDOW
    ensures span >= 1
  {
    SortedSpan(Sorted(window))
  }

  /** Wrapping `u128` subtraction; `NoUnderflow` shows it never wraps on a chain. */
  function WrappingSub(a: nat, b: nat): int {
    if a >= b then a - b else a - b + TWO_128
  }

  function Clamp(x: int, lo: int, hi: int): int {
    if x < lo then lo else if x > hi then hi else x
  }

  function StepLow(last: int): int {
    Max(last / MAX_STEP, MIN_DIFFICULTY)
  }

  function StepHigh(last: int): int {
    Max(Min(last * MAX_STEP, U128_MAX), MIN_DIFFICULTY)
  }

  function NextDifficulty(timestamps: seq<U64>, work: seq<nat>): (d: U64)
    requires |timestamps| == |work|
    ensures d >= MIN_DIFFICULTY
  {
    var n := |timestamps|;
    if n < 2 then MIN_DIFFICULTY
    else
      var start, end := WindowStart(n), WindowEnd(n);
      var length := end - start;
      if length < 2 then MIN_DIFFICULTY
      else
        var span := TimeSpan(timestamps[start..end]);
        var window := work[start..end];
        var totalWork := WrappingSub(window[CutEnd(length) - 1], window[CutBegin(length)]);
        var raw := Min(totalWork * TARGET_BLOCK_TIME, U128_MAX) / span;
        var last := WrappingSub(work[n - 1], work[n - 2]);
        Clamp(Clamp(raw, StepLow(last), StepHigh(last)), MIN_DIFFICULTY, U64_MAX)
  }

  predicate Increasing(work: seq<nat>) {
    forall i, j :: 0 <= i < j < |work| ==> work[i] < work[j]
  }

  /**
   On any strictly increasing work series the next difficulty is within a factor of
   two of the last one, except where the cap to 64 bits or the floor of 1 takes over.
   */
  lemma StepIsBounded(timestamps: seq<U64>, work: seq<nat>)
    requires |timestamps| == |work| >= 2
    requires Increasing(work)
    ensures var last := work[|work| - 1] - work[|work| - 2];
            var next := NextDifficulty(timestamps, work);
            last >= 1 &&
            (last / 2 <= next || next == U64_MAX) &&
            next <= Max(2 * last, 1)
  {
  }

  /** Neither subtraction of the retarget wraps, and both window indexes are in range. */
  predicate NothingWraps(work: seq<nat>)
    requires |work| >= 2
  {
    var start, end := WindowStart(|work|), WindowEnd(|work|);
    var length := end - start;
    2 <= length &&
    CutBegin(length) < CutEnd(length) <= length &&
    work[start + CutBegin(length)] <= work[start + CutEnd(length) - 1] &&
    work[|work| - 2] < work[|work| - 1]
  }

  lemma NoUnderflow(work: seq<nat>)
    requires |work| >= 2 && Increasing(work)
    ensures NothingWraps(work)
  {
    var start, end := WindowStart(|work|), WindowEnd(|work|);
    var length := end - start;
    assert 2 <= length;
    assert CutBegin(length) <= CutEnd(length) - 1;
    if CutBegin(length) < CutEnd(length) - 1 {
      assert work[start + CutBegin(length)] < work[start + CutEnd(length) - 1];
    }
  }

  /** The newest `LAG` timestamps never matter once more than `LAG + 1` blocks exist. */
  lemma LagIgnoresTip(timestamps: seq<U64>, others: seq<U64>, work: seq<nat>)
    requires |timestamps| == |others| == |work| > LAG + 1
    requires timestamps[..|work| - LAG] == others[..|work| - LAG]
    ensures NextDifficulty(timestamps, work) == NextDifficulty(others, work)
  {
    var n := |work|;
    var start, end := WindowStart(n), WindowEnd(n);
    assert timestamps[start..end] == timestamps[..end][start..];
    assert others[start..end] == others[..end][start..];
  }

  lemma FullWindowSpan(sorted: seq<U64>)
    requires |sorted| == WINDOW
    ensures SortedSpan(sorted) == Max(sorted[659] as int - sorted[60], 1)
  {
    assert CutBegin(WINDOW) == 60 && CutEnd(WINDOW) == 660;
  }

  /**
   With a full window, whoever controls at most `CUT` of its timestamps can move the
   measured time span only between order statistics of the honest window.
   */
  lemma {:induction false} TrimBoundsOutliers(honest: seq<U64>, forged: seq<U64>, k: nat)
    requires |honest| == |forged| == WINDOW
    requires k <= CUT && Differences(honest, forged) <= k
    ensures var sorted := Sorted(honest);
            Max(sorted[659 - k] as int - sorted[60 + k], 1) <= TimeSpan(forged)
            <= Max(sorted[659 + k] as int - sorted[60 - k], 1)
  {
    FullWindowSpan(Sorted(forged));
    RanksMoveByDifferences(honest, forged, 60, k);
    RanksMoveByDifferences(honest, forged, 659, k);
  }

  lemma ScaledMonotone(x: int, low: int, high: int)
    requires 0 <= x && low <= high
    ensures x * low <= x * high
  {
  }

  /** A hash that meets a difficulty meets every lower one. */
  lemma HarderIsStricter(hash: HashBytes, low: U64, high: U64)
    requires low <= high && MeetsDifficulty(hash, high)
    ensures MeetsDifficulty(hash, low)
  {
    ScaledMonotone(FromLe(hash), low, high);
  }

  lemma SmallMultiple(m: int, k: int)
    requires k >= 1 && -k < m * k < k
    ensures m == 0
  {
    if m >= 1 {
      ProductMonotone(1, m, k);
    } else if m <= -1 {
      ProductMonotone(m, -1, k);
    }
  }
}
