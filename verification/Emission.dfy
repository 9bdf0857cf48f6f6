/** The emission curve (noct/core/src/emission.rs). */
module Emission {
  import opened Types

  const ATOMIC_UNITS: int := 1_000_000_000_000
  const MONEY_SUPPLY: int := 1_000_000 * ATOMIC_UNITS
  const EMISSION_SHIFT: int := 0x10_0000
  const TAIL_EMISSION: int := 30_000_000_000

  /** `MONEY_SUPPLY.saturating_sub(emitted) >> 20`, never below the tail. */
  function BaseReward(alreadyEmitted: U64): (reward: U64)
    ensures TAIL_EMISSION <= reward <= MONEY_SUPPLY / EMISSION_SHIFT
  {
    Max(Max(MONEY_SUPPLY - alreadyEmitted, 0) / EMISSION_SHIFT, TAIL_EMISSION)
  }

  /** Coins emitted after `blocks` more blocks, each adding its subsidy with saturation. */
  function EmittedAfter(start: U64, blocks: nat): U64 {
    if blocks == 0 then start
    else
      var before := EmittedAfter(start, blocks - 1);
      SaturatingAdd(before, BaseReward(before))
  }

  predicate InSmoothPhase(emitted: U64) {
    Max(MONEY_SUPPLY - emitted, 0) / EMISSION_SHIFT >= TAIL_EMISSION
  }

  /**
   In the smooth phase the reward is the 2^20-th part of what is left of 10^18, rounded
   down; once that is less than 3 * 10^10, the reward is 3 * 10^10.
   */
  lemma {:induction false} RewardIs(emitted: U64)
    ensures var left, reward := Max(1_000_000_000_000_000_000 - emitted, 0), BaseReward(emitted);
            if left >= 30_000_000_000 * 1_048_576 then reward * 1_048_576 <= left < (reward + 1) * 1_048_576
            else reward == 30_000_000_000
  {
    var left := Max(MONEY_SUPPLY - emitted, 0);
    assert left == left / EMISSION_SHIFT * EMISSION_SHIFT + left % EMISSION_SHIFT;
  }

  /** A later block never earns a larger subsidy than an earlier one. */
  lemma RewardNeverRises(a: U64, b: U64)
    requires a <= b
    ensures BaseReward(b) <= BaseReward(a)
  {
  }

  /**
   After h blocks the supply is at most the supply parameter plus h tail rewards, and
   at least h tail rewards above the start unless the counter has saturated.
   */
  lemma {:induction false} SupplyBound(start: U64, h: nat)
    requires start <= MONEY_SUPPLY
    ensures EmittedAfter(start, h) <= MONEY_SUPPLY + h * TAIL_EMISSION
    ensures EmittedAfter(start, h) >= Min(start + h * TAIL_EMISSION, U64_MAX)
  {
    if h > 0 {
      SupplyBound(start, h - 1);
      var before := EmittedAfter(start, h - 1);
      if before <= MONEY_SUPPLY {
        assert BaseReward(before) <= MONEY_SUPPLY - before + TAIL_EMISSION;
      } else {
        assert BaseReward(before) == TAIL_EMISSION;
      }
    }
  }

  /** Below this many blocks no addition saturates: emission is the exact sum of the subsidies. */
  const SATURATION_FREE_BLOCKS: nat := 581_558_135

  lemma NothingSaturates(start: U64, h: nat)
    requires start <= MONEY_SUPPLY
    requires h < SATURATION_FREE_BLOCKS
    ensures EmittedAfter(start, h + 1) == EmittedAfter(start, h) + BaseReward(EmittedAfter(start, h))
  {
    SupplyBound(start, h);
    var before := EmittedAfter(start, h);
    if before <= MONEY_SUPPLY {
      assert BaseReward(before) <= MONEY_SUPPLY / EMISSION_SHIFT;
    } else {
      assert BaseReward(before) == TAIL_EMISSION;
    }
  }

  /** One smooth-phase block cannot carry the supply past its asymptote. */
  lemma SmoothPhaseStaysBelowSupply(start: U64, h: nat)
    requires start <= MONEY_SUPPLY
    requires InSmoothPhase(EmittedAfter(start, h))
    ensures EmittedAfter(start, h + 1) <= MONEY_SUPPLY
  {
  }

  lemma {:induction false} EmissionNeverFalls(start: U64, h: nat, k: nat)
    requires h <= k
    ensures EmittedAfter(start, h) <= EmittedAfter(start, k)
    decreases k
  {
    if h < k {
      EmissionNeverFalls(start, h, k - 1);
    }
  }

  const SMOOTH_PHASE_BLOCKS: nat := 33_333_333

  /** Wherever it starts, the smooth phase has ended once `SMOOTH_PHASE_BLOCKS` blocks are mined. */
  lemma SmoothPhaseEnds(start: U64, h: nat)
    requires start <= MONEY_SUPPLY
    requires h >= SMOOTH_PHASE_BLOCKS
    ensures !InSmoothPhase(EmittedAfter(start, h))
  {
    SupplyBound(start, SMOOTH_PHASE_BLOCKS);
    EmissionNeverFalls(start, SMOOTH_PHASE_BLOCKS, h);
    assert EmittedAfter(start, h) >= SMOOTH_PHASE_BLOCKS * TAIL_EMISSION;
  }
}
