/** The two value pools and the turnstile between them (noct/core/src/pools.rs). */
module Pools {
  import opened Types

  datatype Pool = Ring | Shielded

  datatype TurnstileError =
    | Underflow(pool: Pool, held: U64, taking: U64)
    | Overflow(pool: Pool, held: U64, adding: U64)
    | NotRepresentable

  /** What each pool holds, as a value. */
  datatype Totals = Totals(ring: U64, shielded: U64)
  {
    function Get(pool: Pool): U64 {
      if pool == Ring then ring else shielded
    }

    function With(pool: Pool, value: U64): Totals {
      if pool == Ring then Totals(value, shielded) else Totals(ring, value)
    }

    function Supply(): nat {
      ring + shielded
    }
  }

  function Minted(t: Totals, pool: Pool, amount: U64): Result<Totals, TurnstileError> {
    if t.Get(pool) + amount > U64_MAX then
      Err(Overflow(pool, t.Get(pool), amount))
    else
      Ok(t.With(pool, t.Get(pool) + amount))
  }

  function Taken(t: Totals, pool: Pool, amount: U64): Result<Totals, TurnstileError> {
    if amount > t.Get(pool) then
      Err(Underflow(pool, t.Get(pool), amount))
    else
      Ok(t.With(pool, t.Get(pool) - amount))
  }

  function Moved(t: Totals, from: Pool, to: Pool, amount: U64): Result<Totals, TurnstileError> {
    var taken := Taken(t, from, amount);
    if taken.Err? then taken else Minted(taken.value, to, amount)
  }

  /** A crossing, stated from the ring pool's side: positive leaves the ring pool. */
  function Crossed(t: Totals, cross: I64): Result<Totals, TurnstileError> {
    if cross == 0 then Ok(t)
    else if cross == I64_MIN then Err(NotRepresentable)
    else if cross > 0 then Moved(t, Ring, Shielded, cross)
    else Moved(t, Shielded, Ring, -cross)
  }

  /** The running totals, changed in place. A refused movement changes nothing. */
  class PoolTotals {
    var ring: U64
    var shielded: U64

    function Value(): Totals
      reads this
    {
      Totals(ring, shielded)
    }

    constructor (t: Totals)
      ensures Value() == t
    {
      ring, shielded := t.ring, t.shielded;
    }

    method Set(pool: Pool, value: U64)
      modifies this
      ensures Value() == old(Value()).With(pool, value)
    {
      if pool == Ring {
        ring := value;
      } else {
        shielded := value;
      }
    }

    method Mint(pool: Pool, amount: U64) returns (r: Result<(), TurnstileError>)
      modifies this
      ensures r.Ok? <==> old(Value()).Get(pool) + amount <= U64_MAX
      ensures r.Ok? ==> Value() == old(Value()).With(pool, old(Value()).Get(pool) + amount)
      ensures r.Err? ==> Value() == old(Value())
      ensures match Minted(old(Value()), pool, amount)
              case Ok(t) => r == Ok(()) && Value() == t
              case Err(e) => r == Err(e)
    {
      var held := Value().Get(pool);
      if held + amount > U64_MAX {
        return Err(Overflow(pool, held, amount));
      }
      Set(pool, held + amount);
      return Ok(());
    }

    method Take(pool: Pool, amount: U64) returns (r: Result<(), TurnstileError>)
      modifies this
      ensures r.Ok? <==> amount <= old(Value()).Get(pool)
      ensures r.Ok? ==> Value() == old(Value()).With(pool, old(Value()).Get(pool) - amount)
      ensures r.Err? ==> Value() == old(Value())
      ensures match Taken(old(Value()), pool, amount)
              case Ok(t) => r == Ok(()) && Value() == t
              case Err(e) => r == Err(e)
    {
      var held := Value().Get(pool);
      if amount > held {
        return Err(Underflow(pool, held, amount));
      }
      Set(pool, held - amount);
      return Ok(());
    }

    /** The taking is put back when the minting half of a crossing is refused. */
    method ApplyCross(cross: I64) returns (r: Result<(), TurnstileError>)
      modifies this
      ensures r.Ok? <==>
              cross != I64_MIN && 0 <= old(ring) - cross <= U64_MAX && 0 <= old(shielded) + cross <= U64_MAX
      ensures r.Ok? ==> ring == old(ring) - cross && shielded == old(shielded) + cross
      ensures r.Err? ==> Value() == old(Value())
      ensures match Crossed(old(Value()), cross)
              case Ok(t) => r == Ok(()) && Value() == t
              case Err(e) => r == Err(e)
    {
      if cross == 0 {
        return Ok(());
      }
      if cross == I64_MIN {
        return Err(NotRepresentable);
      }
      if cross > 0 {
        r := Take(Ring, cross);
        if r.Err? {
          return;
        }
        r := Mint(Shielded, cross);
        if r.Err? {
          ring := ring + cross;
        }
      } else {
        r := Take(Shielded, -cross);
        if r.Err? {
          return;
        }
        r := Mint(Ring, -cross);
        if r.Err? {
          shielded := shielded + -cross;
        }
      }
    }
  }

  /**
   A crossing is allowed exactly when it is a representable amount, the paying pool
   holds it and the receiving pool has room for it; it then moves that amount and
   leaves the supply alone.
   */
  lemma CrossingIsConservative(t: Totals, cross: I64)
    ensures Crossed(t, cross).Ok? <==>
            cross != I64_MIN && 0 <= t.ring - cross <= U64_MAX && 0 <= t.shielded + cross <= U64_MAX
    ensures Crossed(t, cross).Ok? ==>
              Crossed(t, cross).value == Totals(t.ring - cross, t.shielded + cross) &&
              Crossed(t, cross).value.Supply() == t.Supply()
  {
  }
}
