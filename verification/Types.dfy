/**
 Machine integers, byte arrays and the two result types the model shares.

 Rust's fixed-width integers are subset types of `int`: every place where the
 program saturates, checks for overflow or casts is written out by the functions
 that do so. A `[u8; 32]` array is the number its bytes spell in big-endian order,
 so that array equality is numeric equality and array order is numeric order.
 */
module Types {
  const TWO_32: int := 0x1_0000_0000
  const TWO_63: int := 0x8000_0000_0000_0000
  const TWO_64: int := 0x1_0000_0000_0000_0000
  const TWO_128: int := 0x1_0000_0000_0000_0000_0000_0000_0000_0000
  const TWO_256: int := TWO_128 * TWO_128
  const U64_MAX: int := TWO_64 - 1
  const U128_MAX: int := TWO_128 - 1
  const I64_MIN: int := -TWO_63

  type Byte = x: int | 0 <= x < 0x100
  type U16 = x: int | 0 <= x < 0x1_0000
  type U32 = x: int | 0 <= x < TWO_32
  type U64 = x: int | 0 <= x < TWO_64
  type U128 = x: int | 0 <= x < TWO_128
  type I64 = x: int | -TWO_63 <= x < TWO_63
  type Bytes32 = x: int | 0 <= x < TWO_256

  /** A proof-of-work hash, kept as bytes because it is read as a little-endian number. */
  type HashBytes = bytes: seq<Byte> | |bytes| == 32 witness seq(32, _ => 0)

  datatype Option<+T> = None | Some(value: T)

  datatype Result<+T, +E> = Ok(value: T) | Err(error: E)

  function Min(a: int, b: int): int {
    if a <= b then a else b
  }

  function Max(a: int, b: int): int {
    if a <= b then b else a
  }

  /** `a.saturating_add(b)` on `u64`. */
  function SaturatingAdd(a: nat, b: nat): U64 {
    Min(a + b, U64_MAX)
  }

  function SaturatingSub(a: nat, b: nat): nat {
    Max(a - b, 0)
  }

  function SetOf<T(==)>(xs: seq<T>): set<T> {
    set x | x in xs
  }
}
