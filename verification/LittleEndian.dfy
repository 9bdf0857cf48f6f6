/** Fixed-width little- and big-endian integers as byte sequences. */
module LittleEndian {
  import opened Types

  function Power256(n: nat): (p: nat)
    ensures p > 0
  {
    if n == 0 then 1 else 0x100 * Power256(n - 1)
  }

  function FromLe(bytes: seq<Byte>): (x: nat)
    ensures x < Power256(|bytes|)
  {
    if bytes == [] then 0 else bytes[0] + 0x100 * FromLe(bytes[1..])
  }

  /** The low `n` bytes: a wider integer is cut off, as a cast to that width would. */
  function ToLe(n: nat, x: nat): (bytes: seq<Byte>)
    ensures |bytes| == n
  {
    if n == 0 then [] else [x % 0x100] + ToLe(n - 1, x / 0x100)
  }

  lemma {:induction false} ToFromLe(n: nat, x: nat)
    requires x < Power256(n)
    ensures FromLe(ToLe(n, x)) == x
  {
    if n > 0 {
      ToFromLe(n - 1, x / 0x100);
      assert ToLe(n, x)[1..] == ToLe(n - 1, x / 0x100);
    }
  }

  lemma {:induction false} FromToLe(bytes: seq<Byte>)
    ensures ToLe(|bytes|, FromLe(bytes)) == bytes
  {
    if bytes != [] {
      FromToLe(bytes[1..]);
      assert FromLe(bytes) / 0x100 == FromLe(bytes[1..]);
      assert FromLe(bytes) % 0x100 == bytes[0];
    }
  }

  lemma Distribute(p: int, x: int)
    ensures 0x100 * (p * x) == (0x100 * p) * x
  {
  }

  lemma {:induction false} FromLeConcat(a: seq<Byte>, b: seq<Byte>)
    ensures FromLe(a + b) == FromLe(a) + Power256(|a|) * FromLe(b)
  {
    if a == [] {
      assert a + b == b;
    } else {
      FromLeConcat(a[1..], b);
      assert (a + b)[1..] == a[1..] + b;
      Distribute(Power256(|a| - 1), FromLe(b));
    }
  }

  lemma {:induction false} PowerAdd(m: nat, n: nat)
    ensures Power256(m + n) == Power256(m) * Power256(n)
  {
    if m > 0 {
      PowerAdd(m - 1, n);
      assert Power256(m + n) == 0x100 * (Power256(m - 1) * Power256(n));
    }
  }

  lemma Widths()
    ensures Power256(1) == 0x100 && Power256(2) == 0x1_0000 && Power256(4) == TWO_32
    ensures Power256(8) == TWO_64 && Power256(16) == TWO_128 && Power256(32) == TWO_256
  {
    assert Power256(3) == 0x100_0000;
    assert Power256(4) == TWO_32;
    PowerAdd(4, 4);
    PowerAdd(8, 8);
    PowerAdd(16, 16);
  }
}
