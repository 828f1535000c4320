/** Machine integers of the source language and their wrap-around arithmetic. */
module Numerics {

  const TWO_31: int := 0x8000_0000
  const TWO_32: int := 0x1_0000_0000

  /** An unsigned 8-bit value (C# byte). */
  type byte = x: int | 0 <= x < 256

  /** A signed 32-bit value (C# int). */
  type int32 = x: int | -TWO_31 <= x < TWO_31

  /** Unchecked C# int arithmetic: x reduced modulo 2^32 into the signed range. */
  function Wrap32(x: int): (r: int32)
    ensures (x - r) % TWO_32 == 0
    ensures -TWO_31 <= x < TWO_31 ==> r == x
  {
    (x + TWO_31) % TWO_32 - TWO_31
  }

  /** Wrapping after each step or only at the end gives the same value. */
  lemma WrapAdd(x: int, y: int)
    ensures Wrap32(Wrap32(x) + y) == Wrap32(x + y)
    ensures Wrap32(x + Wrap32(y)) == Wrap32(x + y)
  {
    var k := (x - Wrap32(x)) / TWO_32;
    assert x == Wrap32(x) + k * TWO_32;
    WrapShift(Wrap32(x) + y, k);
    var m := (y - Wrap32(y)) / TWO_32;
    assert y == Wrap32(y) + m * TWO_32;
    WrapShift(x + Wrap32(y), m);
  }

  /** One step of a wrapping accumulation: a running total kept wrapped stays the wrap of the exact total. */
  lemma WrapAccumulate(v: int, e: int, m: int)
    requires v == Wrap32(e)
    ensures Wrap32(v + Wrap32(m)) == Wrap32(e + m)
  {
    WrapAdd(v, m);
    WrapAdd(e, m);
  }

  /** Adding a multiple of 2^32 does not change the wrapped value. */
  lemma WrapShift(x: int, k: int)
    ensures Wrap32(x + k * TWO_32) == Wrap32(x)
  {
    var a := x + TWO_31;
    assert (a + k * TWO_32) % TWO_32 == a % TWO_32 by {
      ModShift(a, k, TWO_32);
    }
  }

  lemma ModShift(a: int, k: int, m: int)
    requires m > 0
    ensures (a + k * m) % m == a % m
  {
    var q := a / m;
    var r := a % m;
    assert a + k * m == (q + k) * m + r;
    ModUnique(a + k * m, m, q + k, r);
  }

  /** The remainder is determined by any decomposition with a remainder in range. */
  lemma ModUnique(v: int, m: int, t: int, rem: int)
    requires m > 0 && 0 <= rem < m && v == m * t + rem
    ensures v % m == rem && v / m == t
  {
    var q, r := v / m, v % m;
    assert v == m * q + r;
    if q > t {
      assert m * q >= m * (t + 1) by { MulMono(m, t + 1, q); }
      assert false;
    } else if q < t {
      assert m * t >= m * (q + 1) by { MulMono(m, q + 1, t); }
      assert false;
    }
  }

  lemma MulMono(m: int, a: int, b: int)
    requires m > 0 && a <= b
    ensures m * a <= m * b
  {
  }

  /** 256 to the power i. */
  function Pow256(i: nat): (r: nat)
    ensures r >= 1
  {
    if i == 0 then 1 else 256 * Pow256(i - 1)
  }
}
