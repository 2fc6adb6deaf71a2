/** Fixed-width integer conversions used by the engine.

    The C code stores coordinates in `s16`, does its collision arithmetic in
    `s32`, and the configuration parser accumulates in `uint64_t`.  Dafny's
    `int` is unbounded, so every narrowing is written out here as an explicit
    two's-complement wrap.  Floating-point values are modelled as `real`;
    the only float operation whose integer result matters is truncation
    toward zero (`(s16) f`, `(s32) f`), defined below. */
module Numeric {

  const TWO16: int := 0x1_0000
  const TWO32: int := 0x1_0000_0000
  const TWO64: int := 0x1_0000_0000_0000_0000

  predicate InS16(v: int) { -0x8000 <= v < 0x8000 }
  predicate InS32(v: int) { -0x8000_0000 <= v < 0x8000_0000 }
  predicate InU16(v: int) { 0 <= v < TWO16 }
  predicate InU64(v: int) { 0 <= v < TWO64 }

  /** Two's-complement narrowing to 16 bits, as a store into an `s16` does. */
  function S16(v: int): (r: int)
    ensures InS16(r)
    ensures (r - v) % TWO16 == 0
    ensures InS16(v) ==> r == v
  {
    var m := v % TWO16;
    if m < 0x8000 then m else m - TWO16
  }

  /** Two's-complement narrowing to 32 bits. */
  function S32(v: int): (r: int)
    ensures InS32(r)
    ensures (r - v) % TWO32 == 0
    ensures InS32(v) ==> r == v
  {
    var m := v % TWO32;
    if m < 0x8000_0000 then m else m - TWO32
  }

  /** Adding a multiple of 2^32 does not change the 32-bit wrap. */
  lemma S32Shift(v: int, k: int)
    ensures S32(v + k * TWO32) == S32(v)
  {
    var q, q' := v / TWO32, (v + k * TWO32) / TWO32;
    assert v == q * TWO32 + v % TWO32;
    assert v + k * TWO32 == q' * TWO32 + (v + k * TWO32) % TWO32;
    assert (q' - q - k) * TWO32 == v % TWO32 - (v + k * TWO32) % TWO32;
  }

  /** Reduction modulo 2^64, as arithmetic on `uint64_t` does. */
  function U64(v: int): (r: int)
    ensures InU64(r)
    ensures (r - v) % TWO64 == 0
    ensures InU64(v) ==> r == v
  {
    v % TWO64
  }

  /** `u16` addition: the sum of two `u16` values wraps at 2^16. */
  method AddU16(a: int, b: int) returns (r: int)
    requires InU16(a) && InU16(b)
    ensures InU16(r)
    ensures r == if a + b < TWO16 then a + b else a + b - TWO16
  {
    r := (a + b) % TWO16;
  }

  /** C's float-to-integer conversion: truncation toward zero. */
  function Trunc(x: real): (r: int)
    ensures x >= 0.0 ==> r as real <= x < r as real + 1.0
    ensures x < 0.0 ==> r as real - 1.0 < x <= r as real
  {
    if x >= 0.0 then x.Floor else -((-x).Floor)
  }

  /** `(s16) x` for a float `x`: truncation toward zero, then a 16-bit wrap. */
  function TruncS16(x: real): (r: int)
    ensures InS16(r)
    ensures -32768.0 < x < 32768.0 ==> r == Trunc(x)
  {
    S16(Trunc(x))
  }

  function Min(a: int, b: int): int { if a <= b then a else b }
  function Max(a: int, b: int): int { if a >= b then a else b }

  lemma {:induction false} ScaleLe(x: int, c: int, y: nat)
    requires x <= c
    ensures x * y <= c * y
    decreases y
  {
    if y > 0 {
      ScaleLe(x, c, y - 1);
      assert x * y == x * (y - 1) + x;
      assert c * y == c * (y - 1) + c;
    }
  }

  /** The product of two values of magnitude below 2^15 has magnitude below 2^30. */
  lemma MulBound(a: int, b: int)
    requires -0x8000 < a < 0x8000 && -0x8000 < b < 0x8000
    ensures -0x4000_0000 < a * b < 0x4000_0000
  {
    var ua := if a < 0 then -a else a;
    var ub := if b < 0 then -b else b;
    ScaleLe(ua, 0x7fff, ub);
    assert a * b == ua * ub || a * b == -(ua * ub);
  }
}
