/**
 * IEEE 754-2008 binary64 / binary32 encodings (section 3.4 of IEEE 754-2008) seen
 * as raw bit patterns, the few exactly-known outcomes the kernels rely on, and the
 * SIMD mask conventions of the vector kernels.
 *
 * A bit pattern is the unsigned integer it spells (`u64`, `u32`). Every mask the
 * kernels apply covers one contiguous run of bits, so each masking is written
 * exactly as a division and/or remainder by a power of two: `x & 0x7FFF...` is
 * `x % 2^63`, `x >> 32` is `x / 2^32`, `x & 0xFFFF_FFFF_0000_0000` is
 * `x - x % 2^32`, and so on.
 *
 * No floating-point arithmetic is evaluated anywhere in this project: a computed
 * value is a symbolic formula, and `Outcome` records only what IEEE arithmetic
 * fixes exactly (a constant, a NaN, the result of an operation on +-0 or +-Inf).
 */
module Ieee {

  newtype u64 = x: int | 0 <= x < 0x1_0000_0000_0000_0000
  newtype u32 = x: int | 0 <= x < 0x1_0000_0000

  // ---------------------------------------------------------------- binary64

  const SIGN64: u64 := 0x8000_0000_0000_0000
  const POS_INF64: u64 := 0x7FF0_0000_0000_0000
  const NEG_INF64: u64 := 0xFFF0_0000_0000_0000
  const ZERO64: u64 := 0
  const HALF64: u64 := 0x3FE0_0000_0000_0000
  const ONE64: u64 := 0x3FF0_0000_0000_0000
  const TWO64: u64 := 0x4000_0000_0000_0000
  const ONES64: u64 := 0xFFFF_FFFF_FFFF_FFFF

  /** |x|: `x & 0x7FFF_FFFF_FFFF_FFFF`, the sign bit cleared. */
  function Abs64(x: u64): u64 { x % SIGN64 }

  /** `x & 0x8000_0000_0000_0000` is nonzero. */
  predicate SignBit64(x: u64) { x >= SIGN64 }

  /** -x: `x ^ 0x8000_0000_0000_0000`, only the sign bit changes. */
  function Negate64(x: u64): (r: u64)
    ensures Abs64(r) == Abs64(x) && SignBit64(r) == !SignBit64(x)
  {
    if SignBit64(x) then x - SIGN64 else x + SIGN64
  }

  /** `x >> 32`: the upper word. */
  function Upper32(x: u64): u32 { (x / 0x1_0000_0000) as u32 }

  /** `x & 0xFFFF_FFFF`: the lower word. */
  function Lower32(x: u64): u32 { (x % 0x1_0000_0000) as u32 }

  predicate IsNaN64(x: u64) { Abs64(x) > POS_INF64 }
  predicate IsInf64(x: u64) { Abs64(x) == POS_INF64 }
  predicate IsZero64(x: u64) { Abs64(x) == 0 }

  /** `x < 0.0` as an ordered, quiet comparison (_CMP_LT_OQ): false for NaN and for -0. */
  predicate LessThanZero64(x: u64) { !IsNaN64(x) && SignBit64(x) && !IsZero64(x) }

  /**
   * For two non-NaN, sign-clear encodings the IEEE order of the numbers is the
   * order of the encodings; a NaN compares false with everything.
   */
  predicate OrderedAtLeast64(a: u64, c: u64)
    requires !SignBit64(a) && !SignBit64(c) && !IsNaN64(c)
  {
    !IsNaN64(a) && a >= c
  }

  predicate OrderedAbove64(a: u64, c: u64)
    requires !SignBit64(a) && !SignBit64(c) && !IsNaN64(c)
  {
    !IsNaN64(a) && a > c
  }

  predicate OrderedAtMost64(a: u64, c: u64)
    requires !SignBit64(a) && !SignBit64(c) && !IsNaN64(c)
  {
    !IsNaN64(a) && a <= c
  }

  // ---------------------------------------------------------------- binary32

  const SIGN32: u32 := 0x8000_0000
  const POS_INF32: u32 := 0x7F80_0000
  const NEG_INF32: u32 := 0xFF80_0000
  const ZERO32: u32 := 0
  const HALF32: u32 := 0x3F00_0000
  const ONE32: u32 := 0x3F80_0000
  const TWO32: u32 := 0x4000_0000
  const ONES32: u32 := 0xFFFF_FFFF

  /** `x & 0x7FFF_FFFF`. */
  function Abs32(x: u32): u32 { x % SIGN32 }

  predicate SignBit32(x: u32) { x >= SIGN32 }

  /** `x ^ 0x8000_0000`. */
  function Negate32(x: u32): (r: u32)
    ensures Abs32(r) == Abs32(x) && SignBit32(r) == !SignBit32(x)
  {
    if SignBit32(x) then x - SIGN32 else x + SIGN32
  }

  /** `(int32_t)x`: the two's-complement reading of the pattern. */
  function AsSigned32(x: u32): (h: int)
    ensures -0x8000_0000 <= h < 0x8000_0000
    ensures (h < 0) == SignBit32(x)
  {
    if SignBit32(x) then x as int - 0x1_0000_0000 else x as int
  }

  predicate IsNaN32(x: u32) { Abs32(x) > POS_INF32 }
  predicate IsInf32(x: u32) { Abs32(x) == POS_INF32 }
  predicate IsZero32(x: u32) { Abs32(x) == 0 }

  // ---------------------------------------------------------------- outcomes

  /**
   * What IEEE arithmetic fixes about a computed value: an exact encoding, some
   * NaN (payload and quiet/signalling state are not modelled), or a value that
   * depends on rounded numerics this model does not evaluate.
   */
  datatype Outcome<B> = Exact(bits: B) | AnyNaN | Approx

  // ---------------------------------------------------------------- SIMD masks

  /** A vector comparison yields all-ones for true and zero for false in each lane. */
  function Mask64(b: bool): (m: u64)
    ensures (m == ONES64) == b && (m == 0) == !b
  {
    if b then ONES64 else 0
  }

  function Mask32(b: bool): (m: u32)
    ensures (m == ONES32) == b && (m == 0) == !b
  {
    if b then ONES32 else 0
  }

  /** `v & m` for a comparison mask `m`: `v` where the mask is set, zero elsewhere. */
  function AndMask32(v: u32, m: bool): (r: u32)
    ensures m ==> r == v
    ensures !m ==> r == 0
  {
    if m then v else 0
  }

  /** Every lane of a condition vector is all-ones. */
  predicate AllSet64(cond: seq<u64>) { forall i :: 0 <= i < |cond| ==> cond[i] == ONES64 }

  predicate AllSet32(cond: seq<u32>) { forall i :: 0 <= i < |cond| ==> cond[i] == ONES32 }

  /** A lane-wise operation: lane i of the result is `f` of lane i. */
  function LaneMap<T, U>(xs: seq<T>, f: T -> U): (r: seq<U>)
    ensures |r| == |xs| && forall i :: 0 <= i < |xs| ==> r[i] == f(xs[i])
  {
    seq(|xs|, i requires 0 <= i < |xs| => f(xs[i]))
  }

  /** An `n`-lane vector with `first` in lane 0 and `rest` in the others. */
  function Splat<T>(n: nat, first: T, rest: T): (xs: seq<T>)
    requires n >= 1
    ensures |xs| == n && xs[0] == first && forall i :: 1 <= i < n ==> xs[i] == rest
  {
    [first] + seq(n - 1, _ => rest)
  }

  /** `_mm512_mask_blend_*(k, a, b)`: `b` in the lanes where `k` is set, `a` elsewhere. */
  function Blend<T>(k: bool, a: T, b: T): T { if k then b else a }
}
