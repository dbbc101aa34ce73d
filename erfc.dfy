/**
 * The scalar double-precision erfc kernel: classification of the input's bit
 * pattern, the threshold chain that picks exactly one branch, and the branch's
 * result as a symbolic formula over the input bits.
 */
module Erfc {
  import opened Ieee
  import Regions

  // Masks and boundary keys. A key is the upper word of |x| (biased exponent and
  // the top 20 fraction bits).
  const INF: u64 := 0x7FF0_0000_0000_0000
  const INF_NAN: u32 := 0x7FF0_0000

  const BOUND1: u32 := 0x3FEB_0000   // 0.84375
  const BOUND2: u32 := 0x3FF4_0000   // 1.25
  const BOUND3: u32 := 0x403C_0000   // 28
  const B1_SUB1: u32 := 0x3E30_0000  // 2^-28
  const B1_SUB2: u32 := 0x0080_0000  // 2^-1015 as an upper word
  const B3_SUB1: u32 := 0x4006_DB6D  // 1/0.35
  const B3_SUB2: u32 := 0x4018_0000  // 6

  /** The coefficient pair of the exponential tail: RA/SA below 1/0.35, RB/SB above. */
  datatype Coeffs = RaSa | RbSb

  /**
   * A double result as the formula that produces it. The fields are the input
   * bits the formula reads: `x` the signed input, `a` = |x|, `z` the high part
   * of |x|, `neg` which of the two sign-dependent formulas is used.
   */
  datatype DTag =
    | Zero                                   // ZERO
    | Two                                    // TWO
    | TinyTiny                               // TINY * TINY
    | SubSelf(x: u64)                        // x - x
    | OneMinusXPlusSquare(x: u64)            // ONE - (x + x*x)
    | OneMinusX(x: u64)                      // ONE - x
    | SmallRational(x: u64)                  // ONE - (x + x*y), y = PP(x*x)/QQ(x*x)
    | NearOne(neg: bool, a: u64)             // s = a - ONE; neg: ONE + (ERX + P/Q), else (ONE - ERX) - P/Q
    | Tail(c: Coeffs, neg: bool, a: u64, z: u64)
      // s = 1/(a*a); r = exp(-z*z - 0.5625) * exp((z - a)*(z + a) + R/S); neg: TWO - r/a, else r/a

  /** What IEEE arithmetic fixes about a formula's value (round-to-nearest). */
  function Value(t: DTag): Outcome<u64>
  {
    match t
    case Zero => Exact(ZERO64)
    case Two => Exact(TWO64)
    case TinyTiny => Exact(ZERO64)            // 2^-997 * 2^-997 underflows to +0
    case SubSelf(x) => if IsNaN64(x) || IsInf64(x) then AnyNaN else Exact(ZERO64)
    case OneMinusXPlusSquare(x) => if IsZero64(x) then Exact(ONE64) else Approx
    case OneMinusX(x) => if IsZero64(x) then Exact(ONE64) else Approx
    case _ => Approx
  }

  /** Two formulas agree when they are the same formula or have the same exactly-known value. */
  predicate Agree(t: DTag, u: DTag)
  {
    t == u || (Value(t) == Value(u) && !Value(t).Approx?)
  }

  /** `ix = (ux >> 32) & UPPER32_MASK` with `ux` = |x|. */
  function Key(x: u64): u32
  {
    Upper32(Abs64(x)) % 0x8000_0000
  }

  /** `ux & UPPER32_MASK_DP64`: bits 32 to 62 of `ux`. */
  function HighPart(ux: u64): u64
  {
    ((ux / 0x1_0000_0000) % 0x8000_0000) * 0x1_0000_0000
  }

  /** The branches of the threshold chain, in the order the chain tests them. */
  datatype Branch =
    | Special | TinySquare | TinyLinear | Small | NearOneBranch
    | TailA | NegativeBeyondSix | TailB | Saturation

  /** The if/else-if chain over the key `ix` and the sign. */
  function BranchOf(ix: u32, neg: bool): Branch
  {
    if ix >= INF_NAN then Special
    else if ix < BOUND1 then
      if ix < B1_SUB1 then (if ix < B1_SUB2 then TinySquare else TinyLinear) else Small
    else if ix < BOUND2 then NearOneBranch
    else if ix < BOUND3 then
      if ix < B3_SUB1 then TailA
      else if neg && ix >= B3_SUB2 then NegativeBeyondSix
      else TailB
    else Saturation
  }

  /** The formula each branch returns; the tail reads `asdouble(ux & SIGN_MASK)`, |x| again. */
  function Reconstruct(b: Branch, x: u64): DTag
  {
    var neg := SignBit64(x);
    var ux := Abs64(x);
    match b
    case Special => if ux == INF then (if neg then Two else Zero) else SubSelf(x)
    case TinySquare => OneMinusXPlusSquare(x)
    case TinyLinear => OneMinusX(x)
    case Small => SmallRational(x)
    case NearOneBranch => NearOne(neg, ux)
    case TailA => Tail(RaSa, neg, Abs64(ux), HighPart(ux))
    case NegativeBeyondSix => Two
    case TailB => Tail(RbSb, neg, Abs64(ux), HighPart(ux))
    case Saturation => if neg then Two else TinyTiny
  }

  /** `ALM_PROTO_OPT(erfc)(x)`: the branch the chain selects, applied to x. */
  function Kernel(x: u64): DTag
  {
    Reconstruct(BranchOf(Key(x), SignBit64(x)), x)
  }

  // ---------------------------------------------------------------- the key and the high part

  /** The key reaches INF_NAN exactly for the non-finite inputs, and is 0 for +-0. */
  lemma KeyClassifies(x: u64)
    ensures Key(x) >= INF_NAN <==> IsNaN64(x) || IsInf64(x)
    ensures IsZero64(x) ==> Key(x) == 0
    ensures Key(x) as int == Abs64(x) as int / 0x1_0000_0000
  {
  }

  /** `ux == INF` singles out the two infinities among all encodings. */
  lemma MagnitudeOfInfinity(x: u64)
    ensures Abs64(x) == INF <==> x == POS_INF64 || x == NEG_INF64
  {
  }

  /** The key ignores the sign and orders magnitudes: a larger |x| never has a smaller key. */
  lemma KeyOfMagnitude(x: u64, y: u64)
    ensures Key(Negate64(x)) == Key(x)
    ensures Abs64(x) <= Abs64(y) ==> Key(x) <= Key(y)
  {
    KeyClassifies(x);
    KeyClassifies(y);
  }

  /**
   * The high part of a sign-clear `ux` is `ux` with its low 32 bits cleared: it
   * has the upper word of `ux`, a zero lower word, and is at most `ux`.
   */
  lemma HighPartClearsLowWord(ux: u64)
    requires !SignBit64(ux)
    ensures Upper32(HighPart(ux)) == Upper32(ux)
    ensures Lower32(HighPart(ux)) == 0
    ensures HighPart(ux) <= ux && ux as int - HighPart(ux) as int == Lower32(ux) as int
  {
  }

  // ---------------------------------------------------------------- special values

  /**
   * The special values the documentation promises: erfc(+Inf) = 0,
   * erfc(-Inf) = 2, erfc(+-0) = 1, erfc(NaN) = x - x for every NaN pattern, and
   * no finite input yields NaN.
   */
  lemma SpecialValues(x: u64)
    ensures x == POS_INF64 ==> Value(Kernel(x)) == Exact(ZERO64)
    ensures x == NEG_INF64 ==> Value(Kernel(x)) == Exact(TWO64)
    ensures IsZero64(x) ==> Value(Kernel(x)) == Exact(ONE64)
    ensures IsNaN64(x) ==> Kernel(x) == SubSelf(x) && Value(Kernel(x)) == AnyNaN
    ensures !IsNaN64(x) && !IsInf64(x) ==> Value(Kernel(x)) != AnyNaN
  {
    KeyClassifies(x);
    MagnitudeOfInfinity(x);
  }

  // ---------------------------------------------------------------- the boundary table

  /** The boundary keys in the order the chain's intervals follow each other. */
  const TABLE: seq<int> :=
    [B1_SUB2 as int, B1_SUB1 as int, BOUND1 as int, BOUND2 as int,
     B3_SUB1 as int, B3_SUB2 as int, BOUND3 as int, INF_NAN as int]

  /** The branch for interval `k` of TABLE; the interval from 6 to 28 is split by sign. */
  function BranchAt(k: nat, neg: bool): Branch
  {
    if k == 0 then TinySquare
    else if k == 1 then TinyLinear
    else if k == 2 then Small
    else if k == 3 then NearOneBranch
    else if k == 4 then TailA
    else if k == 5 then TailB
    else if k == 6 then (if neg then NegativeBeyondSix else TailB)
    else if k == 7 then Saturation
    else Special
  }

  /**
   * The boundaries are strictly increasing, so every key lies in exactly one
   * interval of TABLE, and the chain takes that interval's branch.
   */
  lemma BranchFollowsTable(ix: u32, neg: bool)
    ensures Regions.StrictlyIncreasing(TABLE)
    ensures BranchOf(ix, neg) == BranchAt(Regions.Position(TABLE, ix as int), neg)
  {
    var key := ix as int;
    var k: nat :=
      if key < TABLE[0] then 0 else if key < TABLE[1] then 1 else if key < TABLE[2] then 2
      else if key < TABLE[3] then 3 else if key < TABLE[4] then 4 else if key < TABLE[5] then 5
      else if key < TABLE[6] then 6 else if key < TABLE[7] then 7 else 8;
    assert Regions.InInterval(TABLE, key, k);
    Regions.PositionIsInterval(TABLE, key, k);
  }

  // ---------------------------------------------------------------- properties of the chain

  /** The formula with the other sign choice. */
  function Mirror(t: DTag): DTag
  {
    match t
    case NearOne(neg, a) => NearOne(!neg, a)
    case Tail(c, neg, a, z) => Tail(c, !neg, a, z)
    case _ => t
  }

  /**
   * Between 0.84375 and 6 the branch depends on |x| only: x and -x get the same
   * formula over the same |x| and its high part, with the opposite sign choice,
   * and that choice is exactly the sign bit.
   */
  lemma SignOnlySelects(x: u64)
    requires BOUND1 <= Key(x) < B3_SUB2
    ensures Kernel(Negate64(x)) == Mirror(Kernel(x))
    ensures Kernel(x).NearOne? || Kernel(x).Tail?
    ensures Kernel(x).a == Abs64(x) && Kernel(x).neg == SignBit64(x)
    ensures Kernel(x).Tail? ==> Kernel(x).z == HighPart(Abs64(x))
  {
    KeyOfMagnitude(x, x);
  }

  /** Which tail coefficients an input uses, both directions. */
  lemma TailCoefficients(x: u64)
    ensures (Kernel(x).Tail? && Kernel(x).c == RaSa) <==> BOUND2 <= Key(x) < B3_SUB1
    ensures (Kernel(x).Tail? && Kernel(x).c == RbSb) <==>
              B3_SUB1 <= Key(x) < BOUND3 && !(SignBit64(x) && Key(x) >= B3_SUB2)
  {
  }

  /**
   * The constant results: a negative finite input from 6 on gives exactly 2
   * without evaluating exp; a positive input from 28 on gives TINY*TINY, i.e. +0.
   */
  lemma SaturatedValues(x: u64)
    requires !IsNaN64(x) && !IsInf64(x)
    ensures SignBit64(x) && Key(x) >= B3_SUB2 ==> Kernel(x) == Two
    ensures !SignBit64(x) && Key(x) >= BOUND3 ==> Kernel(x) == TinyTiny && Value(Kernel(x)) == Exact(ZERO64)
  {
    KeyClassifies(x);
  }

  /** Inputs below 2^-28, signed zeros included, return 1 - x (with x*x added below the sub-threshold). */
  lemma TinyInputs(x: u64)
    requires Key(x) < B1_SUB1
    ensures Kernel(x) == (if Key(x) < B1_SUB2 then OneMinusXPlusSquare(x) else OneMinusX(x))
  {
  }
}
