/**
 * The scalar single-precision erfcf kernel: the signed and unsigned readings of
 * the input bits, the threshold chain over them, and each branch's result as a
 * symbolic formula.
 */
module Erfcf {
  import opened Ieee
  import Regions

  const BOUND1: u32 := 0x3F58_0000   // 0.84375
  const BOUND2: u32 := 0x3FA0_0000   // 1.25
  const BOUND3: u32 := 0x41E0_0000   // 28
  const B1_SUB1: u32 := 0x3280_0000  // 2^-26
  const B1_SUB2: u32 := 0x3E80_0000  // 1/4, compared with the signed hx
  const B3_SUB1: u32 := 0x4006_DB6D  // 1/0.35
  const B3_SUB2: u32 := 0x40C0_0000  // 6
  const INF_NAN: u32 := 0x7F80_0000

  datatype Coeffs = RaSa | RbSb

  /**
   * A float result as the formula that produces it; `x` the signed input,
   * `a` = |x|, `z` the split high part of |x|, `neg` the sign-dependent choice.
   */
  datatype FTag =
    | TwiceSignPlusRecip(s: u32, x: u32)     // (float)s + ONE/x, s = 2 * signbit
    | OneMinusX(x: u32)                      // ONE - x
    | SmallRational(x: u32)                  // ONE - (x + x*y), y = PP(x*x)/QQ(x*x)
    | HalfMinusR(x: u32)                     // HALF - (x*y + (x - HALF))
    | NearOne(neg: bool, a: u32)             // s = a - ONE; neg: ONE + (ERX + P/Q), else (ONE - ERX) - P/Q
    | Tail(c: Coeffs, neg: bool, a: u32, z: u32)
      // r = expf(-z*z - 0.5625) * expf((z - a)*(z + a) + R/S); neg: TWO - r/a, else r/a
    | TwoMinusTiny                           // TWO - TINY
    | TinyTiny                               // TINY * TINY

  /**
   * What IEEE arithmetic fixes about a formula's value (round-to-nearest):
   * 1/+-Inf is +-0, so the special formula gives 0 + 0 = +0 for +Inf and
   * 2 + (-0) = 2 for -Inf; 2 - 1e-30 rounds to 2; 1e-30 * 1e-30 underflows to +0.
   */
  function Value(t: FTag): Outcome<u32>
  {
    match t
    case TwiceSignPlusRecip(s, x) =>
      if IsNaN32(x) then AnyNaN
      else if IsInf32(x) && s == 0 then Exact(ZERO32)
      else if IsInf32(x) && s == 2 then Exact(TWO32)
      else Approx
    case OneMinusX(x) => if IsZero32(x) then Exact(ONE32) else Approx
    case TwoMinusTiny => Exact(TWO32)
    case TinyTiny => Exact(ZERO32)
    case _ => Approx
  }

  predicate Agree(t: FTag, u: FTag)
  {
    t == u || (Value(t) == Value(u) && !Value(t).Approx?)
  }

  /** `(uint32_t)hx >> 31 << 1`: twice the sign bit. */
  function TwiceSign(x: u32): (s: u32)
    ensures s == (if SignBit32(x) then 2 else 0)
  {
    (x / 0x8000_0000) * 2
  }

  /** `ix & SPLIT_MASK` with SPLIT_MASK = 0xffffe000: the low 13 bits cleared. */
  function SplitHigh(ix: u32): u32
  {
    (ix / 0x2000) * 0x2000
  }

  datatype Branch =
    | Special | Tiny | SmallLow | SmallHigh | NearOneBranch
    | TailA | NegativeBeyondSix | TailB | Saturation

  /** The branch chain over `ix` = |x| bits and the signed `hx`. */
  function BranchOf(ix: u32, hx: int): Branch
  {
    if ix >= INF_NAN then Special
    else if ix < BOUND1 then
      if ix < B1_SUB1 then Tiny
      else if hx < B1_SUB2 as int then SmallLow
      else SmallHigh
    else if ix < BOUND2 then NearOneBranch
    else if ix < BOUND3 then
      if ix < B3_SUB1 then TailA
      else if hx < 0 && ix >= B3_SUB2 then NegativeBeyondSix
      else TailB
    else Saturation
  }

  /**
   * The formula each branch returns. The near-one branch chooses by `hx >= 0`,
   * the tail and saturation branches by `hx > 0`.
   */
  function Reconstruct(b: Branch, x: u32): FTag
  {
    var hx := AsSigned32(x);
    var ix := Abs32(x);
    match b
    case Special => TwiceSignPlusRecip(TwiceSign(x), x)
    case Tiny => OneMinusX(x)
    case SmallLow => SmallRational(x)
    case SmallHigh => HalfMinusR(x)
    case NearOneBranch => NearOne(!(hx >= 0), ix)
    case TailA => Tail(RaSa, !(hx > 0), ix, SplitHigh(ix))
    case NegativeBeyondSix => TwoMinusTiny
    case TailB => Tail(RbSb, !(hx > 0), ix, SplitHigh(ix))
    case Saturation => if hx > 0 then TinyTiny else TwoMinusTiny
  }

  /** `ALM_PROTO_OPT(erfcf)(x)`. */
  function Kernel(x: u32): FTag
  {
    Reconstruct(BranchOf(Abs32(x), AsSigned32(x)), x)
  }

  // ---------------------------------------------------------------- special values

  /**
   * erfcf(+Inf) = 0, erfcf(-Inf) = 2, erfcf(NaN) is NaN, erfcf(+-0) = 1, and no
   * finite input yields NaN.
   */
  lemma SpecialValues(x: u32)
    ensures x == POS_INF32 ==> Value(Kernel(x)) == Exact(ZERO32)
    ensures x == NEG_INF32 ==> Value(Kernel(x)) == Exact(TWO32)
    ensures IsNaN32(x) ==> Value(Kernel(x)) == AnyNaN
    ensures IsZero32(x) ==> Value(Kernel(x)) == Exact(ONE32)
    ensures !IsNaN32(x) && !IsInf32(x) ==> Value(Kernel(x)) != AnyNaN
  {
  }

  /** Below 2^-26, signed zeros included, the result is 1 - x. */
  lemma TinyInputs(x: u32)
    requires Abs32(x) < B1_SUB1
    ensures Kernel(x) == OneMinusX(x)
  {
  }

  // ---------------------------------------------------------------- the boundary table

  const TABLE: seq<int> :=
    [B1_SUB1 as int, BOUND1 as int, BOUND2 as int, B3_SUB1 as int,
     B3_SUB2 as int, BOUND3 as int, INF_NAN as int]

  /**
   * The branch for interval `k` of TABLE; the small interval is split by the
   * signed `hx`, the interval from 6 to 28 by its sign.
   */
  function BranchAt(k: nat, hx: int): Branch
  {
    if k == 0 then Tiny
    else if k == 1 then (if hx < B1_SUB2 as int then SmallLow else SmallHigh)
    else if k == 2 then NearOneBranch
    else if k == 3 then TailA
    else if k == 4 then TailB
    else if k == 5 then (if hx < 0 then NegativeBeyondSix else TailB)
    else if k == 6 then Saturation
    else Special
  }

  /**
   * The boundaries are strictly increasing, so every `ix` lies in exactly one
   * interval of TABLE, and the chain takes that interval's branch.
   */
  lemma BranchFollowsTable(ix: u32, hx: int)
    ensures Regions.StrictlyIncreasing(TABLE)
    ensures BranchOf(ix, hx) == BranchAt(Regions.Position(TABLE, ix as int), hx)
  {
    var key := ix as int;
    var k: nat :=
      if key < TABLE[0] then 0 else if key < TABLE[1] then 1 else if key < TABLE[2] then 2
      else if key < TABLE[3] then 3 else if key < TABLE[4] then 4 else if key < TABLE[5] then 5
      else if key < TABLE[6] then 6 else 7;
    assert Regions.InInterval(TABLE, key, k);
    Regions.PositionIsInterval(TABLE, key, k);
  }

  // ---------------------------------------------------------------- properties of the chain

  /**
   * The small-region sub-split compares the signed `hx`: every negative input
   * takes 1 - (x + x*y), and 0.5 - r is taken exactly by the positive inputs from 1/4 on.
   */
  lemma SmallSubSplit(x: u32)
    requires B1_SUB1 <= Abs32(x) < BOUND1
    ensures SignBit32(x) ==> Kernel(x) == SmallRational(x)
    ensures Kernel(x) == HalfMinusR(x) <==> !SignBit32(x) && x >= B1_SUB2
    ensures Kernel(x) == SmallRational(x) || Kernel(x) == HalfMinusR(x)
  {
  }

  /**
   * From 0.84375 on, `hx >= 0` and `hx > 0` both say "sign bit clear": they
   * differ only at +0, which never gets here.
   */
  lemma SignTestsAgree(x: u32)
    requires Abs32(x) >= BOUND1
    ensures (AsSigned32(x) >= 0) == !SignBit32(x)
    ensures (AsSigned32(x) > 0) == !SignBit32(x)
  {
  }

  function Mirror(t: FTag): FTag
  {
    match t
    case NearOne(neg, a) => NearOne(!neg, a)
    case Tail(c, neg, a, z) => Tail(c, !neg, a, z)
    case _ => t
  }

  /**
   * Between 0.84375 and 6 the branch depends on |x| only, and the sign choice of
   * the formula is the sign bit.
   */
  lemma SignOnlySelects(x: u32)
    requires BOUND1 <= Abs32(x) < B3_SUB2
    ensures Kernel(Negate32(x)) == Mirror(Kernel(x))
    ensures Kernel(x).NearOne? || Kernel(x).Tail?
    ensures Kernel(x).a == Abs32(x) && Kernel(x).neg == SignBit32(x)
    ensures Kernel(x).Tail? ==> Kernel(x).z == SplitHigh(Abs32(x))
  {
    SignTestsAgree(x);
    SignTestsAgree(Negate32(x));
  }

  /** Which tail coefficients an input uses, both directions. */
  lemma TailCoefficients(x: u32)
    ensures (Kernel(x).Tail? && Kernel(x).c == RaSa) <==> BOUND2 <= Abs32(x) < B3_SUB1
    ensures (Kernel(x).Tail? && Kernel(x).c == RbSb) <==>
              B3_SUB1 <= Abs32(x) < BOUND3 && !(SignBit32(x) && Abs32(x) >= B3_SUB2)
  {
  }

  /**
   * The constant results: a negative input from 6 up to 28 gives TWO - TINY; from
   * 28 on (finite) a positive input gives TINY*TINY = +0 and a negative one TWO - TINY = 2.
   */
  lemma SaturatedValues(x: u32)
    requires !IsNaN32(x) && !IsInf32(x)
    ensures SignBit32(x) && B3_SUB2 <= Abs32(x) ==> Kernel(x) == TwoMinusTiny && Value(Kernel(x)) == Exact(TWO32)
    ensures !SignBit32(x) && Abs32(x) >= BOUND3 ==> Kernel(x) == TinyTiny && Value(Kernel(x)) == Exact(ZERO32)
  {
  }

  /** The split high part keeps the bits of |x| above bit 12 and clears the 13 below. */
  lemma SplitClearsLowBits(ix: u32)
    ensures SplitHigh(ix) % 0x2000 == 0
    ensures SplitHigh(ix) / 0x2000 == ix / 0x2000
    ensures SplitHigh(ix) <= ix && ix - SplitHigh(ix) == ix % 0x2000
  {
  }
}
