/**
 * The 16-lane single-precision erfcf kernel. Its structure follows the 8-lane
 * double kernel, with three differences that matter: the NaN/Inf gate fires when
 * ANY lane is special, the small-region sub-split compares the unsigned bits,
 * and the sign masks are built from the sign bit itself. A lane's result is a
 * scalar `FTag` formula, or one of the two vector-only results of the special
 * path (the integer-built infinity result and `x + x`).
 */
module Vrs16Erfcf {
  import opened Ieee
  import Erfcf

  const LANES: nat := 16

  // The kernel's own copies of the boundaries (the `v_erfcf_data` table).
  const BOUND1: u32 := 0x3F58_0000
  const BOUND2: u32 := 0x3FA0_0000
  const BOUND3: u32 := 0x41E0_0000
  const B1_SUB1: u32 := 0x3280_0000
  const B1_SUB2: u32 := 0x3E80_0000
  const B3_SUB1: u32 := 0x4006_DB6D
  const B3_SUB2: u32 := 0x40C0_0000
  const INF_NAN: u32 := 0x7F80_0000

  /** The vector boundaries are the scalar ones, bit for bit. */
  lemma ConstantsMatchScalar()
    ensures BOUND1 == Erfcf.BOUND1 && BOUND2 == Erfcf.BOUND2 && BOUND3 == Erfcf.BOUND3
    ensures B1_SUB1 == Erfcf.B1_SUB1 && B1_SUB2 == Erfcf.B1_SUB2
    ensures B3_SUB1 == Erfcf.B3_SUB1 && B3_SUB2 == Erfcf.B3_SUB2
    ensures INF_NAN == Erfcf.INF_NAN
  {
  }

  // ---------------------------------------------------------------- lane results

  /** A lane's result: a scalar formula, `_x + _x`, or a raw bit pattern built with integer arithmetic. */
  datatype Lane = Formula(t: Erfcf.FTag) | SumSelf(x: u32) | Bits(b: u32)

  /** What IEEE arithmetic fixes about a lane: x + x is NaN for NaN, and x itself for +-Inf and +-0. */
  function Value(l: Lane): Outcome<u32>
  {
    match l
    case Formula(t) => Erfcf.Value(t)
    case SumSelf(x) =>
      if IsNaN32(x) then AnyNaN else if IsInf32(x) || IsZero32(x) then Exact(x) else Approx
    case Bits(b) => Exact(b)
  }

  /** A lane agrees with a scalar formula when it is that formula or has its exactly-known value. */
  predicate Agree(l: Lane, t: Erfcf.FTag)
  {
    l == Formula(t) || (Value(l) == Erfcf.Value(t) && !Value(l).Approx?)
  }

  // ---------------------------------------------------------------- lane conditions

  /** The vector comparison `ix < c` on |x| bits. */
  function Below(xs: seq<u32>, c: u32): (m: seq<u32>)
    ensures |m| == |xs|
    ensures forall i :: 0 <= i < |xs| ==> (m[i] == ONES32 <==> Abs32(xs[i]) < c)
  {
    seq(|xs|, i requires 0 <= i < |xs| => Mask32(Abs32(xs[i]) < c))
  }

  /** The vector comparison `ix >= c`. */
  function AtLeast(xs: seq<u32>, c: u32): (m: seq<u32>)
    ensures |m| == |xs|
    ensures forall i :: 0 <= i < |xs| ==> (m[i] == ONES32 <==> Abs32(xs[i]) >= c)
  {
    seq(|xs|, i requires 0 <= i < |xs| => Mask32(Abs32(xs[i]) >= c))
  }

  /** `hx & SIGN_BIT_MASK`: the sign bit left in place. */
  function SignPart(x: u32): (s: u32)
    ensures s == (if SignBit32(x) then SIGN32 else 0)
  {
    (x / SIGN32) * SIGN32
  }

  /**
   * `large_cond = (hx & SIGN_BIT_MASK) & (ix >= B3_SUB2)`: the sign bit ANDed
   * with a comparison mask, so at most 0x8000_0000 in each lane.
   */
  function LargeCond(xs: seq<u32>): (m: seq<u32>)
    ensures |m| == |xs|
    ensures forall i :: 0 <= i < |xs| ==> m[i] == AndMask32(SignPart(xs[i]), Abs32(xs[i]) >= B3_SUB2)
  {
    seq(|xs|, i requires 0 <= i < |xs| => AndMask32(SignPart(xs[i]), Abs32(xs[i]) >= B3_SUB2))
  }

  /** `any_v16_u32_loop`: some lane of the condition is set. */
  predicate AnySet32(cond: seq<u32>) { exists i :: 0 <= i < |cond| && cond[i] != 0 }

  /**
   * `pos_mask`: the lanes where `~(hx & SIGN_BIT_MASK)` equals all-ones
   * (`_mm512_cmp_epi32_mask` with `_MM_CMPINT_EQ` against -1).
   */
  predicate PosMask(x: u32) { ONES32 - SignPart(x) == ONES32 }

  /** `inf_mask`: the lanes where `ix == INF_NAN`, compared equal to -1. */
  predicate InfMask(x: u32) { Mask32(Abs32(x) == INF_NAN) == ONES32 }

  /** `inf_result`: the bits of 1.0f plus twice the sign bit, added as integers. */
  function InfResultBits(x: u32): u32
  {
    (x / SIGN32) * 2 + ONE32
  }

  // ---------------------------------------------------------------- the state machine

  datatype Path =
    | SpecialPath | SmallPath | NearOnePath | TailPath(c: Erfcf.Coeffs) | AllTwoPath
    | SaturationPath | ScalarPath

  /**
   * The tests in the order the kernel makes them; the special gate and the
   * range-4 vector are parameters so the corrected kernel can share the chain.
   */
  function PathChain(xs: seq<u32>, special: bool, cond4: seq<u32>): Path
  {
    if special then SpecialPath
    else if AllSet32(Below(xs, BOUND1)) then SmallPath
    else if AllSet32(Below(xs, BOUND2)) && AllSet32(AtLeast(xs, BOUND1)) then NearOnePath
    else if AllSet32(Below(xs, BOUND3)) && AllSet32(AtLeast(xs, BOUND2)) then
      if AllSet32(Below(xs, B3_SUB1)) then TailPath(Erfcf.RaSa)
      else if AllSet32(LargeCond(xs)) then AllTwoPath
      else TailPath(Erfcf.RbSb)
    else if AllSet32(cond4) then SaturationPath
    else ScalarPath
  }

  /** The kernel's chain: the gate is "any lane has `ix >= INF_NAN`", range 4 is `ix >= BOUND3`. */
  function PathOf(xs: seq<u32>): Path
  {
    PathChain(xs, AnySet32(AtLeast(xs, INF_NAN)), AtLeast(xs, BOUND3))
  }

  /** One lane of the path's result. */
  function LaneResult(p: Path, x: u32): Lane
  {
    var ix := Abs32(x);
    var z := Erfcf.SplitHigh(ix);
    match p
    case SpecialPath => Blend(InfMask(x), SumSelf(x), Bits(InfResultBits(x)))
    case SmallPath =>
      var sub1 := Mask32(ix < B1_SUB1) == ONES32;
      var sub2 := Mask32(x < B1_SUB2) == ONES32;   // unsigned compare of hx
      Formula(Blend(sub1, Blend(sub2, Erfcf.HalfMinusR(x), Erfcf.SmallRational(x)), Erfcf.OneMinusX(x)))
    case NearOnePath =>
      Formula(Blend(PosMask(x), Erfcf.NearOne(true, ix), Erfcf.NearOne(false, ix)))
    case TailPath(c) =>
      Formula(Blend(PosMask(x), Erfcf.Tail(c, true, ix, z), Erfcf.Tail(c, false, ix, z)))
    case AllTwoPath => Formula(Erfcf.TwoMinusTiny)
    case SaturationPath => Formula(Blend(PosMask(x), Erfcf.TwoMinusTiny, Erfcf.TinyTiny))
    case ScalarPath => Formula(Erfcf.Kernel(x))
  }

  /** `ALM_PROTO_ARCH_ZN4(vrs16_erfcf)` as written. */
  function Kernel(xs: seq<u32>): (r: seq<Lane>)
    requires |xs| == LANES
  {
    LaneMap(xs, x => LaneResult(PathOf(xs), x))
  }

  // ---------------------------------------------------------------- the imperative kernel

  /** `test_condition_for_all_v16`: 1 when every lane is all-ones, 0 at the first lane that is not. */
  method TestConditionForAll(cond: seq<u32>) returns (r: int)
    requires |cond| == LANES
    ensures r == (if AllSet32(cond) then 1 else 0)
  {
    var i := 0;
    while i < LANES
      invariant 0 <= i <= LANES
      invariant forall j :: 0 <= j < i ==> cond[j] == ONES32
    {
      if cond[i] != ONES32 {
        return 0;
      }
      i := i + 1;
    }
    return 1;
  }

  /** The fallback loop: `result[i]` is filled with the scalar kernel's result for lane i. */
  method ScalarLanes(xs: seq<u32>, scalar: u32 -> Erfcf.FTag) returns (result: seq<Lane>)
    requires |xs| == LANES
    ensures |result| == LANES && forall i :: 0 <= i < LANES ==> result[i] == Formula(scalar(xs[i]))
  {
    var lanes := new Lane[LANES](_ => Bits(0));
    var i := 0;
    while i < LANES
      invariant 0 <= i <= LANES
      invariant forall j :: 0 <= j < i ==> lanes[j] == Formula(scalar(xs[j]))
    {
      lanes[i] := Formula(scalar(xs[i]));
      i := i + 1;
    }
    result := lanes[..];
  }

  /** The kernel's tests, made in its order, up to the first that holds. */
  method SelectPath(xs: seq<u32>) returns (p: Path)
    requires |xs| == LANES
    ensures p == PathOf(xs)
  {
    if AnySet32(AtLeast(xs, INF_NAN)) {
      return SpecialPath;
    }
    var t := TestConditionForAll(Below(xs, BOUND1));
    if t == 1 {
      return SmallPath;
    }
    // `&&` evaluates its second test only when the first holds.
    var t2 := TestConditionForAll(Below(xs, BOUND2));
    var t2a := 0;
    if t2 == 1 {
      t2a := TestConditionForAll(AtLeast(xs, BOUND1));
    }
    if t2 == 1 && t2a == 1 {
      return NearOnePath;
    }
    var t3 := TestConditionForAll(Below(xs, BOUND3));
    var t3a := 0;
    if t3 == 1 {
      t3a := TestConditionForAll(AtLeast(xs, BOUND2));
    }
    if t3 == 1 && t3a == 1 {
      var sub := TestConditionForAll(Below(xs, B3_SUB1));
      if sub == 1 {
        return TailPath(Erfcf.RaSa);
      }
      var large := TestConditionForAll(LargeCond(xs));
      return if large == 1 then AllTwoPath else TailPath(Erfcf.RbSb);
    }
    var t4 := TestConditionForAll(AtLeast(xs, BOUND3));
    p := if t4 == 1 then SaturationPath else ScalarPath;
  }

  /** The kernel step by step: the selected path's lane formulas, or the scalar fallback loop. */
  method Evaluate(xs: seq<u32>) returns (result: seq<Lane>)
    requires |xs| == LANES
    ensures result == Kernel(xs)
  {
    var p := SelectPath(xs);
    if p != ScalarPath {
      result := LaneMap(xs, x => LaneResult(p, x));
      return;
    }
    result := ScalarLanes(xs, Erfcf.Kernel);
    assert result == LaneMap(xs, x => LaneResult(ScalarPath, x));
  }

  // ---------------------------------------------------------------- masks

  /** `pos_mask` is set exactly in the lanes whose sign bit is clear. */
  lemma PosMaskIsSignClear(x: u32)
    ensures PosMask(x) <==> !SignBit32(x)
  {
  }

  /** `large_cond` is never all-ones in a lane, so its all-lanes test never holds. */
  lemma LargeCondNeverSet(xs: seq<u32>)
    requires |xs| == LANES
    ensures forall i :: 0 <= i < LANES ==> LargeCond(xs)[i] != ONES32
    ensures !AllSet32(LargeCond(xs))
  {
    assert LargeCond(xs)[0] != ONES32;
  }

  /** Hence the `TWO - TINY` early return is unreachable. */
  lemma AllTwoUnreachable(xs: seq<u32>)
    requires |xs| == LANES
    ensures PathOf(xs) != AllTwoPath
  {
    LargeCondNeverSet(xs);
  }

  // ---------------------------------------------------------------- what each path knows about its lanes

  predicate LaneCondition(p: Path, x: u32)
  {
    var ix := Abs32(x);
    match p
    case SpecialPath => true
    case SmallPath => ix < BOUND1
    case NearOnePath => BOUND1 <= ix < BOUND2
    case TailPath(c) => BOUND2 <= ix < BOUND3 && (c == Erfcf.RaSa ==> ix < B3_SUB1)
    case AllTwoPath => false
    case SaturationPath => BOUND3 <= ix < INF_NAN
    case ScalarPath => true
  }

  /**
   * A fast path is taken only when its tests held: every lane satisfies the
   * path's condition, given that a set range-4 lane is from 28 on and, when the
   * gate did not fire, finite.
   */
  lemma ChainLanes(xs: seq<u32>, special: bool, cond4: seq<u32>)
    requires |xs| == LANES && |cond4| == LANES
    requires !special ==> forall i :: 0 <= i < LANES && cond4[i] == ONES32 ==> BOUND3 <= Abs32(xs[i]) < INF_NAN
    ensures forall i :: 0 <= i < LANES ==> LaneCondition(PathChain(xs, special, cond4), xs[i])
  {
    var p := PathChain(xs, special, cond4);
    LargeCondNeverSet(xs);
    forall i | 0 <= i < LANES
      ensures LaneCondition(p, xs[i])
    {
      match p
      case SpecialPath =>
      case SmallPath =>
        assert Below(xs, BOUND1)[i] == ONES32;
      case NearOnePath =>
        assert Below(xs, BOUND2)[i] == ONES32 && AtLeast(xs, BOUND1)[i] == ONES32;
      case TailPath(c) =>
        assert Below(xs, BOUND3)[i] == ONES32 && AtLeast(xs, BOUND2)[i] == ONES32;
        if c == Erfcf.RaSa {
          assert Below(xs, B3_SUB1)[i] == ONES32;
        }
      case AllTwoPath =>
        assert false;
      case SaturationPath =>
        assert cond4[i] == ONES32;
      case ScalarPath =>
    }
  }

  /** The kernel's path: every lane satisfies the condition of the path taken. */
  lemma PathLanes(xs: seq<u32>)
    requires |xs| == LANES
    ensures forall i :: 0 <= i < LANES ==> LaneCondition(PathOf(xs), xs[i])
  {
    var gate := AtLeast(xs, INF_NAN);
    if !AnySet32(gate) {
      forall i | 0 <= i < LANES
        ensures Abs32(xs[i]) < INF_NAN
      {
        assert gate[i] == 0;
      }
    }
    ChainLanes(xs, AnySet32(gate), AtLeast(xs, BOUND3));
  }

  // ---------------------------------------------------------------- agreement with the scalar kernel

  /**
   * The lanes where a path's result and the scalar kernel's disagree: every
   * non-NaN lane on the special path, the negative lanes of the small region
   * from 2^-26 on, and the lanes the joint RB/SB choice takes away from RA/SA or
   * from TWO - TINY.
   */
  predicate Divergent(p: Path, x: u32)
  {
    var ix := Abs32(x);
    match p
    case SpecialPath => !IsNaN32(x)
    case SmallPath => SignBit32(x) && ix >= B1_SUB1
    case TailPath(c) => c == Erfcf.RbSb && (ix < B3_SUB1 || (SignBit32(x) && ix >= B3_SUB2))
    case _ => false
  }

  lemma LaneVersusScalar(p: Path, x: u32)
    requires LaneCondition(p, x)
    ensures Agree(LaneResult(p, x), Erfcf.Kernel(x)) <==> !Divergent(p, x)
  {
    if p.SpecialPath? {
      Erfcf.SpecialValues(x);
    } else if !p.ScalarPath? && !p.SmallPath? {
      Erfcf.SignTestsAgree(x);
    }
  }

  /**
   * Lane i of the vector kernel agrees with the scalar erfcf of `xs[i]` if and
   * only if the lane is not divergent on the path the vector took.
   */
  lemma LaneAgreement(xs: seq<u32>)
    requires |xs| == LANES
    ensures forall i :: 0 <= i < LANES ==>
      (Agree(Kernel(xs)[i], Erfcf.Kernel(xs[i])) <==> !Divergent(PathOf(xs), xs[i]))
  {
    PathLanes(xs);
    forall i | 0 <= i < LANES
      ensures Agree(Kernel(xs)[i], Erfcf.Kernel(xs[i])) <==> !Divergent(PathOf(xs), xs[i])
    {
      LaneVersusScalar(PathOf(xs), xs[i]);
    }
  }

  /**
   * The sign choice in the near-one, tail and saturation blends is the sign bit,
   * as in the scalar kernel; those lanes agree exactly.
   */
  lemma SignSelectionMatches(xs: seq<u32>)
    requires |xs| == LANES
    requires PathOf(xs) == NearOnePath || PathOf(xs) == SaturationPath || PathOf(xs) == TailPath(Erfcf.RaSa)
    ensures forall i :: 0 <= i < LANES ==> Kernel(xs)[i] == Formula(Erfcf.Kernel(xs[i]))
  {
    PathLanes(xs);
    forall i | 0 <= i < LANES
      ensures Kernel(xs)[i] == Formula(Erfcf.Kernel(xs[i]))
    {
      LaneVersusScalar(PathOf(xs), xs[i]);
    }
  }

  // ---------------------------------------------------------------- inputs that show the divergences

  const POS_INF: u32 := 0x7F80_0000
  const QUIET_NAN: u32 := 0x7FC0_0000
  const PLUS_ZERO: u32 := 0x0000_0000
  const MINUS_HALF: u32 := 0xBF00_0000
  const HALF: u32 := 0x3F00_0000
  const ONE_AND_HALF: u32 := 0x3FC0_0000
  const THREE: u32 := 0x4040_0000
  const MINUS_SEVEN: u32 := 0xC0E0_0000

  /** One NaN lane sends every lane to the special blend: a +0 lane gives +0 where erfcf(0) is 1. */
  lemma AnyLaneGate()
    ensures var xs := Splat(LANES, QUIET_NAN, PLUS_ZERO);
      PathOf(xs) == SpecialPath && Value(Kernel(xs)[1]) == Exact(ZERO32)
    ensures Erfcf.Value(Erfcf.Kernel(PLUS_ZERO)) == Exact(ONE32)
  {
    var xs := Splat(LANES, QUIET_NAN, PLUS_ZERO);
    assert AtLeast(xs, INF_NAN)[0] != 0;
    assert Kernel(xs)[1] == LaneResult(SpecialPath, PLUS_ZERO);
    Erfcf.SpecialValues(PLUS_ZERO);
  }

  /** +Inf lanes get the bits of 1.0f (and -Inf lanes 0x3F80_0002) where erfcf gives 0 and 2. */
  lemma IntegerInfResult()
    ensures var xs := Splat(LANES, POS_INF, NEG_INF32);
      PathOf(xs) == SpecialPath && Value(Kernel(xs)[0]) == Exact(ONE32)
      && Value(Kernel(xs)[1]) == Exact(0x3F80_0002)
    ensures Erfcf.Value(Erfcf.Kernel(POS_INF)) == Exact(ZERO32)
    ensures Erfcf.Value(Erfcf.Kernel(NEG_INF32)) == Exact(TWO32)
  {
    var xs := Splat(LANES, POS_INF, NEG_INF32);
    assert AtLeast(xs, INF_NAN)[0] != 0;
    assert Kernel(xs)[0] == LaneResult(SpecialPath, POS_INF);
    assert Kernel(xs)[1] == LaneResult(SpecialPath, NEG_INF32);
    Erfcf.SpecialValues(POS_INF);
    Erfcf.SpecialValues(NEG_INF32);
  }

  /** The unsigned sub-split sends -0.5 to 0.5 - r, where the scalar takes 1 - (x + x*y). */
  lemma UnsignedSubSplit()
    ensures var xs := Splat(LANES, MINUS_HALF, HALF);
      PathOf(xs) == SmallPath && Kernel(xs)[0] == Formula(Erfcf.HalfMinusR(MINUS_HALF))
    ensures Erfcf.Kernel(MINUS_HALF) == Erfcf.SmallRational(MINUS_HALF)
  {
    var xs := Splat(LANES, MINUS_HALF, HALF);
    assert !AnySet32(AtLeast(xs, INF_NAN));
    assert AllSet32(Below(xs, BOUND1));
    assert Kernel(xs)[0] == LaneResult(SmallPath, MINUS_HALF);
  }

  /**
   * A vector inside the tail region with one lane from 1/0.35 on takes the joint
   * RB/SB path (the all-negative test can never hold).
   */
  lemma JointRbSbPath(xs: seq<u32>, j: nat)
    requires |xs| == LANES && j < LANES
    requires forall i :: 0 <= i < LANES ==> BOUND2 <= Abs32(xs[i]) < BOUND3
    requires Abs32(xs[j]) >= B3_SUB1
    ensures PathOf(xs) == TailPath(Erfcf.RbSb)
  {
    var gate := AtLeast(xs, INF_NAN);
    assert !AnySet32(gate) by {
      forall i | 0 <= i < LANES ensures gate[i] == 0 { }
    }
    assert Below(xs, BOUND1)[j] != ONES32;
    assert Below(xs, BOUND2)[j] != ONES32;
    assert AllSet32(Below(xs, BOUND3)) && AllSet32(AtLeast(xs, BOUND2));
    assert Below(xs, B3_SUB1)[j] != ONES32;
    LargeCondNeverSet(xs);
  }

  /** A lane of 1.5 beside lanes of 3.0 is evaluated with RB/SB, where the scalar uses RA/SA. */
  lemma JointTailCoefficients()
    ensures var xs := Splat(LANES, ONE_AND_HALF, THREE);
      PathOf(xs) == TailPath(Erfcf.RbSb) && Kernel(xs)[0].Formula? && Kernel(xs)[0].t.Tail?
      && Kernel(xs)[0].t.c == Erfcf.RbSb
    ensures Erfcf.Kernel(ONE_AND_HALF).Tail? && Erfcf.Kernel(ONE_AND_HALF).c == Erfcf.RaSa
  {
    var xs := Splat(LANES, ONE_AND_HALF, THREE);
    JointRbSbPath(xs, 1);
    assert Kernel(xs)[0] == LaneResult(TailPath(Erfcf.RbSb), ONE_AND_HALF);
    Erfcf.TailCoefficients(ONE_AND_HALF);
  }

  /** Sixteen lanes of -7 compute 2 - r/|x| with RB/SB, where the scalar returns TWO - TINY. */
  lemma NegativeBeyondSixNotConstant()
    ensures var xs := Splat(LANES, MINUS_SEVEN, MINUS_SEVEN);
      PathOf(xs) == TailPath(Erfcf.RbSb) && Kernel(xs)[0].Formula? && Kernel(xs)[0].t.Tail?
    ensures Erfcf.Kernel(MINUS_SEVEN) == Erfcf.TwoMinusTiny
  {
    var xs := Splat(LANES, MINUS_SEVEN, MINUS_SEVEN);
    JointRbSbPath(xs, 0);
    assert Kernel(xs)[0] == LaneResult(TailPath(Erfcf.RbSb), MINUS_SEVEN);
  }

  // ---------------------------------------------------------------- the corrected kernel

  /** The range-4 test restricted to finite lanes: `BOUND3 <= ix < INF_NAN`. */
  function FiniteAtLeast(xs: seq<u32>, c: u32): (m: seq<u32>)
    ensures |m| == |xs|
    ensures forall i :: 0 <= i < |xs| ==> (m[i] == ONES32 <==> c <= Abs32(xs[i]) < INF_NAN)
  {
    seq(|xs|, i requires 0 <= i < |xs| => Mask32(c <= Abs32(xs[i]) < INF_NAN))
  }

  /** The corrected chain: the special gate requires every lane, range 4 only finite lanes. */
  function FixedPathOf(xs: seq<u32>): Path
  {
    PathChain(xs, AllSet32(AtLeast(xs, INF_NAN)), FiniteAtLeast(xs, BOUND3))
  }

  /**
   * The corrected lane formulas: the infinity result is the float 0 or 2, the
   * sub-split compares the signed `hx`, and the tail picks its coefficients and
   * TWO - TINY per lane.
   */
  function FixedLaneResult(p: Path, x: u32): Lane
  {
    var ix := Abs32(x);
    var z := Erfcf.SplitHigh(ix);
    match p
    case SpecialPath => Blend(InfMask(x), SumSelf(x), Bits(if SignBit32(x) then TWO32 else ZERO32))
    case SmallPath =>
      var sub1 := ix < B1_SUB1;
      var sub2 := AsSigned32(x) < B1_SUB2 as int;
      Formula(Blend(sub1, Blend(sub2, Erfcf.HalfMinusR(x), Erfcf.SmallRational(x)), Erfcf.OneMinusX(x)))
    case TailPath(_) =>
      var c := if ix < B3_SUB1 then Erfcf.RaSa else Erfcf.RbSb;
      var tail := Blend(PosMask(x), Erfcf.Tail(c, true, ix, z), Erfcf.Tail(c, false, ix, z));
      Formula(Blend(SignBit32(x) && ix >= B3_SUB2, tail, Erfcf.TwoMinusTiny))
    case _ => LaneResult(p, x)
  }

  function FixedKernel(xs: seq<u32>): seq<Lane>
    requires |xs| == LANES
  {
    LaneMap(xs, x => FixedLaneResult(FixedPathOf(xs), x))
  }

  lemma FixedLaneVersusScalar(p: Path, x: u32)
    requires LaneCondition(p, x) && (p == SpecialPath ==> Abs32(x) >= INF_NAN)
    ensures Agree(FixedLaneResult(p, x), Erfcf.Kernel(x))
  {
    if p.SpecialPath? {
      Erfcf.SpecialValues(x);
    } else if p.SmallPath? {
      if Abs32(x) >= B1_SUB1 {
        Erfcf.SmallSubSplit(x);
      }
    } else if !p.ScalarPath? {
      Erfcf.SignTestsAgree(x);
      if !p.TailPath? {
        LaneVersusScalar(p, x);
      }
    }
  }

  /** Every lane of the corrected kernel agrees with the scalar erfcf of that lane. */
  lemma FixedAgreesWithScalar(xs: seq<u32>)
    requires |xs| == LANES
    ensures forall i :: 0 <= i < LANES ==> Agree(FixedKernel(xs)[i], Erfcf.Kernel(xs[i]))
  {
    var p := FixedPathOf(xs);
    var gate := AtLeast(xs, INF_NAN);
    ChainLanes(xs, AllSet32(gate), FiniteAtLeast(xs, BOUND3));
    forall i | 0 <= i < LANES
      ensures Agree(FixedKernel(xs)[i], Erfcf.Kernel(xs[i]))
    {
      if p == SpecialPath {
        assert gate[i] == ONES32;
      }
      FixedLaneVersusScalar(p, xs[i]);
    }
  }
}
