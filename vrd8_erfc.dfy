/**
 * The 8-lane double-precision erfc kernel: a state machine that tests lane
 * conditions for all lanes at once, takes a region's fast path only when every
 * lane is in that region, and otherwise evaluates the scalar kernel lane by lane.
 * Each lane's result is a formula of the scalar kernel's `DTag` type, so a lane
 * agrees with the scalar kernel exactly when the formulas agree.
 */
module Vrd8Erfc {
  import opened Ieee
  import Erfc

  const LANES: nat := 8

  // The kernel's own copies of the boundaries (the `v8_erfc_data` table).
  const BOUND1: u32 := 0x3FEB_0000
  const BOUND2: u32 := 0x3FF4_0000
  const BOUND3: u32 := 0x403C_0000
  const B1_SUB1: u32 := 0x3E30_0000
  const B1_SUB2: u32 := 0x0080_0000
  const B3_SUB1: u32 := 0x4006_DB6D
  const B3_SUB2: u32 := 0x4018_0000
  const INF_NAN: u32 := 0x7FF0_0000
  const INF: u64 := 0x7FF0_0000_0000_0000

  /** The vector boundaries are the scalar ones, bit for bit. */
  lemma ConstantsMatchScalar()
    ensures BOUND1 == Erfc.BOUND1 && BOUND2 == Erfc.BOUND2 && BOUND3 == Erfc.BOUND3
    ensures B1_SUB1 == Erfc.B1_SUB1 && B1_SUB2 == Erfc.B1_SUB2
    ensures B3_SUB1 == Erfc.B3_SUB1 && B3_SUB2 == Erfc.B3_SUB2
    ensures INF_NAN == Erfc.INF_NAN && INF == Erfc.INF
  {
  }

  // ---------------------------------------------------------------- lane conditions

  // `ix` and the split high part are computed lane-wise exactly as in the scalar
  // kernel (`(ux_abs >> 32) & mask_32`, `ux_abs & MASK_32_DP64`): Erfc.Key, Erfc.HighPart.

  /** The vector comparison `ix < c`: all-ones in the lanes where it holds. */
  function Below(xs: seq<u64>, c: u32): (m: seq<u64>)
    ensures |m| == |xs|
    ensures forall i :: 0 <= i < |xs| ==> (m[i] == ONES64 <==> Erfc.Key(xs[i]) < c)
  {
    seq(|xs|, i requires 0 <= i < |xs| => Mask64(Erfc.Key(xs[i]) < c))
  }

  /** The vector comparison `ix >= c`. */
  function AtLeast(xs: seq<u64>, c: u32): (m: seq<u64>)
    ensures |m| == |xs|
    ensures forall i :: 0 <= i < |xs| ==> (m[i] == ONES64 <==> Erfc.Key(xs[i]) >= c)
  {
    seq(|xs|, i requires 0 <= i < |xs| => Mask64(Erfc.Key(xs[i]) >= c))
  }

  /** `large_cond = (sign != 0) & (ix >= B3_SUB2)`: the AND of two comparison masks. */
  function LargeCond(xs: seq<u64>): (m: seq<u64>)
    ensures |m| == |xs|
    ensures forall i :: 0 <= i < |xs| ==> (m[i] == ONES64 <==> SignBit64(xs[i]) && Erfc.Key(xs[i]) >= B3_SUB2)
  {
    seq(|xs|, i requires 0 <= i < |xs| => Mask64(SignBit64(xs[i]) && Erfc.Key(xs[i]) >= B3_SUB2))
  }

  /** `sign_mask = _x < 0` (_CMP_LT_OQ): false for NaN lanes and for -0. */
  predicate SignMask(x: u64) { LessThanZero64(x) }

  /**
   * `inf_cond_mask`: the all-ones / zero lane of `ux_abs == INF`, reinterpreted as
   * a double and compared `!= 0.0` with _CMP_NEQ_OQ. All-ones is a NaN pattern,
   * and an ordered comparison with NaN is false.
   */
  predicate InfCondMask(x: u64)
  {
    var lane := Mask64(Abs64(x) == INF);
    !IsNaN64(lane) && !IsZero64(lane)
  }

  /** `_mm512_movepi64_mask`: the mask bit is the lane's top bit. */
  predicate TopBit(lane: u64) { SignBit64(lane) }

  // ---------------------------------------------------------------- the state machine

  datatype Path =
    | SpecialPath | SmallPath | NearOnePath | TailPath(c: Erfc.Coeffs) | AllTwoPath
    | SaturationPath | ScalarPath

  /**
   * The sequence of all-lanes tests, in the order the kernel makes them; `cond4`
   * is the range-4 condition vector (kept apart so that the corrected kernel
   * below can share the rest of the chain).
   */
  function PathChain(xs: seq<u64>, cond4: seq<u64>): Path
  {
    if AllSet64(AtLeast(xs, INF_NAN)) then SpecialPath
    else if AllSet64(Below(xs, BOUND1)) then SmallPath
    else if AllSet64(Below(xs, BOUND2)) && AllSet64(AtLeast(xs, BOUND1)) then NearOnePath
    else if AllSet64(Below(xs, BOUND3)) && AllSet64(AtLeast(xs, BOUND2)) then
      if AllSet64(Below(xs, B3_SUB1)) then TailPath(Erfc.RaSa)
      else if AllSet64(LargeCond(xs)) then AllTwoPath
      else TailPath(Erfc.RbSb)
    else if AllSet64(cond4) then SaturationPath
    else ScalarPath
  }

  /** The kernel's chain: range 4 is `ix >= BOUND3`. */
  function PathOf(xs: seq<u64>): Path
  {
    PathChain(xs, AtLeast(xs, BOUND3))
  }

  /** One lane of the path's result: the path's formulas, blended by the lane's masks. */
  function LaneResult(p: Path, x: u64): Erfc.DTag
  {
    var a := Abs64(x);
    match p
    case SpecialPath =>
      Blend(InfCondMask(x), Erfc.SubSelf(x), Blend(SignMask(x), Erfc.Zero, Erfc.Two))
    case SmallPath =>
      var sub1 := TopBit(Mask64(Erfc.Key(x) < B1_SUB1));
      var sub2 := TopBit(Mask64(Erfc.Key(x) < B1_SUB2));
      Blend(sub2, Blend(sub1, Erfc.SmallRational(x), Erfc.OneMinusX(x)), Erfc.OneMinusXPlusSquare(x))
    case NearOnePath =>
      Blend(SignMask(x), Erfc.NearOne(false, a), Erfc.NearOne(true, a))
    case TailPath(c) =>
      Blend(SignMask(x), Erfc.Tail(c, false, a, Erfc.HighPart(a)), Erfc.Tail(c, true, a, Erfc.HighPart(a)))
    case AllTwoPath => Erfc.Two
    case SaturationPath => Blend(SignMask(x), Erfc.TinyTiny, Erfc.Two)
    case ScalarPath => Erfc.Kernel(x)
  }

  /** `ALM_PROTO_ARCH_ZN4(vrd8_erfc)` as written. */
  function Kernel(xs: seq<u64>): (r: seq<Erfc.DTag>)
    requires |xs| == LANES
  {
    LaneMap(xs, x => LaneResult(PathOf(xs), x))
  }

  // ---------------------------------------------------------------- the imperative kernel

  /** `test_condition_for_all`: 1 when every lane is all-ones, 0 at the first lane that is not. */
  method TestConditionForAll(cond: seq<u64>) returns (r: int)
    requires |cond| == LANES
    ensures r == (if AllSet64(cond) then 1 else 0)
  {
    var i := 0;
    while i < LANES
      invariant 0 <= i <= LANES
      invariant forall j :: 0 <= j < i ==> cond[j] == ONES64
    {
      if cond[i] != ONES64 {
        return 0;
      }
      i := i + 1;
    }
    return 1;
  }

  /** The fallback loop: `result[i]` is filled with the scalar kernel's result for lane i. */
  method ScalarLanes(xs: seq<u64>, scalar: u64 -> Erfc.DTag) returns (result: seq<Erfc.DTag>)
    requires |xs| == LANES
    ensures |result| == LANES && forall i :: 0 <= i < LANES ==> result[i] == scalar(xs[i])
  {
    var lanes := new Erfc.DTag[LANES](_ => Erfc.Zero);
    var i := 0;
    while i < LANES
      invariant 0 <= i <= LANES
      invariant forall j :: 0 <= j < i ==> lanes[j] == scalar(xs[j])
    {
      lanes[i] := scalar(xs[i]);
      i := i + 1;
    }
    result := lanes[..];
  }

  /** The all-lanes tests of the kernel, made in its order, up to the first that holds. */
  method SelectPath(xs: seq<u64>) returns (p: Path)
    requires |xs| == LANES
    ensures p == PathOf(xs)
  {
    var t := TestConditionForAll(AtLeast(xs, INF_NAN));
    if t == 1 {
      p := SpecialPath;
    } else {
      t := TestConditionForAll(Below(xs, BOUND1));
      if t == 1 {
        p := SmallPath;
      } else {
        // `&&` evaluates its second test only when the first holds.
        var t2 := TestConditionForAll(Below(xs, BOUND2));
        var t2a := 0;
        if t2 == 1 {
          t2a := TestConditionForAll(AtLeast(xs, BOUND1));
        }
        if t2 == 1 && t2a == 1 {
          p := NearOnePath;
        } else {
          var t3 := TestConditionForAll(Below(xs, BOUND3));
          var t3a := 0;
          if t3 == 1 {
            t3a := TestConditionForAll(AtLeast(xs, BOUND2));
          }
          if t3 == 1 && t3a == 1 {
            var sub := TestConditionForAll(Below(xs, B3_SUB1));
            if sub == 1 {
              p := TailPath(Erfc.RaSa);
            } else {
              var large := TestConditionForAll(LargeCond(xs));
              p := if large == 1 then AllTwoPath else TailPath(Erfc.RbSb);
            }
          } else {
            var t4 := TestConditionForAll(AtLeast(xs, BOUND3));
            p := if t4 == 1 then SaturationPath else ScalarPath;
          }
        }
      }
    }
  }

  /**
   * The kernel step by step: the path the all-lanes tests select, then a fast
   * path's lane formulas, or the fallback loop that fills `result[i]` with the
   * scalar kernel.
   */
  method Evaluate(xs: seq<u64>) returns (result: seq<Erfc.DTag>)
    requires |xs| == LANES
    ensures result == Kernel(xs)
  {
    var p := SelectPath(xs);
    if p != ScalarPath {
      result := LaneMap(xs, x => LaneResult(p, x));
      return;
    }
    result := ScalarLanes(xs, Erfc.Kernel);
    assert result == LaneMap(xs, x => LaneResult(ScalarPath, x));
  }

  // ---------------------------------------------------------------- what each path knows about its lanes

  /** What every lane satisfies once the chain has chosen path `p`. */
  predicate LaneCondition(p: Path, x: u64)
  {
    var ix := Erfc.Key(x);
    match p
    case SpecialPath => ix >= INF_NAN
    case SmallPath => ix < BOUND1
    case NearOnePath => BOUND1 <= ix < BOUND2
    case TailPath(c) => BOUND2 <= ix < BOUND3 && (c == Erfc.RaSa ==> ix < B3_SUB1)
    case AllTwoPath => BOUND2 <= ix < BOUND3 && SignBit64(x) && ix >= B3_SUB2
    case SaturationPath => ix >= BOUND3
    case ScalarPath => true
  }

  /**
   * A fast path is taken only when its all-lanes tests held: every lane then
   * satisfies the path's condition (given that the range-4 vector has the
   * kernel's meaning, or a stronger one).
   */
  lemma ChainLanes(xs: seq<u64>, cond4: seq<u64>)
    requires |xs| == LANES && |cond4| == LANES
    requires forall i :: 0 <= i < LANES && cond4[i] == ONES64 ==> Erfc.Key(xs[i]) >= BOUND3
    ensures forall i :: 0 <= i < LANES ==> LaneCondition(PathChain(xs, cond4), xs[i])
  {
    var p := PathChain(xs, cond4);
    forall i | 0 <= i < LANES
      ensures LaneCondition(p, xs[i])
    {
      var ix := Erfc.Key(xs[i]);
      match p
      case SpecialPath =>
        assert AtLeast(xs, INF_NAN)[i] == ONES64;
      case SmallPath =>
        assert Below(xs, BOUND1)[i] == ONES64;
      case NearOnePath =>
        assert Below(xs, BOUND2)[i] == ONES64 && AtLeast(xs, BOUND1)[i] == ONES64;
      case TailPath(c) =>
        assert Below(xs, BOUND3)[i] == ONES64 && AtLeast(xs, BOUND2)[i] == ONES64;
        if c == Erfc.RaSa {
          assert Below(xs, B3_SUB1)[i] == ONES64;
        }
      case AllTwoPath =>
        assert Below(xs, BOUND3)[i] == ONES64 && AtLeast(xs, BOUND2)[i] == ONES64;
        assert LargeCond(xs)[i] == ONES64;
      case SaturationPath =>
        assert cond4[i] == ONES64;
      case ScalarPath =>
    }
  }

  /** The kernel's path: every lane satisfies the condition of the path taken. */
  lemma PathLanes(xs: seq<u64>)
    requires |xs| == LANES
    ensures forall i :: 0 <= i < LANES ==> LaneCondition(PathOf(xs), xs[i])
  {
    ChainLanes(xs, AtLeast(xs, BOUND3));
  }

  /**
   * `sign_mask` (_x < 0) is the sign bit on every lane that reaches the
   * near-one or the tail blends: such a lane is neither zero nor NaN.
   */
  lemma SignMaskOnBlendedLanes(xs: seq<u64>)
    requires |xs| == LANES
    requires PathOf(xs).NearOnePath? || PathOf(xs).TailPath?
    ensures forall i :: 0 <= i < LANES ==> (SignMask(xs[i]) <==> SignBit64(xs[i]))
  {
    PathLanes(xs);
    forall i | 0 <= i < LANES
      ensures SignMask(xs[i]) <==> SignBit64(xs[i])
    {
      Erfc.KeyClassifies(xs[i]);
    }
  }

  /** `inf_cond_mask` is never set: the all-ones lane it tests is a NaN pattern. */
  lemma InfCondMaskNeverSet(x: u64)
    ensures !InfCondMask(x)
  {
    assert IsNaN64(ONES64);
  }

  // ---------------------------------------------------------------- agreement with the scalar kernel

  /**
   * The lanes where a path's formula and the scalar kernel's disagree: the
   * infinities on the special path, the lanes the joint RB/SB choice takes away
   * from RA/SA or from the constant 2, and the NaN lanes on the saturation path.
   */
  predicate Divergent(p: Path, x: u64)
  {
    var ix := Erfc.Key(x);
    match p
    case SpecialPath => IsInf64(x)
    case TailPath(c) => c == Erfc.RbSb && (ix < B3_SUB1 || (SignBit64(x) && ix >= B3_SUB2))
    case SaturationPath => IsNaN64(x)
    case _ => false
  }

  /** One lane under its path's condition agrees with the scalar kernel exactly when it is not divergent. */
  lemma LaneVersusScalar(p: Path, x: u64)
    requires LaneCondition(p, x)
    ensures Erfc.Agree(LaneResult(p, x), Erfc.Kernel(x)) <==> !Divergent(p, x)
  {
    Erfc.KeyClassifies(x);
    Erfc.MagnitudeOfInfinity(x);
    InfCondMaskNeverSet(x);
  }

  /**
   * Lane i of the vector kernel agrees with the scalar erfc of `xs[i]` if and
   * only if the lane is not divergent on the path the vector took.
   */
  lemma LaneAgreement(xs: seq<u64>)
    requires |xs| == LANES
    ensures forall i :: 0 <= i < LANES ==>
      (Erfc.Agree(Kernel(xs)[i], Erfc.Kernel(xs[i])) <==> !Divergent(PathOf(xs), xs[i]))
  {
    PathLanes(xs);
    forall i | 0 <= i < LANES
      ensures Erfc.Agree(Kernel(xs)[i], Erfc.Kernel(xs[i])) <==> !Divergent(PathOf(xs), xs[i])
    {
      LaneVersusScalar(PathOf(xs), xs[i]);
    }
  }

  /**
   * The small-region blends (sub1, then sub2 over it) pick, lane by lane, the
   * formula of the scalar nesting, because B1_SUB2 < B1_SUB1.
   */
  lemma SmallBlendOrder(xs: seq<u64>)
    requires |xs| == LANES && PathOf(xs) == SmallPath
    ensures forall i :: 0 <= i < LANES ==> Kernel(xs)[i] == Erfc.Kernel(xs[i])
  {
    PathLanes(xs);
    forall i | 0 <= i < LANES
      ensures Kernel(xs)[i] == Erfc.Kernel(xs[i])
    {
      LaneVersusScalar(SmallPath, xs[i]);
    }
  }

  /** Whenever the vector takes the fallback, every lane is exactly the scalar result. */
  lemma FallbackIsScalar(xs: seq<u64>)
    requires |xs| == LANES && PathOf(xs) == ScalarPath
    ensures forall i :: 0 <= i < LANES ==> Kernel(xs)[i] == Erfc.Kernel(xs[i])
  {
  }

  // ---------------------------------------------------------------- inputs that show the divergences

  const PLUS_INF: u64 := 0x7FF0_0000_0000_0000
  const QUIET_NAN: u64 := 0x7FF8_0000_0000_0000
  const ONE_AND_HALF: u64 := 0x3FF8_0000_0000_0000
  const THREE: u64 := 0x4008_0000_0000_0000
  const MINUS_SEVEN: u64 := 0xC01C_0000_0000_0000
  const TWENTY_EIGHT: u64 := 0x403C_0000_0000_0000

  /** The keys of the sample inputs. */
  lemma SampleKeys()
    ensures Erfc.Key(PLUS_INF) == 0x7FF0_0000 && Erfc.Key(QUIET_NAN) == 0x7FF8_0000
    ensures Erfc.Key(ONE_AND_HALF) == 0x3FF8_0000 && Erfc.Key(THREE) == 0x4008_0000
    ensures Erfc.Key(MINUS_SEVEN) == 0x401C_0000 && Erfc.Key(TWENTY_EIGHT) == 0x403C_0000
    ensures SignBit64(MINUS_SEVEN) && !SignBit64(THREE) && !SignBit64(ONE_AND_HALF)
  {
  }

  /** Eight +Inf lanes take the special path, and every lane gives NaN where erfc(+Inf) is 0. */
  lemma InfinityGivesNaN()
    ensures var xs := Splat(LANES, PLUS_INF, PLUS_INF);
      PathOf(xs) == SpecialPath && forall i :: 0 <= i < LANES ==> Erfc.Value(Kernel(xs)[i]) == AnyNaN
    ensures Erfc.Value(Erfc.Kernel(PLUS_INF)) == Exact(ZERO64)
  {
    var xs := Splat(LANES, PLUS_INF, PLUS_INF);
    assert AllSet64(AtLeast(xs, INF_NAN));
    InfCondMaskNeverSet(PLUS_INF);
    Erfc.SpecialValues(PLUS_INF);
  }

  /** A NaN lane beside seven lanes of 28 passes the range-4 test and gives +0, not NaN. */
  lemma NaNLaneSaturates()
    ensures var xs := Splat(LANES, QUIET_NAN, TWENTY_EIGHT);
      PathOf(xs) == SaturationPath && Kernel(xs)[0] == Erfc.TinyTiny
    ensures Erfc.Value(Erfc.Kernel(QUIET_NAN)) == AnyNaN
  {
    var xs := Splat(LANES, QUIET_NAN, TWENTY_EIGHT);
    SampleKeys();
    assert Below(xs, BOUND1)[1] != ONES64;
    assert Below(xs, BOUND2)[1] != ONES64;
    assert Below(xs, BOUND3)[1] != ONES64;
    assert AtLeast(xs, INF_NAN)[1] != ONES64;
    assert AllSet64(AtLeast(xs, BOUND3));
    Erfc.SpecialValues(QUIET_NAN);
  }

  /**
   * A vector inside the tail region with one lane from 1/0.35 on and one lane
   * that is not negative-from-6 takes the joint RB/SB path.
   */
  lemma JointRbSbPath(xs: seq<u64>, j: nat, k: nat)
    requires |xs| == LANES && j < LANES && k < LANES
    requires forall i :: 0 <= i < LANES ==> BOUND2 <= Erfc.Key(xs[i]) < BOUND3
    requires Erfc.Key(xs[j]) >= B3_SUB1
    requires !(SignBit64(xs[k]) && Erfc.Key(xs[k]) >= B3_SUB2)
    ensures PathOf(xs) == TailPath(Erfc.RbSb)
  {
    assert AtLeast(xs, INF_NAN)[j] != ONES64;
    assert Below(xs, BOUND1)[j] != ONES64;
    assert Below(xs, BOUND2)[j] != ONES64;
    assert AllSet64(Below(xs, BOUND3)) && AllSet64(AtLeast(xs, BOUND2));
    assert Below(xs, B3_SUB1)[j] != ONES64;
    assert LargeCond(xs)[k] != ONES64;
  }

  /** A lane of 1.5 beside lanes of 3.0 is evaluated with RB/SB, where the scalar uses RA/SA. */
  lemma JointTailCoefficients()
    ensures var xs := Splat(LANES, ONE_AND_HALF, THREE);
      PathOf(xs) == TailPath(Erfc.RbSb) && Kernel(xs)[0].Tail? && Kernel(xs)[0].c == Erfc.RbSb
    ensures Erfc.Kernel(ONE_AND_HALF).Tail? && Erfc.Kernel(ONE_AND_HALF).c == Erfc.RaSa
  {
    var xs := Splat(LANES, ONE_AND_HALF, THREE);
    SampleKeys();
    JointRbSbPath(xs, 1, 1);
    assert Kernel(xs)[0] == LaneResult(TailPath(Erfc.RbSb), ONE_AND_HALF);
    Erfc.TailCoefficients(ONE_AND_HALF);
  }

  /**
   * A lane of -7 beside lanes of 3.0 computes 2 - r/|x| with RB/SB, where the
   * scalar returns the constant 2; only an all-negative vector from 6 on returns 2.
   */
  lemma MixedNegativeTail()
    ensures var xs := Splat(LANES, MINUS_SEVEN, THREE);
      PathOf(xs) == TailPath(Erfc.RbSb) && Kernel(xs)[0].Tail? && Kernel(xs)[0].neg
    ensures Erfc.Kernel(MINUS_SEVEN) == Erfc.Two
  {
    var xs := Splat(LANES, MINUS_SEVEN, THREE);
    SampleKeys();
    JointRbSbPath(xs, 1, 1);
    assert Kernel(xs)[0] == LaneResult(TailPath(Erfc.RbSb), MINUS_SEVEN);
  }

  // ---------------------------------------------------------------- the corrected kernel

  /** The range-4 test without NaN lanes: `ix >= BOUND3` and `ux_abs <= INF`. */
  function FiniteAtLeast(xs: seq<u64>, c: u32): (m: seq<u64>)
    ensures |m| == |xs|
    ensures forall i :: 0 <= i < |xs| ==> (m[i] == ONES64 <==> Erfc.Key(xs[i]) >= c && !IsNaN64(xs[i]))
  {
    seq(|xs|, i requires 0 <= i < |xs| => Mask64(Erfc.Key(xs[i]) >= c && !IsNaN64(xs[i])))
  }

  function FixedPathOf(xs: seq<u64>): Path
  {
    PathChain(xs, FiniteAtLeast(xs, BOUND3))
  }

  /**
   * The lane formulas with the three corrections: the infinity mask is
   * `ux_abs == INF` itself, and the tail picks its coefficients and the
   * constant 2 per lane.
   */
  function FixedLaneResult(p: Path, x: u64): Erfc.DTag
  {
    var a := Abs64(x);
    var ix := Erfc.Key(x);
    match p
    case SpecialPath =>
      Blend(a == INF, Erfc.SubSelf(x), Blend(SignMask(x), Erfc.Zero, Erfc.Two))
    case TailPath(_) =>
      var c := if ix < B3_SUB1 then Erfc.RaSa else Erfc.RbSb;
      var tail := Blend(SignMask(x), Erfc.Tail(c, false, a, Erfc.HighPart(a)), Erfc.Tail(c, true, a, Erfc.HighPart(a)));
      Blend(SignBit64(x) && ix >= B3_SUB2, tail, Erfc.Two)
    case _ => LaneResult(p, x)
  }

  function FixedKernel(xs: seq<u64>): seq<Erfc.DTag>
    requires |xs| == LANES
  {
    LaneMap(xs, x => FixedLaneResult(FixedPathOf(xs), x))
  }

  /** A lane of the corrected kernel under its path's condition agrees with the scalar kernel. */
  lemma FixedLaneVersusScalar(p: Path, x: u64)
    requires LaneCondition(p, x) && (p == SaturationPath ==> !IsNaN64(x))
    ensures Erfc.Agree(FixedLaneResult(p, x), Erfc.Kernel(x))
  {
    Erfc.KeyClassifies(x);
    Erfc.MagnitudeOfInfinity(x);
    if !p.SpecialPath? && !p.TailPath? {
      LaneVersusScalar(p, x);
    }
  }

  /** Every lane of the corrected kernel agrees with the scalar erfc of that lane. */
  lemma FixedAgreesWithScalar(xs: seq<u64>)
    requires |xs| == LANES
    ensures forall i :: 0 <= i < LANES ==> Erfc.Agree(FixedKernel(xs)[i], Erfc.Kernel(xs[i]))
  {
    var p := FixedPathOf(xs);
    var cond4 := FiniteAtLeast(xs, BOUND3);
    ChainLanes(xs, cond4);
    forall i | 0 <= i < LANES
      ensures Erfc.Agree(FixedKernel(xs)[i], Erfc.Kernel(xs[i]))
    {
      if p == SaturationPath {
        assert cond4[i] == ONES64;
      }
      FixedLaneVersusScalar(p, xs[i]);
    }
  }
}
