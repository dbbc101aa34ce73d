/**
 * The 4-lane double-precision acos kernel: three ordered comparisons of |x|
 * classify each lane, an all-lanes test picks one of three evaluation paths,
 * each lane's polynomial argument and coefficient row follow from its class,
 * the result is reconstructed from the A or B table by sign, and the lanes
 * marked out of range are replaced by the scalar acos.
 */
module Vrd4Acos {
  import opened Ieee

  const LANES: nat := 4

  /** The reconstruction tables: A = {0, pi/4}, B = {pi/2, pi/4}, as bit patterns. */
  const PI_BY_4: u64 := 0x3FE9_21FB_5444_2D18
  const PI_BY_2: u64 := 0x3FF9_21FB_5444_2D18
  const A: seq<u64> := [ZERO64, PI_BY_4]
  const B: seq<u64> := [PI_BY_2, PI_BY_4]

  // ---------------------------------------------------------------- lane classes

  /** `aux > 0.5`, an ordered comparison of |x|: false for NaN. */
  predicate Cond1(x: u64) { OrderedAbove64(Abs64(x), HALF64) }

  /** `aux <= 0.5`: false for NaN. */
  predicate Cond2(x: u64) { OrderedAtMost64(Abs64(x), HALF64) }

  /** `outofrange = aux >= 1.0`: false for NaN. */
  predicate OutOfRange(x: u64) { OrderedAtLeast64(Abs64(x), ONE64) }

  /** `all_v4_u64_loop`: the AND of the four comparison masks is nonzero. */
  predicate AllV4(cond: seq<bool>)
    requires |cond| == LANES
  {
    cond[0] && cond[1] && cond[2] && cond[3]
  }

  datatype Path = AllCond1 | AllCond2 | Mixed

  function PathOf(xs: seq<u64>): Path
    requires |xs| == LANES
  {
    if AllV4(LaneMap(xs, Cond1)) then AllCond1
    else if AllV4(LaneMap(xs, Cond2)) then AllCond2
    else Mixed
  }

  // ---------------------------------------------------------------- lane formulas

  /** The polynomial argument: `0.5 * (1 - aux)` or `aux * aux`. */
  datatype Z = HalfOneMinus(a: u64) | Square(a: u64)

  /** The value the polynomial is wrapped around: `-2 * sqrt(z)` or |x| itself. */
  datatype Aux = MinusTwoSqrt(z: Z) | Magnitude(a: u64)

  /** `poly = aux + aux * z * P(z)` with P the degree-11 Horner polynomial. */
  datatype Poly = Poly(aux: Aux, z: Z)

  /** The reconstruction: `(B[k] + poly) + B[k]` for a negative lane, `(A[k] - poly) + A[k]` otherwise. */
  datatype Recon = PlusB(b: u64, p: Poly) | MinusA(c: u64, p: Poly)

  /** A result lane: the scalar acos, or the vector reconstruction. */
  datatype Lane = Scalar(x: u64) | Vector(r: Recon)

  /** The lane takes the `sqrt` transform (coefficient row 0) on path `p`. */
  predicate Transformed(p: Path, x: u64)
  {
    p == AllCond1 || (p == Mixed && Cond1(x))
  }

  /** `coeff_index[i]`. */
  function CoeffIndex(p: Path, x: u64): (k: nat)
    ensures k < 2
  {
    if Transformed(p, x) then 0 else 1
  }

  function PolyOf(p: Path, x: u64): Poly
  {
    var a := Abs64(x);
    if Transformed(p, x) then Poly(MinusTwoSqrt(HalfOneMinus(a)), HalfOneMinus(a))
    else Poly(Magnitude(a), Square(a))
  }

  /** The lane's reconstruction; `sign` is `ux & ~MASK_64`, the sign bit. */
  function ReconOf(p: Path, x: u64): Recon
  {
    var k := CoeffIndex(p, x);
    if SignBit64(x) then PlusB(B[k], PolyOf(p, x)) else MinusA(A[k], PolyOf(p, x))
  }

  /** The final `outofrange` mask: widened to every `aux > 0.5` lane on the mixed path. */
  predicate Fallback(p: Path, x: u64)
  {
    OutOfRange(x) || (p == Mixed && Cond1(x))
  }

  /**
   * One result lane: `call_v4_f64` (not part of this model beyond its contract)
   * replaces the lanes whose `outofrange` mask is set by the scalar acos.
   */
  function LaneResult(p: Path, x: u64): Lane
  {
    if Fallback(p, x) then Scalar(x) else Vector(ReconOf(p, x))
  }

  function Kernel(xs: seq<u64>): (r: seq<Lane>)
    requires |xs| == LANES
    ensures |r| == LANES
  {
    var p := PathOf(xs);
    seq(LANES, i requires 0 <= i < LANES => LaneResult(p, xs[i]))
  }

  /** What IEEE arithmetic fixes about a vector lane: a NaN |x| propagates through every operation. */
  function Value(l: Lane): Outcome<u64>
  {
    match l
    case Scalar(_) => Approx
    case Vector(r) => if IsNaN64(r.p.z.a) then AnyNaN else Approx
  }

  // ---------------------------------------------------------------- the imperative kernel

  /** The mixed-path loop: per lane, `z[i]`, `aux[i]` and `coeff_index[i]` from `aux[i] > 0.5`. */
  method MixedLanes(xs: seq<u64>) returns (polys: seq<Poly>, index: seq<nat>)
    requires |xs| == LANES
    ensures |polys| == LANES && |index| == LANES
    ensures forall i :: 0 <= i < LANES ==> polys[i] == PolyOf(Mixed, xs[i]) && index[i] == CoeffIndex(Mixed, xs[i])
  {
    var z := new Z[LANES](_ => Square(0));
    var aux := new Aux[LANES](i requires 0 <= i < LANES => Magnitude(Abs64(xs[i])));
    var coeffIndex := new nat[LANES](_ => 0);
    var i := 0;
    while i < LANES
      invariant 0 <= i <= LANES
      invariant forall j :: 0 <= j < i ==>
        Poly(aux[j], z[j]) == PolyOf(Mixed, xs[j]) && coeffIndex[j] == CoeffIndex(Mixed, xs[j])
      invariant forall j :: i <= j < LANES ==> aux[j] == Magnitude(Abs64(xs[j])) && coeffIndex[j] == 0
    {
      if Cond1(xs[i]) {
        z[i] := HalfOneMinus(Abs64(xs[i]));
        aux[i] := MinusTwoSqrt(z[i]);
      } else {
        coeffIndex[i] := 1;
        z[i] := Square(Abs64(xs[i]));
      }
      i := i + 1;
    }
    polys := seq(LANES, j requires 0 <= j < LANES reads aux, z => Poly(aux[j], z[j]));
    index := coeffIndex[..];
  }

  /** `ALM_PROTO_OPT(vrd4_acos)`: the path, the lane formulas, the reconstruction and the fallback. */
  method Evaluate(xs: seq<u64>) returns (result: seq<Lane>)
    requires |xs| == LANES
    ensures result == Kernel(xs)
  {
    var cond1 := LaneMap(xs, Cond1);
    var cond2 := LaneMap(xs, Cond2);
    var polys: seq<Poly>;
    var index: seq<nat>;
    var path: Path;
    if AllV4(cond1) {
      path := AllCond1;
      polys := seq(LANES, i requires 0 <= i < LANES =>
        Poly(MinusTwoSqrt(HalfOneMinus(Abs64(xs[i]))), HalfOneMinus(Abs64(xs[i]))));
      index := [0, 0, 0, 0];
    } else if AllV4(cond2) {
      path := AllCond2;
      polys := seq(LANES, i requires 0 <= i < LANES => Poly(Magnitude(Abs64(xs[i])), Square(Abs64(xs[i]))));
      index := [1, 1, 1, 1];
    } else {
      path := Mixed;
      polys, index := MixedLanes(xs);
    }
    assert path == PathOf(xs);
    var outofrange := seq(LANES, i requires 0 <= i < LANES =>
      OutOfRange(xs[i]) || (path == Mixed && cond1[i]));
    result := seq(LANES, i requires 0 <= i < LANES =>
      if outofrange[i] then Scalar(xs[i])
      else if SignBit64(xs[i]) then Vector(PlusB(B[index[i]], polys[i]))
      else Vector(MinusA(A[index[i]], polys[i])));
  }

  // ---------------------------------------------------------------- properties

  /** `all_v4_u64_loop` on comparison masks holds exactly when every lane's mask is set. */
  lemma AllV4IsForall(cond: seq<bool>)
    requires |cond| == LANES
    ensures AllV4(cond) <==> forall i :: 0 <= i < LANES ==> cond[i]
  {
    if forall i :: 0 <= i < LANES ==> cond[i] {
      assert cond[0] && cond[1] && cond[2] && cond[3];
    }
  }

  /**
   * A non-NaN lane is in exactly one of cond1 and cond2, and out of range only
   * within cond1; a NaN lane is in none of the three.
   */
  lemma LaneClasses(x: u64)
    ensures !IsNaN64(x) ==> (Cond1(x) <==> !Cond2(x))
    ensures OutOfRange(x) ==> Cond1(x)
    ensures IsNaN64(x) ==> !Cond1(x) && !Cond2(x) && !OutOfRange(x)
    ensures Cond1(x) <==> !IsNaN64(x) && Abs64(x) > HALF64
  {
  }

  /**
   * When every lane is above 0.5, every lane uses row 0 and the sqrt transform,
   * and only the lanes with |x| >= 1 go to the scalar acos.
   */
  lemma AllAboveHalf(xs: seq<u64>)
    requires |xs| == LANES && PathOf(xs) == AllCond1
    ensures forall i :: 0 <= i < LANES ==>
      CoeffIndex(AllCond1, xs[i]) == 0 && PolyOf(AllCond1, xs[i]).z == HalfOneMinus(Abs64(xs[i]))
      && (Kernel(xs)[i].Scalar? <==> OutOfRange(xs[i]))
  {
  }

  /** When every lane is at most 0.5, every lane uses row 1 with z = x^2, and none goes to the scalar acos. */
  lemma AllAtMostHalf(xs: seq<u64>)
    requires |xs| == LANES && PathOf(xs) == AllCond2
    ensures forall i :: 0 <= i < LANES ==>
      CoeffIndex(AllCond2, xs[i]) == 1 && PolyOf(AllCond2, xs[i]).z == Square(Abs64(xs[i]))
      && Kernel(xs)[i].Vector?
  {
    var m := LaneMap(xs, Cond2);
    AllV4IsForall(m);
    forall i | 0 <= i < LANES
      ensures !OutOfRange(xs[i])
    {
      assert m[i];
    }
  }

  /**
   * In a mixed vector every lane above 0.5 is marked out of range and goes to the
   * scalar acos; every other lane uses row 1 with z = x^2.
   */
  lemma MixedLanesFallBack(xs: seq<u64>)
    requires |xs| == LANES && PathOf(xs) == Mixed
    ensures forall i :: 0 <= i < LANES ==>
      (Kernel(xs)[i].Scalar? <==> Cond1(xs[i]))
      && (!Cond1(xs[i]) ==> CoeffIndex(Mixed, xs[i]) == 1 && PolyOf(Mixed, xs[i]).z == Square(Abs64(xs[i])))
  {
    forall i | 0 <= i < LANES
      ensures OutOfRange(xs[i]) ==> Cond1(xs[i])
    {
      LaneClasses(xs[i]);
    }
  }

  /**
   * The comparison masks: no lane is in both `aux > 0.5` and `aux <= 0.5`, a
   * non-NaN lane is in one of them, a NaN lane is in neither and is not out of
   * range, and an out-of-range lane is in `aux > 0.5`.
   */
  lemma MasksExclusive(xs: seq<u64>)
    requires |xs| == LANES
    ensures forall i :: 0 <= i < LANES ==> !(LaneMap(xs, Cond1)[i] && LaneMap(xs, Cond2)[i])
    ensures forall i :: 0 <= i < LANES && !IsNaN64(xs[i]) ==> LaneMap(xs, Cond1)[i] || LaneMap(xs, Cond2)[i]
    ensures forall i :: 0 <= i < LANES && IsNaN64(xs[i]) ==>
      !LaneMap(xs, Cond1)[i] && !LaneMap(xs, Cond2)[i] && !LaneMap(xs, OutOfRange)[i]
    ensures forall i :: 0 <= i < LANES && LaneMap(xs, OutOfRange)[i] ==> LaneMap(xs, Cond1)[i]
  {
    forall i | 0 <= i < LANES
      ensures !(Cond1(xs[i]) && Cond2(xs[i]))
      ensures !IsNaN64(xs[i]) ==> Cond1(xs[i]) || Cond2(xs[i])
      ensures OutOfRange(xs[i]) ==> Cond1(xs[i])
    {
      LaneClasses(xs[i]);
    }
  }

  /**
   * The reconstruction reads table B exactly for negative lanes, from the lane's
   * row. A NaN lane on the mixed path fails `aux > 0.5`, so it takes row 1 with
   * the untransformed argument, and only its sign bit picks the table.
   */
  lemma ReconstructionBySign(p: Path, x: u64)
    ensures ReconOf(p, x).PlusB? <==> SignBit64(x)
    ensures ReconOf(p, x).PlusB? ==> ReconOf(p, x).b == B[CoeffIndex(p, x)]
    ensures ReconOf(p, x).MinusA? ==> ReconOf(p, x).c == A[CoeffIndex(p, x)]
    ensures ReconOf(p, x).p == PolyOf(p, x)
    ensures p == Mixed && IsNaN64(x) ==>
      var poly := Poly(Magnitude(Abs64(x)), Square(Abs64(x)));
      ReconOf(p, x) == (if SignBit64(x) then PlusB(B[1], poly) else MinusA(A[1], poly))
  {
    LaneClasses(x);
  }

  /**
   * Negation symmetry: negating every lane keeps the path, and on that path each
   * negated lane keeps its row, polynomial and fallback decision while the
   * reconstruction trades table A for table B.
   */
  lemma NegationSwapsTables(xs: seq<u64>)
    requires |xs| == LANES
    ensures var neg := LaneMap(xs, Negate64);
      PathOf(neg) == PathOf(xs) &&
      forall i :: 0 <= i < LANES ==>
        var p := PathOf(xs);
        var k := CoeffIndex(p, xs[i]);
        CoeffIndex(p, neg[i]) == k && PolyOf(p, neg[i]) == PolyOf(p, xs[i])
        && (Kernel(neg)[i].Scalar? <==> Kernel(xs)[i].Scalar?)
        && ReconOf(p, neg[i]) ==
             (if SignBit64(xs[i]) then MinusA(A[k], PolyOf(p, xs[i])) else PlusB(B[k], PolyOf(p, xs[i])))
  {
  }

  /** A lane goes to the scalar acos exactly when its final `outofrange` mask is set. */
  lemma ScalarIffOutOfRange(xs: seq<u64>)
    requires |xs| == LANES
    ensures forall i :: 0 <= i < LANES ==> (Kernel(xs)[i].Scalar? <==> Fallback(PathOf(xs), xs[i]))
    ensures (exists i :: 0 <= i < LANES && Kernel(xs)[i].Scalar?) <==>
            (exists i :: 0 <= i < LANES && Fallback(PathOf(xs), xs[i]))
  {
  }

  /**
   * A NaN lane fails all three comparisons, so it is never marked out of range
   * and never reaches the scalar acos; its vector result is NaN by propagation.
   */
  lemma NaNLaneStaysVector(xs: seq<u64>, i: nat)
    requires |xs| == LANES && i < LANES && IsNaN64(xs[i])
    ensures PathOf(xs) == Mixed
    ensures Kernel(xs)[i].Vector? && Value(Kernel(xs)[i]) == AnyNaN
  {
    LaneClasses(xs[i]);
    assert !LaneMap(xs, Cond1)[i] && !LaneMap(xs, Cond2)[i];
    AllV4IsForall(LaneMap(xs, Cond1));
    AllV4IsForall(LaneMap(xs, Cond2));
  }
}
