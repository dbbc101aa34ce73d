/**
 * The 2-lane and 4-lane double-precision asin kernels (`vrd2_asin`,
 * `vrd4_asin`), which share one structure: if any lane is special every lane
 * goes to the scalar asin; otherwise each lane picks the direct or the
 * transformed formula from its exponent, the square root of the transformed
 * argument is split at its low word, and the sign is applied last.
 *
 * The numerics are symbolic: `R` is the reduced argument, `V` the formula of the
 * magnitude, and the bits of the vector square root are a parameter `sqrt`.
 */
module VecAsin {
  import opened Ieee

  /** The exponent field: `EXPBITS_DP64` = 0x7FF0_0000_0000_0000, shifted by 52. */
  const EXP_UNIT: u64 := 0x0010_0000_0000_0000
  const EXP_BIAS: int := 1023

  /** Bit patterns of 2^-28 and 1.0, the ends of the fast range. */
  const TWO_POW_M28: u64 := 0x3E30_0000_0000_0000

  /** `(int32_t)((ux & EXPBITS_DP64) >> 52) - EXPBIAS_DP64`: the unbiased exponent, sign ignored. */
  function Xexp(x: u64): (e: int)
    ensures -EXP_BIAS <= e <= 2047 - EXP_BIAS
  {
    (x / EXP_UNIT) as int % 2048 - EXP_BIAS
  }

  /** A lane that sends the whole vector to the scalar asin: NaN bits, |x| < 2^-28, or |x| >= 1. */
  predicate SpecialLane(x: u64)
  {
    Abs64(x) > POS_INF64 || Xexp(x) < -28 || Xexp(x) >= 0
  }

  predicate AnySpecial(xs: seq<u64>)
  {
    exists i :: 0 <= i < |xs| && SpecialLane(xs[i])
  }

  /** The reduced argument: `0.5 * (1.0 - y)` for a transformed lane, `y * y` otherwise. */
  datatype R = HalfOneMinus(y: u64) | Square(y: u64)

  /**
   * The magnitude `v`. `Reconstructed`: HPIBY2_HEAD - (p - q) with
   * c = (r - s1*s1)/(s + s1), p = 2*s*u - (PIBY2_TAIL - 2*c), q = HPIBY2_HEAD - 2*s1,
   * where `s` are the bits of sqrt(r) and `s1` its split. `Direct`: y + y*u.
   * In both, u = r * num(r) / den(r).
   */
  datatype V = Reconstructed(r: R, s: u64, s1: u64) | Direct(y: u64, r: R)

  /** A result lane: the scalar asin of the input, or the fast formula, negated when `neg`. */
  datatype Lane = Scalar(x: u64) | Fast(neg: bool, v: V)

  /** `asdouble(0xffffffff00000000 & us)`: the low word of the square root cleared. */
  function SplitS(us: u64): u64
  {
    us - us % 0x1_0000_0000
  }

  /** `transform[i] = (xexp[i] >= -1)`. */
  predicate Transform(x: u64) { Xexp(x) >= -1 }

  /** The reduced argument of a lane. */
  function Reduce(x: u64): R
  {
    if Transform(x) then HalfOneMinus(Abs64(x)) else Square(Abs64(x))
  }

  /** The fast-path result of one lane. */
  function FastLane(x: u64, sqrt: R -> u64): Lane
  {
    var r := Reduce(x);
    var v := if Transform(x) then Reconstructed(r, sqrt(r), SplitS(sqrt(r))) else Direct(Abs64(x), r);
    Fast(SignBit64(x), v)
  }

  /** The kernel: all lanes scalar when any lane is special, else every lane's fast formula. */
  function Kernel(xs: seq<u64>, sqrt: R -> u64): (r: seq<Lane>)
    ensures |r| == |xs|
  {
    if AnySpecial(xs) then seq(|xs|, i requires 0 <= i < |xs| => Scalar(xs[i]))
    else seq(|xs|, i requires 0 <= i < |xs| => FastLane(xs[i], sqrt))
  }

  /** The first lane loop: `transform[i]` and the reduced argument `r[i]`. */
  method ReduceLanes(xs: seq<u64>) returns (transform: seq<bool>, r: seq<R>)
    ensures |transform| == |xs| && |r| == |xs|
    ensures forall j :: 0 <= j < |xs| ==> transform[j] == Transform(xs[j]) && r[j] == Reduce(xs[j])
  {
    var n := |xs|;
    var ta := new bool[n];
    var ra := new R[n](_ => Square(0));
    var i := 0;
    while i < n
      invariant 0 <= i <= n
      invariant forall j :: 0 <= j < i ==> ta[j] == Transform(xs[j]) && ra[j] == Reduce(xs[j])
    {
      ta[i] := Xexp(xs[i]) >= -1;
      if ta[i] {
        ra[i] := HalfOneMinus(Abs64(xs[i]));
      } else {
        ra[i] := Square(Abs64(xs[i]));
      }
      i := i + 1;
    }
    transform, r := ta[..], ra[..];
  }

  /**
   * The second lane loop: `v[i]` from the split square root or directly, and
   * `result[i]` = `-v[i]` exactly when the lane's sign bit is set.
   */
  method ReconstructLanes(xs: seq<u64>, transform: seq<bool>, r: seq<R>, s: seq<u64>, ghost sqrt: R -> u64)
    returns (result: seq<Lane>)
    requires |transform| == |xs| && |r| == |xs| && |s| == |xs|
    requires forall j :: 0 <= j < |xs| ==> transform[j] == Transform(xs[j]) && r[j] == Reduce(xs[j])
    requires forall j :: 0 <= j < |xs| ==> s[j] == sqrt(r[j])
    ensures |result| == |xs| && forall j :: 0 <= j < |xs| ==> result[j] == FastLane(xs[j], sqrt)
  {
    var n := |xs|;
    var out := new Lane[n](_ => Scalar(0));
    var i := 0;
    while i < n
      invariant 0 <= i <= n
      invariant forall j :: 0 <= j < i ==> out[j] == FastLane(xs[j], sqrt)
    {
      var v;
      if transform[i] {
        var s1 := SplitS(s[i]);
        v := Reconstructed(r[i], s[i], s1);
      } else {
        v := Direct(Abs64(xs[i]), r[i]);
      }
      out[i] := if SignBit64(xs[i]) then Fast(true, v) else Fast(false, v);
      i := i + 1;
    }
    result := out[..];
  }

  /**
   * `ALM_PROTO_OPT(vrd2_asin)` and `ALM_PROTO_OPT(vrd4_asin)`: the special test,
   * then the loop that sets `transform[i]` and `r[i]`, the vector square root,
   * and the loop that reconstructs `v[i]` and applies the sign into `result[i]`.
   */
  method Evaluate(xs: seq<u64>, sqrt: R -> u64) returns (result: seq<Lane>)
    requires |xs| == 2 || |xs| == 4
    ensures result == Kernel(xs, sqrt)
  {
    if AnySpecial(xs) {
      result := seq(|xs|, i requires 0 <= i < |xs| => Scalar(xs[i]));
      return;
    }
    var transform, r := ReduceLanes(xs);
    var s := seq(|r|, k requires 0 <= k < |r| => sqrt(r[k]));
    result := ReconstructLanes(xs, transform, r, s, sqrt);
  }

  // ---------------------------------------------------------------- properties

  /** The fast path is taken exactly when every lane has 2^-28 <= |x| < 1, i.e. -28 <= xexp <= -1. */
  lemma FastRange(x: u64)
    ensures !SpecialLane(x) <==> TWO_POW_M28 <= Abs64(x) < ONE64
    ensures !SpecialLane(x) <==> -28 <= Xexp(x) <= -1
  {
    assert Xexp(x) == Abs64(x) as int / EXP_UNIT as int - EXP_BIAS;
  }

  /** On the fast path a lane is transformed exactly when |x| >= 0.5; 0.5 itself is transformed. */
  lemma TransformFromHalf(x: u64)
    requires !SpecialLane(x)
    ensures Transform(x) <==> Abs64(x) >= HALF64
    ensures Abs64(x) == HALF64 ==> FastLane(x, s => 0).v.Reconstructed?
  {
    assert Xexp(x) == Abs64(x) as int / EXP_UNIT as int - EXP_BIAS;
  }

  /** The split `s1` keeps the upper word of `s`, has a zero lower word, and is at most `s`. */
  lemma SplitClearsLowWord(us: u64)
    ensures Upper32(SplitS(us)) == Upper32(us) && Lower32(SplitS(us)) == 0
    ensures SplitS(us) <= us && us - SplitS(us) == Lower32(us) as u64
  {
  }

  /** If any lane is special, every lane (special or not) is the scalar asin of that lane. */
  lemma AnySpecialAllScalar(xs: seq<u64>, sqrt: R -> u64)
    requires |xs| > 0
    ensures AnySpecial(xs) <==> forall i :: 0 <= i < |xs| ==> Kernel(xs, sqrt)[i] == Scalar(xs[i])
  {
    if !AnySpecial(xs) {
      assert Kernel(xs, sqrt)[0] == FastLane(xs[0], sqrt);
    }
  }

  /**
   * On the fast path lane i depends on `xs[i]` only: two non-special vectors
   * that agree in lane i have the same result in lane i.
   */
  lemma LanesIndependent(xs: seq<u64>, ys: seq<u64>, i: nat, sqrt: R -> u64)
    requires |xs| == |ys| && i < |xs| && xs[i] == ys[i]
    requires !AnySpecial(xs) && !AnySpecial(ys)
    ensures Kernel(xs, sqrt)[i] == Kernel(ys, sqrt)[i]
  {
  }

  /** Negating the input flips the sign bit and keeps |x|, so it changes neither class nor transform. */
  lemma NegationKeepsClass(x: u64)
    ensures SpecialLane(Negate64(x)) == SpecialLane(x)
    ensures Transform(Negate64(x)) == Transform(x)
    ensures Reduce(Negate64(x)) == Reduce(x)
  {
    assert Xexp(x) == Abs64(x) as int / EXP_UNIT as int - EXP_BIAS;
    assert Xexp(Negate64(x)) == Abs64(Negate64(x)) as int / EXP_UNIT as int - EXP_BIAS;
  }

  /** The fast path is odd lane by lane: -x gives the same magnitude formula with the other sign. */
  lemma FastPathOdd(xs: seq<u64>, sqrt: R -> u64)
    requires !AnySpecial(xs)
    ensures var neg := seq(|xs|, i requires 0 <= i < |xs| => Negate64(xs[i]));
      !AnySpecial(neg) &&
      forall i :: 0 <= i < |xs| ==>
        Kernel(neg, sqrt)[i].Fast? && Kernel(xs, sqrt)[i].Fast? &&
        Kernel(neg, sqrt)[i].v == Kernel(xs, sqrt)[i].v &&
        Kernel(neg, sqrt)[i].neg == !Kernel(xs, sqrt)[i].neg &&
        Kernel(xs, sqrt)[i].neg == SignBit64(xs[i])
  {
    var neg := seq(|xs|, i requires 0 <= i < |xs| => Negate64(xs[i]));
    forall i | 0 <= i < |xs|
      ensures !SpecialLane(neg[i]) && Reduce(neg[i]) == Reduce(xs[i]) && Transform(neg[i]) == Transform(xs[i])
    {
      NegationKeepsClass(xs[i]);
    }
  }
}
