# AMD libm erfc kernels and vector lane dispatch, modelled in Dafny

This project models the control structure of several AMD libm routines:

- The scalar complementary error function kernels `erfc` (double) and `erfcf` (float).
- Their AVX-512 vector versions `vrd8_erfc` (8 doubles) and `vrs16_erfcf` (16 floats).
- The 2-lane and 4-lane vector `asin` kernels.
- The lane classification of the 4-lane vector `acos` kernel.
- The array driver `vrda_cosh`.

Every routine classifies its input by comparing IEEE 754 bit patterns against
constants. It then picks a polynomial or rational approximation, or a special
value, and applies the sign last. The model keeps all of that: the bit-level
classification, the branch chosen, the coefficient set chosen, the
special-value results, the vector all-lanes and any-lane tests and the masked
blends. The approximations themselves are symbolic formulas:
`Erfc.DTag`, `Erfcf.FTag`, `VecAsin.V`, `Vrd4Acos.Recon`. Two results *agree*
when they are the same formula on the same argument, or the same exact or NaN
value.

Modules:

| file | module | what it models |
|---|---|---|
| `ieee.dfy` | `Ieee` | 64- and 32-bit words as integer newtypes; sign, magnitude and class tests; ordered compares; lane masks; blends |
| `regions.dfy` | `Regions` | a classification by strictly increasing thresholds |
| `erfc.dfy` | `Erfc` | the scalar double kernel: branch chain, special values, coefficient choice, sign selection |
| `erfcf.dfy` | `Erfcf` | the scalar float kernel |
| `vrd8_erfc.dfy` | `Vrd8Erfc` | the 8-lane double kernel; each lane is compared with `Erfc` |
| `vrs16_erfcf.dfy` | `Vrs16Erfcf` | the 16-lane float kernel; each lane is compared with `Erfcf` |
| `vec_asin.dfy` | `VecAsin` | `vrd2_asin` and `vrd4_asin`, which share one structure |
| `vrd4_acos.dfy` | `Vrd4Acos` | the lane classes, path choice, reconstruction tables and scalar fallback of `vrd4_acos` |
| `vrda_cosh.dfy` | `VrdaCosh` | the pairwise array loop with a masked tail |

The vector kernels are written the way the C works. `SelectPath` runs the
all-lanes tests in order and `Evaluate` returns the lanes of the chosen path,
or the scalar kernel per lane. Both are proved equal to a functional
specification (`PathOf`, `Kernel`), and the properties are lemmas about that
specification. Where a vector kernel disagrees with its scalar kernel, the
disagreement is characterised exactly: `LaneAgreement` is an if-and-only-if
with a `Divergent` predicate. A corrected kernel (`FixedKernel`) is proved to
agree with the scalar kernel on every lane.

## Model

| member | source | states |
|---|---|---|
| Ieee.AsSigned32 | src/optimized/erfcf.c:253-254 | the word read as `int32_t` is in range and is negative exactly when the sign bit is set |
| Regions.PositionIsInterval | src/optimized/erfc.c:243-251 | for strictly increasing bounds, a key's region index is i exactly when the key lies in [bounds[i-1], bounds[i]) |
| Erfc.KeyClassifies | src/optimized/erfc.c:260-263 | the key is the upper word of \|x\|; it reaches 0x7FF00000 exactly for Inf and NaN, and zero has key 0 |
| Erfc.MagnitudeOfInfinity | src/optimized/erfc.c:266-267 | \|x\| equals the infinity pattern exactly for +Inf and -Inf |
| Erfc.KeyOfMagnitude | src/optimized/erfc.c:260-263 | x and -x have the same key, and a larger \|x\| never has a smaller key |
| Erfc.HighPartClearsLowWord | src/optimized/erfc.c:329-330 | the split `z` keeps the upper word of \|x\| and zeroes the lower word |
| Erfc.SpecialValues | src/optimized/erfc.c:266-271 | erfc(+Inf) = +0, erfc(-Inf) = 2, NaN in gives NaN out |
| Erfc.TinyInputs | src/optimized/erfc.c:275-279 | below 2^-28 the result is `1 - (x + x*x)` when the key is below 0x00800000 and `1 - x` otherwise |
| Erfc.BranchFollowsTable | src/optimized/erfc.c:253-347 | the branch taken is the one the threshold table assigns to the key's region |
| Erfc.SignOnlySelects | src/optimized/erfc.c:290-340 | for 0.84375 <= \|x\| < 6, x and -x take the same branch and coefficients; the sign only picks the mirrored formula |
| Erfc.TailCoefficients | src/optimized/erfc.c:314-327 | the tail uses RA/SA exactly for keys in [1.25, 1/0.35), and RB/SB exactly in [1/0.35, 28) except negatives of at least 6 |
| Erfc.SaturatedValues | src/optimized/erfc.c:341-346 | finite negatives of at least 6 give 2, finite positives of at least 28 give `tiny*tiny`, whose value is +0 |
| Erfcf.SpecialValues | src/optimized/erfcf.c:257-260 | erfcf(+Inf) = +0, erfcf(-Inf) = 2, NaN gives NaN |
| Erfcf.TinyInputs | src/optimized/erfcf.c:263-264 | below 2^-26 the result is `1 - x` |
| Erfcf.BranchFollowsTable | src/optimized/erfcf.c:248-318 | the branch taken is the one the threshold table assigns to \|x\|'s region |
| Erfcf.SmallSubSplit | src/optimized/erfcf.c:270-276 | the signed test `hx < 1/4` picks `r + y` for every negative small input and `0.5 - r` only for positive inputs of at least 1/4 |
| Erfcf.SignTestsAgree | src/optimized/erfcf.c:283-308 | above 0.84375 the tests `hx >= 0` and `hx > 0` both mean "sign bit clear" |
| Erfcf.SignOnlySelects | src/optimized/erfcf.c:279-312 | for 0.84375 <= \|x\| < 6, x and -x take the same branch; the sign only picks the mirrored formula |
| Erfcf.TailCoefficients | src/optimized/erfcf.c:295-303 | the tail uses RA/SA exactly for \|x\| in [1.25, 1/0.35), and RB/SB exactly in [1/0.35, 28) except negatives of at least 6 |
| Erfcf.SaturatedValues | src/optimized/erfcf.c:313-318 | finite negatives of at least 6 give `two - tiny` (value 2), finite positives of at least 28 give `tiny*tiny` (value +0) |
| Erfcf.SplitClearsLowBits | src/optimized/erfcf.c:305-306 | the split clears the low 13 bits of \|x\| and keeps the others |
| Vrd8Erfc.ConstantsMatchScalar | src/arch/zen4/vrd8_erfc.c:90-100 | every threshold of the vector kernel equals the scalar kernel's |
| Vrd8Erfc.TestConditionForAll | src/arch/zen4/vrd8_erfc.c:256-262 | returns 1 exactly when every lane of the mask is all-ones |
| Vrd8Erfc.ScalarLanes | src/arch/zen4/vrd8_erfc.c:391-393 | lane i of the fallback is the scalar kernel applied to lane i |
| Vrd8Erfc.SelectPath | src/arch/zen4/vrd8_erfc.c:279-387 | the sequence of all-lanes tests selects the path `PathOf(xs)` |
| Vrd8Erfc.Evaluate | src/arch/zen4/vrd8_erfc.c:264-395 | the kernel returns `Kernel(xs)`, the path's lane formulas or the scalar fallback |
| Vrd8Erfc.ChainLanes | src/arch/zen4/vrd8_erfc.c:279-387 | on the path taken, every lane lies in that path's range |
| Vrd8Erfc.PathLanes | src/arch/zen4/vrd8_erfc.c:279-387 | the same, for the kernel's own range-4 test |
| Vrd8Erfc.SignMaskOnBlendedLanes | src/arch/zen4/vrd8_erfc.c:269-276 | on the near-one and tail paths the `x < 0` mask equals the sign bit on every lane |
| Vrd8Erfc.InfCondMaskNeverSet | src/arch/zen4/vrd8_erfc.c:281-283 | `inf_cond_mask` tests the all-ones result of `\|x\| == INF`, a NaN when read as a double, with an ordered `!= 0.0`; a zero lane is not unequal to 0.0 either, so the mask is never set |
| Vrd8Erfc.LaneVersusScalar | src/arch/zen4/vrd8_erfc.c:279-387 | a lane agrees with the scalar kernel exactly when it is not divergent on its path |
| Vrd8Erfc.LaneAgreement | src/arch/zen4/vrd8_erfc.c:264-395 | on every input vector, lane i agrees with erfc(x[i]) if and only if it is not divergent |
| Vrd8Erfc.SmallBlendOrder | src/arch/zen4/vrd8_erfc.c:291-313 | on the small path every lane equals the scalar kernel's result, tiny sub-ranges included |
| Vrd8Erfc.FallbackIsScalar | src/arch/zen4/vrd8_erfc.c:389-393 | a vector that takes no path gets the scalar kernel on every lane |
| Vrd8Erfc.InfinityGivesNaN | src/arch/zen4/vrd8_erfc.c:279-288 | an all-+Inf vector takes the special path and yields NaN on every lane, where the scalar kernel returns +0 |
| Vrd8Erfc.NaNLaneSaturates | src/arch/zen4/vrd8_erfc.c:381-387 | a NaN lane beside a lane of 28 takes the saturation path and yields `tiny*tiny`, not NaN |
| Vrd8Erfc.JointRbSbPath | src/arch/zen4/vrd8_erfc.c:340-357 | when every lane is in the tail range, one lane at or beyond 1/0.35 moves all lanes to RB/SB, provided some lane is not a negative of at least 6 |
| Vrd8Erfc.JointTailCoefficients | src/arch/zen4/vrd8_erfc.c:340-357 | with lanes 1.5 and 3, lane 1.5 uses RB/SB where the scalar kernel uses RA/SA |
| Vrd8Erfc.MixedNegativeTail | src/arch/zen4/vrd8_erfc.c:348-357 | a lane of -7 beside a lane of 3 gets the tail formula where the scalar kernel returns exactly 2 |
| Vrd8Erfc.FixedLaneVersusScalar | src/arch/zen4/vrd8_erfc.c:279-387 | on the corrected kernel each lane in its path's range agrees with the scalar kernel |
| Vrd8Erfc.FixedAgreesWithScalar | src/arch/zen4/vrd8_erfc.c:264-395 | the corrected kernel agrees with the scalar kernel on every lane of every input |
| Vrs16Erfcf.ConstantsMatchScalar | src/arch/zen4/vrs16_erfcf.c:87-97 | every threshold of the vector kernel equals the scalar kernel's |
| Vrs16Erfcf.TestConditionForAll | src/arch/zen4/vrs16_erfcf.c:253-259 | returns 1 exactly when every lane of the mask is all-ones |
| Vrs16Erfcf.ScalarLanes | src/arch/zen4/vrs16_erfcf.c:388-393 | lane i of the fallback is the scalar kernel applied to lane i |
| Vrs16Erfcf.SelectPath | src/arch/zen4/vrs16_erfcf.c:270-386 | the any-lane special test and the all-lanes tests select `PathOf(xs)` |
| Vrs16Erfcf.Evaluate | src/arch/zen4/vrs16_erfcf.c:261-394 | the kernel returns `Kernel(xs)` |
| Vrs16Erfcf.PosMaskIsSignClear | src/arch/zen4/vrs16_erfcf.c:320-325 | the computed positive mask is set exactly when the sign bit is clear |
| Vrs16Erfcf.LargeCondNeverSet | src/arch/zen4/vrs16_erfcf.c:344-345 | `large_cond` ANDs the sign bit (0x80000000) with an all-ones compare, so no lane is ever all-ones |
| Vrs16Erfcf.AllTwoUnreachable | src/arch/zen4/vrs16_erfcf.c:344-348 | the `TWO - TINY` early return is never taken |
| Vrs16Erfcf.ChainLanes | src/arch/zen4/vrs16_erfcf.c:270-386 | on the path taken, every lane lies in that path's range |
| Vrs16Erfcf.PathLanes | src/arch/zen4/vrs16_erfcf.c:270-386 | the same, for the kernel's own tests |
| Vrs16Erfcf.LaneVersusScalar | src/arch/zen4/vrs16_erfcf.c:270-386 | a lane agrees with the scalar kernel exactly when it is not divergent on its path |
| Vrs16Erfcf.LaneAgreement | src/arch/zen4/vrs16_erfcf.c:261-394 | on every input vector, lane i agrees with erfcf(x[i]) if and only if it is not divergent |
| Vrs16Erfcf.SignSelectionMatches | src/arch/zen4/vrs16_erfcf.c:312-385 | on the near-one, RA/SA tail and saturation paths the mask blends equal the scalar sign tests |
| Vrs16Erfcf.AnyLaneGate | src/arch/zen4/vrs16_erfcf.c:271-279 | one NaN lane sends a +0 lane through `x + x`, which gives 0 where the scalar kernel returns 1 |
| Vrs16Erfcf.IntegerInfResult | src/arch/zen4/vrs16_erfcf.c:273-278 | the bit arithmetic gives 1.0 for +Inf and the pattern 0x3F800002 for -Inf, where the scalar kernel gives +0 and 2 |
| Vrs16Erfcf.UnsignedSubSplit | src/arch/zen4/vrs16_erfcf.c:283-309 | the unsigned `hx < 1/4` sends -0.5 to `0.5 - r` where the scalar kernel uses `r + y` |
| Vrs16Erfcf.JointRbSbPath | src/arch/zen4/vrs16_erfcf.c:335-352 | one tail lane at or beyond 1/0.35 moves all tail lanes to RB/SB |
| Vrs16Erfcf.JointTailCoefficients | src/arch/zen4/vrs16_erfcf.c:335-352 | with lanes 1.5 and 3, lane 1.5 uses RB/SB where the scalar kernel uses RA/SA |
| Vrs16Erfcf.NegativeBeyondSixNotConstant | src/arch/zen4/vrs16_erfcf.c:343-352 | an all -7 vector gets the tail formula where the scalar kernel returns `two - tiny` |
| Vrs16Erfcf.FixedLaneVersusScalar | src/arch/zen4/vrs16_erfcf.c:270-386 | on the corrected kernel each lane in its path's range agrees with the scalar kernel |
| Vrs16Erfcf.FixedAgreesWithScalar | src/arch/zen4/vrs16_erfcf.c:261-394 | the corrected kernel agrees with the scalar kernel on every lane of every input |
| VecAsin.Xexp | src/optimized/vec/vrd2_asin.c:138-139 | the unbiased exponent lies in [-1023, 1024] |
| VecAsin.ReduceLanes | src/optimized/vec/vrd2_asin.c:153-162 | per lane, `transform` is `xexp >= -1` and `r` is `0.5*(1-\|x\|)` or `x*x` accordingly |
| VecAsin.ReconstructLanes | src/optimized/vec/vrd2_asin.c:173-205 | per lane, the split-root or direct formula, negated exactly when the sign bit is set |
| VecAsin.Evaluate | src/optimized/vec/vrd4_asin.c:119-215 | the 4-lane kernel (and the 2-lane `vrd2_asin`, vrd2_asin.c:119-208, of the same structure) returns `Kernel(xs, sqrt)` |
| VecAsin.FastRange | src/optimized/vec/vrd4_asin.c:150-165 | a lane is not special exactly when 2^-28 <= \|x\| < 1, that is -28 <= xexp <= -1 |
| VecAsin.TransformFromHalf | src/optimized/vec/vrd2_asin.c:153-162 | on the fast path a lane is transformed exactly when \|x\| >= 0.5, 0.5 included |
| VecAsin.SplitClearsLowWord | src/optimized/vec/vrd4_asin.c:191-192 | `s1` keeps the upper word of `s`, its lower word is 0, and `s - s1` is the lower word |
| VecAsin.AnySpecialAllScalar | src/optimized/vec/vrd2_asin.c:142-148 | every lane is the scalar asin exactly when some lane is special |
| VecAsin.LanesIndependent | src/optimized/vec/vrd4_asin.c:167-213 | on the fast path lane i depends only on x[i] |
| VecAsin.NegationKeepsClass | src/optimized/vec/vrd2_asin.c:134-139 | -x has the class, transform and reduced argument of x |
| VecAsin.FastPathOdd | src/optimized/vec/vrd4_asin.c:185-212 | on the fast path negating every lane keeps every magnitude formula and flips every sign |
| Vrd4Acos.MasksExclusive | src/optimized/vec/vrd4_acos.c:169-175 | no lane is in both the `aux > 0.5` and `aux <= 0.5` masks, every non-NaN lane is in one, a NaN lane is in neither and not out of range, and every out-of-range lane is in `aux > 0.5` |
| Vrd4Acos.AllV4IsForall | src/optimized/vec/vrd4_acos.c:139-143 | the 4-lane AND is set exactly when every lane is set |
| Vrd4Acos.MixedLanes | src/optimized/vec/vrd4_acos.c:194-209 | per lane, the mixed-path row `coeff_index`, the polynomial argument `z` and the wrapped value `aux` follow the lane's class |
| Vrd4Acos.Evaluate | src/optimized/vec/vrd4_acos.c:151-238 | the kernel returns `Kernel(xs)` |
| Vrd4Acos.LaneClasses | src/optimized/vec/vrd4_acos.c:169-175 | a non-NaN lane is in exactly one of `aux > 0.5` and `aux <= 0.5`, and `aux >= 1` implies `aux > 0.5`; a NaN lane is in none |
| Vrd4Acos.AllAboveHalf | src/optimized/vec/vrd4_acos.c:177-184 | when every lane is above 0.5, every lane uses row 0 with z = 0.5(1-\|x\|), and a lane is the scalar acos exactly when \|x\| >= 1 |
| Vrd4Acos.AllAtMostHalf | src/optimized/vec/vrd4_acos.c:186-192 | when every lane is at most 0.5, every lane uses row 1 with z = x^2 and goes to no fallback |
| Vrd4Acos.MixedLanesFallBack | src/optimized/vec/vrd4_acos.c:194-235 | on the mixed path a lane goes to the scalar acos exactly when it is above 0.5 |
| Vrd4Acos.ReconstructionBySign | src/optimized/vec/vrd4_acos.c:194-228 | negative lanes use `B[k] + poly + B[k]`, the others `A[k] - poly + A[k]`, with the lane's row k; a NaN lane on the mixed path takes row 1 with `z = x*x`, so its sign bit alone picks the table |
| Vrd4Acos.NegationSwapsTables | src/optimized/vec/vrd4_acos.c:162-228 | negating every lane keeps the path; each negated lane keeps its row, polynomial argument and fallback decision, and its reconstruction uses table A where the original used table B and the other way round |
| Vrd4Acos.ScalarIffOutOfRange | src/optimized/vec/vrd4_acos.c:234-235 | a lane is the scalar acos exactly when its final out-of-range mask is set |
| Vrd4Acos.NaNLaneStaysVector | src/optimized/vec/vrd4_acos.c:169-235 | a NaN lane forces the mixed path, stays on the vector formula and gives NaN |
| VrdaCosh.LoopExit | src/optimized/vec/vrda_cosh.c:65-76 | the pair loop stops at an even index within [0, length] |
| VrdaCosh.RemainderIsZeroOrOne | src/optimized/vec/vrda_cosh.c:77-78 | for a non-negative length the remainder is 0 or 1, and 1 exactly for odd lengths |
| VrdaCosh.Evaluate | src/optimized/vec/vrda_cosh.c:63-85 | output[i] = cosh(input[i]) for i < length, each index written once in order, nothing else changed, including calls where input and output are the same array |

## Left out

- Floating-point arithmetic is not modelled. The polynomial and rational
  approximations, `exp`, `sqrt` and the rounding of `1 - x`, `r/s` and so on
  are symbolic formulas; agreement means the same formula on the same
  argument. The coefficient tables are left out for the same reason.
  Agreement between a vector lane and the scalar kernel treats the vector
  exp (`amd_vrd8_exp`, `amd_vrs16_expf`) and the vector `POLY_EVAL`
  polynomials as the scalar exp and polynomials on the same argument; every
  vector-to-scalar agreement lemma (`LaneAgreement`, `FixedAgreesWithScalar`)
  rests on this.
- Floating-point exception flags are not modelled, and neither are
  signalling and quiet NaN payloads. NaN results are only "some NaN".
- The scalar `asin`, `acos` and `erfc` calls made by the vector fallbacks are
  the scalar models (erfc, erfcf) or are left abstract (asin, acos). The
  2-lane `cosh` kernel is a parameter applied lane by lane.
- VecAsin.Evaluate: the bits of the vector square root are a parameter `sqrt`. Only the split of its result is modelled.
- Vrd4Acos.Evaluate: `call_v4_f64` is modelled by its effect, a per-lane replacement by the scalar acos under the mask. `all_v4_u64_loop` is modelled on lane masks that are all-ones or zero, the only values the comparisons produce.
- VrdaCosh.Evaluate: `length` is an unbounded integer, not a 32-bit `int`. The masked load of lane 1 (read as 0) and the discarded lane-1 result are not modelled. The arrays are assumed long enough for `length`, as the C assumes. Input and output are either the same array or disjoint; buffers that overlap at an offset (`output == input + 1`, legal since the pointers are not `restrict`) are not modelled, and on them a later pair reads an element an earlier store already overwrote.
- Vrd8Erfc.Evaluate and Vrs16Erfcf.Evaluate: the AVX-512 register operations are modelled as sequences of lane values.
- Documentation and code disagree in three places; the model follows the code:
  - the `2**-23` comment beside `B1_SUB2`, whose value is 0x00800000;
  - the `vrd2_asin` comment that puts |x| = 0.5 on the direct formula, where the code transforms it;
  - the `vrd4_acos` comment that sends NaN to the scalar fallback, where the ordered compares keep NaN lanes on the vector path.

## Findings

| source | as written | input that shows it | evidently intended | confidence | as-written member | corrected member |
|---|---|---|---|---|---|---|
| src/arch/zen4/vrd8_erfc.c:279-288 | `inf_cond_mask` tests the all-ones result of `\|x\| == INF`, a NaN when read as a double, with an ordered `!= 0.0`, so it is never set and infinite lanes get the NaN of `x - x` | all lanes +Inf | erfc(+Inf) = +0 and erfc(-Inf) = 2, as the file's own comment states | high; not executed | Vrd8Erfc.InfinityGivesNaN | Vrd8Erfc.FixedAgreesWithScalar |
| src/arch/zen4/vrd8_erfc.c:381-387 | the range-4 test `ix >= 28` on the upper word also accepts NaN lanes | lanes NaN and 28 | NaN in gives NaN out | high; not executed | Vrd8Erfc.NaNLaneSaturates | Vrd8Erfc.FixedAgreesWithScalar |
| src/arch/zen4/vrd8_erfc.c:340-357 | one all-lanes test picks RA/SA or RB/SB for the whole vector | lanes 1.5 and 3 | each lane uses the coefficients the scalar kernel picks for it | medium; not executed | Vrd8Erfc.JointTailCoefficients | Vrd8Erfc.FixedAgreesWithScalar |
| src/arch/zen4/vrs16_erfcf.c:271-279 | one special lane sends every lane through the special blend | lanes NaN and +0 | finite lanes keep their own result (erfcf(0) = 1) | high; not executed | Vrs16Erfcf.AnyLaneGate | Vrs16Erfcf.FixedAgreesWithScalar |
| src/arch/zen4/vrs16_erfcf.c:273-278 | `inf_result` adds `sign << 1` to the bits of 1.0 | lanes +Inf and -Inf | +0 for +Inf and 2 for -Inf | high; not executed | Vrs16Erfcf.IntegerInfResult | Vrs16Erfcf.FixedAgreesWithScalar |
| src/arch/zen4/vrs16_erfcf.c:283-309 | the sub-range test `hx < 1/4` is unsigned, so negative lanes fail it | lanes -0.5 and 0.5 | the signed test of the scalar kernel | high; not executed | Vrs16Erfcf.UnsignedSubSplit | Vrs16Erfcf.FixedAgreesWithScalar |
| src/arch/zen4/vrs16_erfcf.c:343-348 | `large_cond` ANDs a sign-bit word with a compare mask, so the all-lanes test never holds | all lanes -7 | `two - tiny` for negatives of at least 6 | high; not executed | Vrs16Erfcf.NegativeBeyondSixNotConstant | Vrs16Erfcf.FixedAgreesWithScalar |
| src/arch/zen4/vrs16_erfcf.c:335-352 | one all-lanes test picks RA/SA or RB/SB for the whole vector | lanes 1.5 and 3 | each lane uses the coefficients the scalar kernel picks for it | medium; not executed | Vrs16Erfcf.JointTailCoefficients | Vrs16Erfcf.FixedAgreesWithScalar |
