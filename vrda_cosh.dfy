/**
 * The array driver `vrda_cosh`: it walks the input two elements at a time
 * through the 2-lane kernel, then handles an odd last element with a masked
 * load and store. The 2-lane kernel `vrd2_cosh` is a parameter `cosh` applied
 * lane by lane.
 */
module VrdaCosh {
  import opened Ieee

  /** `DOUBLE_ELEMENTS_128_BIT`: two doubles per 128-bit register. */
  const PAIR: int := 2

  /** Where the pairwise loop stops: after the last whole pair, or at 0 when it does not run. */
  function LoopExit(length: int): (j: int)
    ensures length >= 0 ==> 0 <= j <= length
    ensures j % PAIR == 0
  {
    if length >= PAIR then length - length % PAIR else 0
  }

  /** `remainder = length - j` after the loop. */
  function Remainder(length: int): int
  {
    length - LoopExit(length)
  }

  /**
   * For a non-negative length the remainder is 0 or 1, and it is 1 exactly for
   * odd lengths; for a negative length it is the length itself, so never 1.
   */
  lemma RemainderIsZeroOrOne(length: int)
    ensures length >= 0 ==> 0 <= Remainder(length) <= 1
    ensures length >= 0 ==> (Remainder(length) == 1 <==> length % 2 == 1)
    ensures length < 0 ==> Remainder(length) == length
  {
  }

  /** The indices 0 .. n-1 in order. */
  function Indices(n: int): (s: seq<int>)
    ensures |s| == (if n < 0 then 0 else n) && forall i :: 0 <= i < |s| ==> s[i] == i
  {
    if n <= 0 then [] else Indices(n - 1) + [n - 1]
  }

  /**
   * `ALM_PROTO_OPT(vrda_cosh)`: `output[i]` becomes cosh of the original
   * `input[i]` for every i below `length`, nothing else changes, and `writes`
   * (the indices stored to, in order) lists each index of [0, length) once.
   * The input and output arrays may be the same array.
   */
  method Evaluate(length: int, input: array<u64>, output: array<u64>, cosh: u64 -> u64)
    returns (ghost writes: seq<int>)
    requires length <= input.Length && length <= output.Length
    modifies output
    ensures forall i :: 0 <= i < length ==> output[i] == cosh(old(input[i]))
    ensures forall i :: length <= i < output.Length && 0 <= i ==> output[i] == old(output[i])
    ensures input != output ==> input[..] == old(input[..])
    ensures writes == Indices(length)
  {
    var j := 0;
    writes := [];
    if length >= PAIR {
      while j <= length - PAIR
        invariant 0 <= j <= length && j % PAIR == 0
        invariant forall i :: 0 <= i < j ==> output[i] == cosh(old(input[i]))
        invariant forall i :: j <= i < output.Length ==> output[i] == old(output[i])
        invariant forall i :: j <= i < input.Length ==> input[i] == old(input[i])
        invariant input != output ==> input[..] == old(input[..])
        invariant writes == Indices(j)
      {
        // `_mm_loadu_pd` reads both lanes before `_mm_storeu_pd` writes them.
        var lo, hi := input[j], input[j + 1];
        output[j], output[j + 1] := cosh(lo), cosh(hi);
        writes := writes + [j, j + 1];
        j := j + PAIR;
      }
      assert j == LoopExit(length);
    }
    var remainder := length - j;
    if remainder == 1 {
      // The mask loads and stores lane 0 only; lane 1 is loaded as 0 and its result dropped.
      var lo := input[j];
      output[j] := cosh(lo);
      writes := writes + [j];
    }
  }
}
