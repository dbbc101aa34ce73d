/**
 * Boundary tables: an ordered list of region keys splits the key space into
 * consecutive half-open intervals, and the position of a key in the table names
 * the one interval that holds it.
 */
module Regions {

  predicate StrictlyIncreasing(bounds: seq<int>)
  {
    forall i, j :: 0 <= i < j < |bounds| ==> bounds[i] < bounds[j]
  }

  /**
   * The shape of an if/else-if threshold chain: the index of the first boundary
   * that `key` is below (|bounds| when it is below none).
   */
  function Position(bounds: seq<int>, key: int): (k: nat)
    ensures k <= |bounds|
  {
    if bounds == [] || key < bounds[0] then 0 else 1 + Position(bounds[1..], key)
  }

  /** Interval `k` of the table: at or above boundary k-1, below boundary k. */
  predicate InInterval(bounds: seq<int>, key: int, k: nat)
  {
    k <= |bounds| && (k == 0 || bounds[k - 1] <= key) && (k == |bounds| || key < bounds[k])
  }

  /**
   * For a strictly increasing table the intervals partition the key space and
   * the threshold chain finds the one holding `key`: `key` lies in interval `k`
   * exactly when its position is `k`.
   */
  lemma {:induction false} PositionIsInterval(bounds: seq<int>, key: int, k: nat)
    requires StrictlyIncreasing(bounds)
    ensures InInterval(bounds, key, k) <==> Position(bounds, key) == k
  {
    if bounds == [] {
    } else if key < bounds[0] {
      if 0 < k <= |bounds| {
        assert bounds[0] <= bounds[k - 1] by { if k - 1 > 0 { assert bounds[0] < bounds[k - 1]; } }
      }
    } else {
      var tail := bounds[1..];
      assert StrictlyIncreasing(tail) by {
        forall i, j | 0 <= i < j < |tail| ensures tail[i] < tail[j] {
          assert tail[i] == bounds[i + 1] && tail[j] == bounds[j + 1];
        }
      }
      assert Position(bounds, key) == 1 + Position(tail, key);
      if k == 0 {
        assert !InInterval(bounds, key, 0);
      } else {
        PositionIsInterval(tail, key, k - 1);
        ShiftInterval(bounds, key, k);
      }
    }
  }

  /** Dropping a boundary the key is at or above shifts the interval index down by one. */
  lemma ShiftInterval(bounds: seq<int>, key: int, k: nat)
    requires bounds != [] && bounds[0] <= key && k > 0
    ensures InInterval(bounds, key, k) <==> InInterval(bounds[1..], key, k - 1)
  {
    var tail := bounds[1..];
    if k - 1 > 0 && k - 1 <= |tail| { assert bounds[k - 1] == tail[k - 2]; }
    if k - 1 < |tail| { assert bounds[k] == tail[k - 1]; }
  }
}
