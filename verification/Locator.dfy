/** `block_locator_indexes`. */
module Locator {
  import opened Numerals

  /** A sampled depth at or below `f` that is no further from it than `f` is from the top. */
  ghost predicate Covered(indexes: seq<nat>, f: nat, top: nat) {
    exists j | 0 <= j < |indexes| :: indexes[j] <= f && f - indexes[j] <= top - f
  }

  predicate StrictlyDecreasing(indexes: seq<nat>) {
    forall j, k | 0 <= j < k < |indexes| :: indexes[j] > indexes[k]
  }

  lemma CoverMore(indexes: seq<nat>, e: nat, f: nat, top: nat)
    requires Covered(indexes, f, top) || (e <= f && f - e <= top - f)
    ensures Covered(indexes + [e], f, top)
  {
    var longer := indexes + [e];
    if Covered(indexes, f, top) {
      var j :| 0 <= j < |indexes| && indexes[j] <= f && f - indexes[j] <= top - f;
      assert longer[j] == indexes[j];
    } else {
      assert longer[|indexes|] == e;
    }
  }

  /** Ten single steps, then doubling ones, down to genesis: the list falls strictly from the top to
      zero, grows with the logarithm of the depth, and samples every fork height closely enough. */
  method BlockLocatorIndexes(top: nat) returns (indexes: seq<nat>)
    ensures indexes != [] && indexes[0] == top && indexes[|indexes| - 1] == 0
    ensures StrictlyDecreasing(indexes)
    ensures |indexes| <= 11 || PowerOfTwo(|indexes| - 11) < top
    ensures forall f | 0 <= f <= top :: Covered(indexes, f, top)
  {
    indexes := [];
    var step, start := 1, 0;
    var i: int := top;
    while i > 0
      invariant |indexes| == start
      invariant start < 10 ==> step == 1 && top - i == start
      invariant start >= 10 ==> step == PowerOfTwo(start - 10) && top - i == 8 + 2 * step
      invariant start == 0 ==> i == top
      invariant start > 0 ==> indexes[0] == top && indexes[start - 1] == i + step && i + step > 0
      invariant StrictlyDecreasing(indexes)
      invariant forall f | i + step <= f <= top :: start > 0 ==> Covered(indexes, f, top)
      decreases i
    {
      ghost var previous, last := indexes, i + step;
      ghost var first := start == 0;
      forall f | i <= f <= top
        ensures Covered(previous + [i], f, top)
      {
        CoverMore(previous, i, f, top);
      }
      if start >= 10 {
        step := step * 2;
      }
      indexes := indexes + [i];
      i := i - step;
      start := start + 1;
    }
    forall f | 0 <= f <= top
      ensures Covered(indexes + [0], f, top)
    {
      CoverMore(indexes, 0, f, top);
    }
    indexes := indexes + [0];
  }
}
