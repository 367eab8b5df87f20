/** Finite sets of consecutive numbers, and cardinalities of sets. */
module Ranges {

  /** The numbers from lo up to, not including, hi. */
  function Range(lo: nat, hi: nat): (r: set<nat>)
    ensures forall c: nat :: c in r <==> lo <= c < hi
    ensures |r| == if lo <= hi then hi - lo else 0
    decreases hi - lo
  {
    if lo < hi then Range(lo + 1, hi) + {lo} else {}
  }

  lemma {:induction false} SubsetSize<T>(a: set<T>, b: set<T>)
    requires a <= b
    ensures |a| <= |b|
    ensures |a| == |b| ==> a == b
  {
    if x :| x in a {
      SubsetSize(a - {x}, b - {x});
    } else {
      assert a == {};
    }
  }
}
