/** Binary search over address lists, as `slice::partition_point` performs it. */
module Search {

  ghost predicate NonDecreasing(a: seq<nat>) {
    forall i, j :: 0 <= i < j < |a| ==> a[i] <= a[j]
  }

  /** `r` separates the addresses below `bound` from the rest. */
  ghost predicate Separates(a: seq<nat>, bound: nat, r: nat) {
    && r <= |a|
    && (forall i :: 0 <= i < r ==> a[i] < bound)
    && (forall i :: r <= i < |a| ==> bound <= a[i])
  }

  method PartitionPoint(a: seq<nat>, bound: nat) returns (r: nat)
    requires NonDecreasing(a)
    ensures Separates(a, bound, r)
  {
    var lo, hi := 0, |a|;
    while lo < hi
      invariant lo <= hi <= |a|
      invariant forall i :: 0 <= i < lo ==> a[i] < bound
      invariant forall i :: hi <= i < |a| ==> bound <= a[i]
    {
      var mid := lo + (hi - lo) / 2;
      if a[mid] < bound { lo := mid + 1; } else { hi := mid; }
    }
    r := lo;
  }

  /** Cuts for a range whose bounds are in order, or with no address between them, can be sliced. */
  ghost predicate Sliceable(a: seq<nat>, start: nat, end: nat) {
    forall i :: 0 <= i < |a| ==> !(end <= a[i] < start)
  }

  lemma {:induction false} CutsInOrder(a: seq<nat>, start: nat, lo: nat, end: nat, hi: nat)
    requires Separates(a, start, lo) && Separates(a, end, hi)
    ensures lo <= hi <==> Sliceable(a, start, end)
  {
    if lo > hi { assert end <= a[hi] < start; }
    if lo <= hi {
      forall i | 0 <= i < |a| ensures !(end <= a[i] < start) { }
    }
  }

  /** On a sorted list the cut index is unique and grows with the bound. */
  lemma {:induction false} SeparatesGrows(a: seq<nat>, b1: nat, r1: nat, b2: nat, r2: nat)
    requires Separates(a, b1, r1) && Separates(a, b2, r2) && b1 <= b2
    ensures r1 <= r2
  {
    if r1 > 0 {
      assert a[r1 - 1] < b1;
    }
  }
}
