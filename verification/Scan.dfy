/** Exclusive prefix sums, and finding the segment that a running index falls into. */
module Scan {

  /** Sum of the first n counts. */
  function Sum(counts: seq<nat>, n: nat): nat
    requires n <= |counts|
  {
    if n == 0 then 0 else Sum(counts, n - 1) + counts[n - 1]
  }

  lemma {:induction false} SumIsMonotone(counts: seq<nat>, m: nat, n: nat)
    requires m <= n <= |counts|
    ensures Sum(counts, m) <= Sum(counts, n)
    decreases n
  {
    if m < n {
      SumIsMonotone(counts, m, n - 1);
    }
  }

  /** The segment that holds running index x when segment r has counts[r] places. */
  function Segment(counts: seq<nat>, n: nat, x: nat): (r: nat)
    requires n <= |counts| && x < Sum(counts, n)
    ensures r < n && Sum(counts, r) <= x < Sum(counts, r) + counts[r]
  {
    if x >= Sum(counts, n - 1) then n - 1 else Segment(counts, n - 1, x)
  }

  lemma {:induction false} SegmentIsUnique(counts: seq<nat>, n: nat, r: nat, x: nat)
    requires r < n <= |counts| && Sum(counts, r) <= x < Sum(counts, r) + counts[r]
    ensures x < Sum(counts, n) && Segment(counts, n, x) == r
    decreases n
  {
    if r < n - 1 {
      SegmentIsUnique(counts, n - 1, r, x);
    }
  }

  /** A running index lies in a segment exactly when the segment is found for it. */
  lemma SegmentHolds(counts: seq<nat>, r: nat, x: nat)
    requires r < |counts| && x < Sum(counts, |counts|)
    ensures Sum(counts, r) <= x < Sum(counts, r) + counts[r] <==> Segment(counts, |counts|, x) == r
  {
    if Sum(counts, r) <= x < Sum(counts, r) + counts[r] {
      SegmentIsUnique(counts, |counts|, r, x);
    }
  }

  function Offsets(counts: seq<nat>): (offsets: seq<nat>)
    ensures |offsets| == |counts|
  {
    seq(|counts|, r requires 0 <= r < |counts| => Sum(counts, r))
  }

  /** The exclusive scan as a sequential loop. */
  method ExclusiveSum(counts: seq<nat>) returns (offsets: seq<nat>)
    ensures offsets == Offsets(counts)
  {
    offsets := [];
    var total := 0;
    for r := 0 to |counts|
      invariant |offsets| == r && total == Sum(counts, r)
      invariant forall q :: 0 <= q < r ==> offsets[q] == Sum(counts, q)
    {
      offsets := offsets + [total];
      total := total + counts[r];
    }
  }
}
