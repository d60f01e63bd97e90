/** The binary tree hidden in a sequence of gaps.

    Leaves 0 .. |g| are separated by the gaps g[0] .. g[|g|-1]; the gap of a sorted key array
    at k is the length of the prefix shared by keys k and k+1. Every range of gaps has one
    deepest cut, its unique minimum, and cutting there recursively gives the radix tree.
    Internal node i of the parallel construction is named by one end of its leaf range. */
module GapTrees {

  /** A gap; beyond either end the gap is -1, shorter than any prefix. */
  function Gap(g: seq<int>, k: int): int
  {
    if 0 <= k < |g| then g[k] else -1
  }

  ghost predicate AllAbove(g: seq<int>, lo: int, hi: int, x: int)
    requires 0 <= lo && hi <= |g|
  {
    forall k :: lo <= k < hi ==> g[k] > x
  }

  /** Gaps of sorted distinct words: between two equal gaps there is a smaller one. */
  ghost predicate Separated(g: seq<int>)
  {
    && (forall k :: 0 <= k < |g| ==> g[k] >= 0)
    && (forall lo, hi {:trigger AllAbove(g, lo, hi, g[hi])} ::
          0 < lo <= hi < |g| && AllAbove(g, lo, hi, g[hi]) ==> g[lo - 1] != g[hi])
  }

  /** The leftmost leaf connected to leaf k by gaps that all exceed x. */
  function LeftReach(g: seq<int>, k: nat, x: int): (r: nat)
    requires k <= |g|
    ensures r <= k
  {
    if k > 0 && g[k - 1] > x then LeftReach(g, k - 1, x) else k
  }

  /** The rightmost leaf connected to leaf k by gaps that all exceed x. */
  function RightReach(g: seq<int>, k: nat, x: int): (r: nat)
    requires k <= |g|
    ensures k <= r <= |g|
    decreases |g| - k
  {
    if k < |g| && g[k] > x then RightReach(g, k + 1, x) else k
  }

  lemma {:induction false} LeftReachStops(g: seq<int>, k: nat, x: int)
    requires k <= |g| && x >= -1
    ensures AllAbove(g, LeftReach(g, k, x), k, x) && Gap(g, LeftReach(g, k, x) - 1) <= x
  {
    if k > 0 && g[k - 1] > x {
      LeftReachStops(g, k - 1, x);
    }
  }

  lemma {:induction false} RightReachStops(g: seq<int>, k: nat, x: int)
    requires k <= |g| && x >= -1
    ensures AllAbove(g, k, RightReach(g, k, x), x) && Gap(g, RightReach(g, k, x)) <= x
    decreases |g| - k
  {
    if k < |g| && g[k] > x {
      RightReachStops(g, k + 1, x);
    }
  }

  lemma LeftReachIs(g: seq<int>, k: nat, x: int, r: nat)
    requires r <= k <= |g| && x >= -1
    requires AllAbove(g, r, k, x) && Gap(g, r - 1) <= x
    ensures LeftReach(g, k, x) == r
  {
    LeftReachStops(g, k, x);
  }

  lemma RightReachIs(g: seq<int>, k: nat, x: int, r: nat)
    requires k <= r <= |g| && x >= -1
    requires AllAbove(g, k, r, x) && Gap(g, r) <= x
    ensures RightReach(g, k, x) == r
  {
    RightReachStops(g, k, x);
  }

  /** Position of the smallest gap of a range, the leftmost one should there be several. */
  function LowestGap(g: seq<int>, lo: nat, hi: nat): (m: nat)
    requires lo < hi <= |g|
    ensures lo <= m < hi
    decreases hi - lo
  {
    if lo + 1 == hi then lo
    else var m := LowestGap(g, lo + 1, hi); if g[lo] <= g[m] then lo else m
  }

  lemma {:induction false} LowestGapIsLowest(g: seq<int>, lo: nat, hi: nat)
    requires lo < hi <= |g|
    ensures var m := LowestGap(g, lo, hi); AllAbove(g, lo, m, g[m]) && AllAbove(g, m, hi, g[m] - 1)
    decreases hi - lo
  {
    if lo + 1 < hi {
      LowestGapIsLowest(g, lo + 1, hi);
    }
  }

  lemma LowestGapIsUnique(g: seq<int>, lo: nat, hi: nat, m: nat)
    requires Separated(g) && lo <= m < hi <= |g|
    requires AllAbove(g, lo, hi, g[m] - 1)
    ensures LowestGap(g, lo, hi) == m
    ensures AllAbove(g, lo, m, g[m]) && AllAbove(g, m + 1, hi, g[m])
  {
    var l := LowestGap(g, lo, hi);
    LowestGapIsLowest(g, lo, hi);
    assert g[l] <= g[m] <= g[l];
    if l < m {
      NoEqualMinimum(g, l, m);
    }
    if k :| m < k < hi && g[k] == g[m] {
      NoEqualMinimum(g, m, k);
    }
  }

  /** Two positions of a separated sequence cannot both be minimal on the range between. */
  lemma {:induction false} NoEqualMinimum(g: seq<int>, i: nat, j: nat)
    requires Separated(g) && i < j < |g| && g[i] == g[j]
    requires AllAbove(g, i, j + 1, g[i] - 1)
    ensures false
    decreases j - i
  {
    if !AllAbove(g, i + 1, j, g[j]) {
      var k :| i + 1 <= k < j && g[k] <= g[j];
      NoEqualMinimum(g, i, k);
    }
  }

  // ----- the range of internal node i, as the parallel construction names it

  /** An internal node extends from its own index towards the deeper of its two gaps. */
  predicate Ascends(g: seq<int>, i: nat)
  {
    Gap(g, i) > Gap(g, i - 1)
  }

  function First(g: seq<int>, i: nat): (first: nat)
    requires Separated(g) && i < |g|
    ensures first <= i
  {
    if Ascends(g, i) then i else LeftReach(g, i, Gap(g, i))
  }

  function Last(g: seq<int>, i: nat): (last: nat)
    requires Separated(g) && i < |g|
    ensures i <= last <= |g|
  {
    if Ascends(g, i) then RightReach(g, i, Gap(g, i - 1)) else i
  }

  function Split(g: seq<int>, i: nat): (m: nat)
    requires Separated(g) && i < |g|
    ensures First(g, i) <= m < Last(g, i)
  {
    NodeRange(g, i);
    LowestGap(g, First(g, i), Last(g, i))
  }

  /** A node is split at its unique lowest gap, which is higher than the gaps around it. */
  lemma SplitIsLowest(g: seq<int>, i: nat)
    requires Separated(g) && i < |g|
    ensures var lo, m, hi := First(g, i), Split(g, i), Last(g, i);
            && g[m] > Gap(g, lo - 1) && g[m] > Gap(g, hi)
            && AllAbove(g, lo, m, g[m]) && AllAbove(g, m + 1, hi, g[m])
  {
    var m := Split(g, i);
    NodeRange(g, i);
    LowestGapIsLowest(g, First(g, i), Last(g, i));
    LowestGapIsUnique(g, First(g, i), Last(g, i), m);
  }

  /** The range of a node is not empty and is cut off by gaps smaller than all inside. */
  lemma NodeRange(g: seq<int>, i: nat)
    requires Separated(g) && i < |g|
    ensures First(g, i) < Last(g, i)
    ensures AllAbove(g, First(g, i), Last(g, i), Gap(g, First(g, i) - 1))
    ensures AllAbove(g, First(g, i), Last(g, i), Gap(g, Last(g, i)))
    ensures Ascends(g, i) ==> Gap(g, Last(g, i)) <= Gap(g, i - 1)
    ensures !Ascends(g, i) ==> Gap(g, First(g, i) - 1) <= Gap(g, i)
  {
    if Ascends(g, i) {
      RightReachStops(g, i, Gap(g, i - 1));
    } else {
      LeftReachStops(g, i, Gap(g, i));
    }
    if !Ascends(g, i) && i > 0 {
      assert AllAbove(g, i, i, g[i]);
    }
  }

  /** A range cut off at both ends by smaller gaps, named from its ascending end. */
  lemma RangeOfAscending(g: seq<int>, lo: nat, hi: nat)
    requires Separated(g) && lo < hi <= |g|
    requires AllAbove(g, lo, hi, Gap(g, lo - 1)) && Gap(g, hi) <= Gap(g, lo - 1)
    ensures lo < |g| && First(g, lo) == lo && Last(g, lo) == hi
  {
    assert g[lo] > Gap(g, lo - 1);
    RightReachIs(g, lo, Gap(g, lo - 1), hi);
  }

  /** A range cut off at both ends by smaller gaps, named from its descending end. */
  lemma RangeOfDescending(g: seq<int>, lo: nat, hi: nat)
    requires Separated(g) && lo < hi < |g|
    requires AllAbove(g, lo, hi, g[hi]) && Gap(g, lo - 1) <= g[hi]
    ensures First(g, hi) == lo && Last(g, hi) == hi
  {
    assert g[hi - 1] > g[hi];
    LeftReachIs(g, hi, g[hi], lo);
  }

  // ----- all nodes: leaves 0 .. |g|, then internal node i at |g| + 1 + i

  function LeafCount(g: seq<int>): nat
  {
    |g| + 1
  }

  predicate IsNode(g: seq<int>, r: int)
  {
    0 <= r < LeafCount(g) + |g|
  }

  function Lo(g: seq<int>, r: nat): (lo: nat)
    requires Separated(g) && IsNode(g, r)
    ensures lo <= |g|
  {
    if r < LeafCount(g) then r else First(g, r - LeafCount(g))
  }

  function Hi(g: seq<int>, r: nat): (hi: nat)
    requires Separated(g) && IsNode(g, r)
    ensures Lo(g, r) <= hi <= |g|
    ensures Lo(g, r) == hi <==> r < LeafCount(g)
  {
    if r < LeafCount(g) then r
    else NodeRange(g, r - LeafCount(g)); Last(g, r - LeafCount(g))
  }

  function LeftChild(g: seq<int>, i: nat): (r: nat)
    requires Separated(g) && i < |g|
    ensures IsNode(g, r)
  {
    var m := Split(g, i);
    if m == First(g, i) then m else LeafCount(g) + m
  }

  function RightChild(g: seq<int>, i: nat): (r: nat)
    requires Separated(g) && i < |g|
    ensures IsNode(g, r)
  {
    var m := Split(g, i);
    if m + 1 == Last(g, i) then m + 1 else LeafCount(g) + m + 1
  }

  /** The two children of a node share out its leaf range at the split. */
  lemma ChildRanges(g: seq<int>, i: nat)
    requires Separated(g) && i < |g|
    ensures Lo(g, LeftChild(g, i)) == First(g, i) && Hi(g, LeftChild(g, i)) == Split(g, i)
    ensures Lo(g, RightChild(g, i)) == Split(g, i) + 1 && Hi(g, RightChild(g, i)) == Last(g, i)
  {
    var m := Split(g, i);
    SplitIsLowest(g, i);
    if m != First(g, i) {
      RangeOfDescending(g, First(g, i), m);
    }
    if m + 1 != Last(g, i) {
      RangeOfAscending(g, m + 1, Last(g, i));
    }
  }

  /** No two nodes have the same leaf range. */
  lemma RangeNamesNode(g: seq<int>, r: nat, s: nat)
    requires Separated(g) && IsNode(g, r) && IsNode(g, s)
    requires Lo(g, r) == Lo(g, s) && Hi(g, r) == Hi(g, s)
    ensures r == s
  {
    if r >= LeafCount(g) {
      var i, j := r - LeafCount(g), s - LeafCount(g);
      NodeRange(g, i);
      NodeRange(g, j);
      if i < j {
        SameRangeSameEnd(g, i, j);
      } else if j < i {
        SameRangeSameEnd(g, j, i);
      }
    }
  }

  lemma SameRangeSameEnd(g: seq<int>, i: nat, j: nat)
    requires Separated(g) && i < j < |g|
    ensures First(g, i) != First(g, j) || Last(g, i) != Last(g, j)
  {
    NodeRange(g, i);
    NodeRange(g, j);
  }

  // ----- parents

  /** The internal node that is split at gap m: the largest range in which m is lowest. */
  function Owner(g: seq<int>, m: nat): (i: nat)
    requires Separated(g) && m < |g|
    ensures i < |g|
  {
    var lo, hi := LeftReach(g, m, g[m]), RightReach(g, m + 1, g[m]);
    LeftReachStops(g, m, g[m]);
    RightReachStops(g, m + 1, g[m]);
    CutIsStrict(g, m, lo, hi);
    if Gap(g, lo - 1) >= Gap(g, hi) then lo else hi
  }

  /** A range in which m is lowest and that cannot be extended is cut off by strictly
      smaller gaps. */
  lemma CutIsStrict(g: seq<int>, m: nat, lo: nat, hi: nat)
    requires Separated(g) && lo <= m < hi <= |g|
    requires AllAbove(g, lo, m, g[m]) && AllAbove(g, m + 1, hi, g[m])
    requires Gap(g, lo - 1) <= g[m] && Gap(g, hi) <= g[m]
    ensures Gap(g, lo - 1) < g[m] && Gap(g, hi) < g[m]
    ensures Gap(g, lo - 1) == Gap(g, hi) ==> lo == 0 && hi == |g|
  {
    if hi < |g| {
      assert AllAbove(g, m + 1, hi, g[hi]);
      if 0 < lo && g[lo - 1] == g[hi] {
        NoEqualMinimum(g, lo - 1, hi);
      }
    }
  }

  lemma OwnerRange(g: seq<int>, m: nat)
    requires Separated(g) && m < |g|
    ensures First(g, Owner(g, m)) == LeftReach(g, m, g[m])
    ensures Last(g, Owner(g, m)) == RightReach(g, m + 1, g[m])
  {
    var lo, hi := LeftReach(g, m, g[m]), RightReach(g, m + 1, g[m]);
    LeftReachStops(g, m, g[m]);
    RightReachStops(g, m + 1, g[m]);
    NameOfRange(g, m, lo, hi);
    OwnerIs(g, m, lo, hi);
  }

  lemma OwnerIs(g: seq<int>, m: nat, lo: nat, hi: nat)
    requires Separated(g) && m < |g| && lo == LeftReach(g, m, g[m]) && hi == RightReach(g, m + 1, g[m])
    ensures Owner(g, m) == if Gap(g, lo - 1) >= Gap(g, hi) then lo else hi
  {
  }

  lemma NameOfRange(g: seq<int>, m: nat, lo: nat, hi: nat)
    requires Separated(g) && lo <= m < hi <= |g|
    requires AllAbove(g, lo, m, g[m]) && AllAbove(g, m + 1, hi, g[m])
    requires Gap(g, lo - 1) <= g[m] && Gap(g, hi) <= g[m]
    ensures var i := if Gap(g, lo - 1) >= Gap(g, hi) then lo else hi;
            i < |g| && First(g, i) == lo && Last(g, i) == hi
  {
    CutIsStrict(g, m, lo, hi);
    if Gap(g, lo - 1) >= Gap(g, hi) {
      RangeOfAscending(g, lo, hi);
    } else {
      RangeOfDescending(g, lo, hi);
    }
  }

  /** Owner is the inverse of Split. */
  lemma SplitOfOwner(g: seq<int>, m: nat)
    requires Separated(g) && m < |g|
    ensures Split(g, Owner(g, m)) == m
  {
    OwnerRange(g, m);
    LeftReachStops(g, m, g[m]);
    RightReachStops(g, m + 1, g[m]);
    LowestGapIsUnique(g, First(g, Owner(g, m)), Last(g, Owner(g, m)), m);
  }

  lemma ReachesOfSplit(g: seq<int>, i: nat)
    requires Separated(g) && i < |g|
    ensures LeftReach(g, Split(g, i), g[Split(g, i)]) == First(g, i)
    ensures RightReach(g, Split(g, i) + 1, g[Split(g, i)]) == Last(g, i)
  {
    var m := Split(g, i);
    SplitIsLowest(g, i);
    LeftReachIs(g, m, g[m], First(g, i));
    RightReachIs(g, m + 1, g[m], Last(g, i));
  }

  lemma OwnerOfSplit(g: seq<int>, i: nat)
    requires Separated(g) && i < |g|
    ensures Owner(g, Split(g, i)) == i
  {
    ReachesOfSplit(g, i);
    OwnerRange(g, Split(g, i));
    var j := Owner(g, Split(g, i));
    if i < j {
      SameRangeSameEnd(g, i, j);
    } else if j < i {
      SameRangeSameEnd(g, j, i);
    }
  }

  /** The gap at which the parent of a node is split: the larger of the two that cut the
      node off, or -1 for the node that covers all leaves. */
  function ParentGap(g: seq<int>, r: nat): (m: int)
    requires Separated(g) && IsNode(g, r)
    ensures -1 <= m < |g|
    ensures m == -1 <==> Lo(g, r) == 0 && Hi(g, r) == |g|
  {
    var lo, hi := Lo(g, r), Hi(g, r);
    if Gap(g, lo - 1) > Gap(g, hi) then lo - 1 else if hi < |g| then hi else -1
  }

  function Parent(g: seq<int>, r: nat): (p: int)
    requires Separated(g) && IsNode(g, r)
    ensures p == -1 || LeafCount(g) <= p < LeafCount(g) + |g|
  {
    var m := ParentGap(g, r);
    if m == -1 then -1 else LeafCount(g) + Owner(g, m)
  }

  lemma ParentOfChildren(g: seq<int>, i: nat)
    requires Separated(g) && i < |g|
    ensures Parent(g, LeftChild(g, i)) == LeafCount(g) + i
    ensures Parent(g, RightChild(g, i)) == LeafCount(g) + i
  {
    ChildRanges(g, i);
    SplitIsLowest(g, i);
    OwnerOfSplit(g, i);
    assert ParentGap(g, LeftChild(g, i)) == Split(g, i);
    assert ParentGap(g, RightChild(g, i)) == Split(g, i);
  }

  /** Every node but the one that covers all leaves is a child of its parent. */
  lemma ChildOfParent(g: seq<int>, r: nat)
    requires Separated(g) && IsNode(g, r) && Parent(g, r) != -1
    ensures var i := Parent(g, r) - LeafCount(g);
            r == LeftChild(g, i) || r == RightChild(g, i)
  {
    var m, i := ParentGap(g, r), Parent(g, r) - LeafCount(g);
    OwnerRange(g, m);
    SplitOfOwner(g, m);
    ChildRanges(g, i);
    CutOff(g, r);
    if m == Hi(g, r) {
      LeftReachIs(g, m, g[m], Lo(g, r));
      RangeNamesNode(g, r, LeftChild(g, i));
    } else {
      RightReachIs(g, m + 1, g[m], Hi(g, r));
      RangeNamesNode(g, r, RightChild(g, i));
    }
  }

  /** All gaps inside a node exceed the gap at which its parent is split. */
  lemma CutOff(g: seq<int>, r: nat)
    requires Separated(g) && IsNode(g, r)
    ensures AllAbove(g, Lo(g, r), Hi(g, r), Gap(g, ParentGap(g, r)))
    ensures Gap(g, Lo(g, r) - 1) <= Gap(g, ParentGap(g, r))
    ensures Gap(g, Hi(g, r)) <= Gap(g, ParentGap(g, r))
  {
    if r >= LeafCount(g) {
      NodeRange(g, r - LeafCount(g));
    }
  }

  /** A parent's range contains its child's and is strictly larger. */
  lemma ParentIsLarger(g: seq<int>, r: nat)
    requires Separated(g) && IsNode(g, r) && Parent(g, r) != -1
    ensures Lo(g, Parent(g, r)) <= Lo(g, r) && Hi(g, r) <= Hi(g, Parent(g, r))
    ensures Hi(g, r) - Lo(g, r) < Hi(g, Parent(g, r)) - Lo(g, Parent(g, r))
  {
    var i := Parent(g, r) - LeafCount(g);
    ChildOfParent(g, r);
    ChildRanges(g, i);
    if r == LeftChild(g, i) {
      assert Hi(g, r) < Last(g, i);
    } else {
      assert Lo(g, r) > First(g, i);
    }
  }
}
