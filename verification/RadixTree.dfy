/** The parallel radix tree over sorted keys: every thread finds the leaf range and the split
    of its own internal node by exponential and binary search, and the threads' scattered
    writes form one binary tree. */
module RadixTree {
  import opened Ints
  import opened Prefixes
  import opened GapTrees
  import opened Threads

  const KEY_BITS := 32
  const DEFENSIVE_PREFIX := 64

  /** Sorted 32-bit keys, at most 2^31 - 1 of them; equal keys are allowed. */
  ghost predicate SortedKeys(keys: seq<nat>)
  {
    && 0 < |keys| && FitsIn(|keys|, KEY_BITS - 1)
    && (forall i :: 0 <= i < |keys| ==> FitsIn(keys[i], KEY_BITS))
    && (forall i, j :: 0 <= i <= j < |keys| ==> keys[i] <= keys[j])
  }

  lemma IndexFits(keys: seq<nat>, i: nat)
    requires SortedKeys(keys) && i <= |keys|
    ensures FitsIn(i, KEY_BITS)
  {
    ShiftRightMonotone(i, |keys|, KEY_BITS - 1);
    FitsInWider(i, KEY_BITS - 1, KEY_BITS);
  }

  /** Length of the prefix shared by two keys; equal keys are told apart by their indices. */
  function LongestCommonPrefix(keys: seq<nat>, i: int, j: int): int
    requires SortedKeys(keys) && 0 <= i < |keys|
  {
    if j < 0 || j >= |keys| then -1
    else if i == j then DEFENSIVE_PREFIX
    else if keys[i] != keys[j] then
      XorFits(keys[i], keys[j], KEY_BITS);
      CountLeadingZeros(Xor(keys[i], keys[j]), KEY_BITS)
    else
      IndexFits(keys, i); IndexFits(keys, j); XorFits(i, j, KEY_BITS);
      KEY_BITS + CountLeadingZeros(Xor(i, j), KEY_BITS)
  }

  /** The prefix of two distinct leaves in terms of their keys and indices. */
  lemma PrefixOfPair(keys: seq<nat>, i: nat, j: nat)
    requires SortedKeys(keys) && i < |keys| && j < |keys| && i != j
    ensures FitsIn(i, KEY_BITS) && FitsIn(j, KEY_BITS)
    ensures LongestCommonPrefix(keys, i, j)
            == if keys[i] != keys[j] then CommonPrefix(keys[i], keys[j], KEY_BITS)
               else KEY_BITS + CommonPrefix(i, j, KEY_BITS)
    ensures 0 <= LongestCommonPrefix(keys, i, j) < DEFENSIVE_PREFIX
    ensures LongestCommonPrefix(keys, i, j) < KEY_BITS <==> keys[i] != keys[j]
    ensures LongestCommonPrefix(keys, i, j) == LongestCommonPrefix(keys, j, i)
  {
    IndexFits(keys, i);
    IndexFits(keys, j);
    if keys[i] != keys[j] {
      LeadingZerosOfXor(keys[i], keys[j], KEY_BITS);
      LeadingZerosOfXor(keys[j], keys[i], KEY_BITS);
      CommonPrefixBounds(keys[i], keys[j], KEY_BITS);
    } else {
      LeadingZerosOfXor(i, j, KEY_BITS);
      LeadingZerosOfXor(j, i, KEY_BITS);
      CommonPrefixBounds(i, j, KEY_BITS);
    }
  }

  /** Of three leaves in order, the outer prefix is the shorter of the inner two, and those
      two are never equally long. */
  lemma PrefixesOfThree(keys: seq<nat>, i: nat, j: nat, k: nat)
    requires SortedKeys(keys) && i < j < k < |keys|
    ensures var ij, jk := LongestCommonPrefix(keys, i, j), LongestCommonPrefix(keys, j, k);
            ij != jk && LongestCommonPrefix(keys, i, k) == if ij < jk then ij else jk
  {
    PrefixOfPair(keys, i, j);
    PrefixOfPair(keys, j, k);
    PrefixOfPair(keys, i, k);
    if keys[i] == keys[k] {
      CommonPrefixOfOuter(i, j, k, KEY_BITS);
      NeighbouringPrefixesDiffer(i, j, k, KEY_BITS);
    } else {
      CommonPrefixOfOuter(keys[i], keys[j], keys[k], KEY_BITS);
      if keys[i] < keys[j] < keys[k] {
        NeighbouringPrefixesDiffer(keys[i], keys[j], keys[k], KEY_BITS);
      }
    }
  }

  function Gaps(keys: seq<nat>): (g: seq<int>)
    requires SortedKeys(keys)
    ensures |g| == |keys| - 1
  {
    seq(|keys| - 1, k requires 0 <= k < |keys| - 1 => LongestCommonPrefix(keys, k, k + 1))
  }

  /** Far prefixes are determined by the gaps in between. */
  lemma {:induction false} PrefixByGaps(keys: seq<nat>, i: nat, j: nat, x: int)
    requires SortedKeys(keys) && i < j < |keys|
    ensures LongestCommonPrefix(keys, i, j) > x <==> AllAbove(Gaps(keys), i, j, x)
    decreases j
  {
    assert Gaps(keys)[j - 1] == LongestCommonPrefix(keys, j - 1, j);
    if i < j - 1 {
      PrefixByGaps(keys, i, j - 1, x);
      PrefixesOfThree(keys, i, j - 1, j);
    }
  }

  lemma GapsAreSeparated(keys: seq<nat>)
    requires SortedKeys(keys)
    ensures Separated(Gaps(keys))
    ensures forall k :: 0 <= k < |keys| - 1 ==> 0 <= Gaps(keys)[k] < DEFENSIVE_PREFIX
  {
    var g := Gaps(keys);
    forall k | 0 <= k < |g|
      ensures 0 <= g[k] < DEFENSIVE_PREFIX
    {
      PrefixOfPair(keys, k, k + 1);
    }
    forall lo, hi | 0 < lo <= hi < |g| && AllAbove(g, lo, hi, g[hi])
      ensures g[lo - 1] != g[hi]
    {
      PrefixesOfThree(keys, lo - 1, hi, hi + 1);
      PrefixByGaps(keys, lo - 1, hi, g[hi]);
      PrefixByGaps(keys, lo - 1, hi, g[hi] - 1);
    }
  }

  /** How far the prefix reaches when walking away from leaf i in one direction. */
  lemma PrefixBeyond(keys: seq<nat>, i: nat, j: int, x: int)
    requires SortedKeys(keys) && i < |keys| && i != j && x >= -1
    ensures LongestCommonPrefix(keys, i, j) > x
            <==> 0 <= j < |keys| && (if i < j then AllAbove(Gaps(keys), i, j, x)
                                     else AllAbove(Gaps(keys), j, i, x))
  {
    if i < j < |keys| {
      PrefixByGaps(keys, i, j, x);
    } else if 0 <= j < i {
      PrefixByGaps(keys, j, i, x);
      PrefixOfPair(keys, i, j);
    }
  }

  /** Between two distinct keys a common prefix stops at the first differing key. */
  lemma AdjacentPrefix(keys: seq<nat>, i: nat)
    requires SortedKeys(keys) && i < |keys|
    ensures LongestCommonPrefix(keys, i, i + 1) == Gap(Gaps(keys), i)
    ensures LongestCommonPrefix(keys, i, i - 1) == Gap(Gaps(keys), i - 1)
  {
    if i > 0 {
      PrefixOfPair(keys, i, i - 1);
    }
  }

  function DetermineDirection(keys: seq<nat>, i: nat): (d: int)
    requires SortedKeys(keys) && i < |keys|
    ensures d == if Ascends(Gaps(keys), i) then 1 else -1
  {
    AdjacentPrefix(keys, i);
    var deltaRight := LongestCommonPrefix(keys, i, i + 1);
    var deltaLeft := LongestCommonPrefix(keys, i, i - 1);
    if deltaRight > deltaLeft then 1 else -1
  }

  ghost predicate PowerOfTwo(n: nat)
  {
    n == 1 || (n > 0 && n % 2 == 0 && PowerOfTwo(n / 2))
  }

  /** Whether the leaf `steps` away from i still belongs to the range being searched. */
  predicate InRange(keys: seq<nat>, i: nat, direction: int, deltaMin: int, steps: int)
    requires SortedKeys(keys) && i < |keys|
  {
    LongestCommonPrefix(keys, i, i + steps * direction) > deltaMin
  }

  /** How many leaves away from i the far end of its range lies. */
  function Reach(g: seq<int>, i: nat): (reach: nat)
    requires Separated(g) && i < |g|
    ensures 0 < reach <= |g|
  {
    NodeRange(g, i);
    if Ascends(g, i) then Last(g, i) - i else i - First(g, i)
  }

  /** A probe answers yes exactly within the reach of the node. */
  lemma ProbeAnswers(keys: seq<nat>, i: nat, steps: int)
    requires SortedKeys(keys) && Separated(Gaps(keys)) && i < |keys| - 1 && steps > 0
    ensures var direction := DetermineDirection(keys, i);
            InRange(keys, i, direction, LongestCommonPrefix(keys, i, i - direction), steps)
            <==> steps <= Reach(Gaps(keys), i)
  {
    var g := Gaps(keys);
    AdjacentPrefix(keys, i);
    NodeRange(g, i);
    if Ascends(g, i) {
      PrefixBeyond(keys, i, i + steps, Gap(g, i - 1));
    } else {
      PrefixBeyond(keys, i, i - steps, Gap(g, i));
    }
  }

  method DetermineRange(keys: seq<nat>, i: nat) returns (first: nat, last: nat)
    requires |keys| <= MOST_KEYS
    requires SortedKeys(keys) && Separated(Gaps(keys)) && i < |keys| - 1
    ensures first == First(Gaps(keys), i) && last == Last(Gaps(keys), i)
  {
    var direction := DetermineDirection(keys, i);
    var deltaMin := LongestCommonPrefix(keys, i, i - direction);
    var length := BoundReach(keys, i, direction, deltaMin);
    var l := SearchReach(keys, i, direction, deltaMin, length);
    FarEnd(keys, i, direction);
    var j := i + l * direction;
    first := if i < j then i else j;
    last := if i > j then i else j;
  }

  /** The other end of the range lies the whole reach away in the direction of the node. */
  lemma FarEnd(keys: seq<nat>, i: nat, direction: int)
    requires SortedKeys(keys) && Separated(Gaps(keys)) && i < |keys| - 1
    requires direction == DetermineDirection(keys, i)
    ensures var g := Gaps(keys);
            var j := i + Reach(g, i) * direction;
            First(g, i) == (if i < j then i else j) && Last(g, i) == (if i > j then i else j)
  {
    AdjacentPrefix(keys, i);
    NodeRange(Gaps(keys), i);
  }

  /** Doubling until a probe leaves the range. */
  method BoundReach(keys: seq<nat>, i: nat, direction: int, deltaMin: int) returns (length: nat)
    requires |keys| <= MOST_KEYS
    requires SortedKeys(keys) && Separated(Gaps(keys)) && i < |keys| - 1
    requires direction == DetermineDirection(keys, i)
    requires deltaMin == LongestCommonPrefix(keys, i, i - direction)
    ensures 2 <= length && PowerOfTwo(length) && Reach(Gaps(keys), i) < length <= 2 * Reach(Gaps(keys), i)
  {
    ghost var reach: int := Reach(Gaps(keys), i);
    length := 2;
    var inside := Probe(keys, i, direction, deltaMin, length);
    while inside
      invariant 2 <= length <= 2 * reach && PowerOfTwo(length)
      invariant inside <==> length <= reach
      decreases 2 * reach + 1 - length
    {
      var doubled: Int := length * 2;
      length := doubled;
      inside := Probe(keys, i, direction, deltaMin, length);
    }
  }

  /** Binary search for the last leaf inside the range. */
  method SearchReach(keys: seq<nat>, i: nat, direction: int, deltaMin: int, length: nat) returns (l: nat)
    requires |keys| <= MOST_KEYS
    requires SortedKeys(keys) && Separated(Gaps(keys)) && i < |keys| - 1
    requires direction == DetermineDirection(keys, i)
    requires deltaMin == LongestCommonPrefix(keys, i, i - direction)
    requires 2 <= length && PowerOfTwo(length) && Reach(Gaps(keys), i) < length <= 2 * Reach(Gaps(keys), i)
    ensures l == Reach(Gaps(keys), i)
  {
    ghost var reach: int := Reach(Gaps(keys), i);
    l := 0;
    var t := length / 2;
    while t >= 1
      invariant 0 <= l <= reach && 0 <= t <= reach
      invariant if t >= 1 then PowerOfTwo(t) && reach < l + 2 * t else reach == l
    {
      var inside := Probe(keys, i, direction, deltaMin, l + t);
      if inside {
        l := l + t;
      }
      t := t / 2;
    }
  }

  /** One comparison of the search, as a yes-or-no answer. Probes may lie beyond both ends. */
  method Probe(keys: seq<nat>, i: nat, direction: int, deltaMin: int, steps: int)
    returns (inside: bool)
    requires |keys| <= MOST_KEYS
    requires SortedKeys(keys) && Separated(Gaps(keys)) && i < |keys| - 1 && steps > 0
    requires direction == DetermineDirection(keys, i)
    requires deltaMin == LongestCommonPrefix(keys, i, i - direction)
    requires steps <= 2 * Reach(Gaps(keys), i)
    ensures inside <==> steps <= Reach(Gaps(keys), i)
  {
    ProbeAnswers(keys, i, steps);
    ReachStaysInside(Gaps(keys), i);
    var probed: Int := i + steps * direction;
    inside := LongestCommonPrefix(keys, i, probed) > deltaMin;
  }

  lemma ReachStaysInside(g: seq<int>, i: nat)
    requires Separated(g) && i < |g|
    ensures if Ascends(g, i) then i + Reach(g, i) <= |g| else Reach(g, i) <= i
  {
    NodeRange(g, i);
  }

  /** The prefix shared by a whole range is its lowest gap, and a candidate shares more with
      the first key exactly up to the position of that gap. */
  lemma SplitProbe(keys: seq<nat>, first: nat, last: nat, candidate: nat)
    requires SortedKeys(keys) && Separated(Gaps(keys)) && first < last < |keys|
    requires first < candidate
    ensures var m := LowestGap(Gaps(keys), first, last);
            && LongestCommonPrefix(keys, first, last) == Gaps(keys)[m]
            && (candidate < last ==>
                  (LongestCommonPrefix(keys, first, candidate) > Gaps(keys)[m] <==> candidate <= m))
  {
    var g := Gaps(keys);
    var m := LowestGap(g, first, last);
    LowestGapIsLowest(g, first, last);
    PrefixByGaps(keys, first, last, g[m]);
    PrefixByGaps(keys, first, last, g[m] - 1);
    if candidate < last {
      PrefixByGaps(keys, first, candidate, g[m]);
    }
  }

  method FindSplit(keys: seq<nat>, first: nat, last: nat) returns (split: nat)
    requires |keys| <= MOST_KEYS
    requires SortedKeys(keys) && Separated(Gaps(keys)) && first < |keys| && last < |keys|
    ensures split == if first < last then LowestGap(Gaps(keys), first, last) else first
  {
    if first >= last {
      return first;
    }
    var nodePrefix := LongestCommonPrefix(keys, first, last);
    ghost var m := LowestGap(Gaps(keys), first, last);
    split := first;
    var step := last - first;
    var again := true;
    while again
      invariant 1 <= step && split <= m < split + step
      invariant first <= split < last
      invariant !again ==> step == 1
      decreases step, again
    {
      step := (step + 1) / 2;
      var candidate: Int := split + step;
      SplitProbe(keys, first, last, candidate);
      if candidate < last && LongestCommonPrefix(keys, first, candidate) > nodePrefix {
        split := candidate;
      }
      again := step > 1;
    }
  }

  // ----- the tree as arrays

  /** What thread i computes for internal node i. */
  datatype NodeRecord = NodeRecord(first: nat, last: nat, prefix: int, left: nat, right: nat)

  /** Leaf r is node r; internal node i is node |nodes| + 1 + i. */
  datatype Tree = Tree(nodes: seq<NodeRecord>, parent: seq<int>)

  function NodeOf(g: seq<int>, i: nat): NodeRecord
    requires Separated(g) && i < |g|
  {
    NodeRecord(First(g, i), Last(g, i), g[Split(g, i)], LeftChild(g, i), RightChild(g, i))
  }

  /** The arrays describe the gap tree, node by node. */
  ghost predicate IsTreeOf(tree: Tree, g: seq<int>)
    requires Separated(g)
  {
    && |tree.nodes| == |g| && |tree.parent| == LeafCount(g) + |g|
    && (forall i :: 0 <= i < |g| ==> tree.nodes[i] == NodeOf(g, i))
    && (forall c :: 0 <= c < |tree.parent| ==> tree.parent[c] == Parent(g, c))
  }

  method ComputeNode(keys: seq<nat>, i: nat) returns (n: NodeRecord)
    requires |keys| <= MOST_KEYS
    requires SortedKeys(keys) && Separated(Gaps(keys)) && i < |keys| - 1
    ensures n == NodeOf(Gaps(keys), i)
  {
    var first, last := DetermineRange(keys, i);
    NodeRange(Gaps(keys), i);
    var prefix := LongestCommonPrefix(keys, first, last);
    SplitProbe(keys, first, last, last);
    var split := FindSplit(keys, first, last);
    var left: Int := if split == first then split else |keys| + split;
    var right: Int := if split + 1 == last then split + 1 else |keys| + split + 1;
    n := NodeRecord(first, last, prefix, left, right);
  }

  /** A node has two distinct children, and no other node takes it for its parent. */
  lemma OnlyTwoChildren(g: seq<int>, i: nat)
    requires Separated(g) && i < |g|
    ensures LeftChild(g, i) != RightChild(g, i)
    ensures forall c :: IsNode(g, c) ==>
              (Parent(g, c) == LeafCount(g) + i <==> c == LeftChild(g, i) || c == RightChild(g, i))
  {
    ParentOfChildren(g, i);
    ChildRanges(g, i);
    forall c | IsNode(g, c) && Parent(g, c) == LeafCount(g) + i
      ensures c == LeftChild(g, i) || c == RightChild(g, i)
    {
      ChildOfParent(g, c);
    }
  }

  function Parents(g: seq<int>): (p: seq<int>)
    requires Separated(g)
    ensures |p| == LeafCount(g) + |g|
  {
    seq(LeafCount(g) + |g|, c requires 0 <= c < LeafCount(g) + |g| => Parent(g, c))
  }

  /** The parent array while some threads have not run yet. */
  function LinksWithout(parents: seq<int>, leaves: nat, threads: set<int>): (links: seq<int>)
    ensures |links| == |parents|
  {
    seq(|parents|, c requires 0 <= c < |parents| =>
      if parents[c] - leaves in threads then -1 else parents[c])
  }

  /** One thread adds the links of its two children and touches no others. */
  lemma ThreadAddsLinks(parents: seq<int>, leaves: nat, threads: set<int>, i: nat, left: nat, right: nat)
    requires i in threads && left < |parents| && right < |parents|
    requires forall c :: 0 <= c < |parents| ==> (parents[c] == leaves + i <==> c == left || c == right)
    ensures LinksWithout(parents, leaves, threads - {i})
            == LinksWithout(parents, leaves, threads)[left := leaves + i][right := leaves + i]
  {
  }

  lemma ChildLinks(g: seq<int>, i: nat)
    requires Separated(g) && i < |g|
    ensures forall c :: 0 <= c < |Parents(g)| ==>
              (Parents(g)[c] == LeafCount(g) + i <==> c == LeftChild(g, i) || c == RightChild(g, i))
  {
    OnlyTwoChildren(g, i);
    forall c | 0 <= c < |Parents(g)|
      ensures Parents(g)[c] == LeafCount(g) + i <==> c == LeftChild(g, i) || c == RightChild(g, i)
    {
      assert IsNode(g, c);
    }
  }

  /** The parent links with those of the two children of node i set. */
  function WithChildren(g: seq<int>, i: nat, links: seq<int>): seq<int>
    requires Separated(g) && i < |g| && |links| == LeafCount(g) + |g|
  {
    links[LeftChild(g, i) := LeafCount(g) + i][RightChild(g, i) := LeafCount(g) + i]
  }

  lemma NodeAddsLinks(g: seq<int>, threads: set<int>, i: nat)
    requires Separated(g) && i < |g| && i in threads
    ensures LinksWithout(Parents(g), LeafCount(g), threads - {i})
            == WithChildren(g, i, LinksWithout(Parents(g), LeafCount(g), threads))
  {
    ChildLinks(g, i);
    ThreadAddsLinks(Parents(g), LeafCount(g), threads, i, LeftChild(g, i), RightChild(g, i));
  }

  /** Thread i: its own node record, and the parent links of its two children. */
  method BuildTreeThread(keys: seq<nat>, i: nat, nodes: array<NodeRecord>, parent: array<int>)
    requires |keys| <= MOST_KEYS
    requires SortedKeys(keys) && Separated(Gaps(keys))
    requires i < nodes.Length == |keys| - 1 && parent.Length == 2 * |keys| - 1
    modifies nodes, parent
    ensures nodes[i] == NodeOf(Gaps(keys), i)
    ensures forall k :: 0 <= k < nodes.Length && k != i ==> nodes[k] == old(nodes[k])
    ensures parent[..] == WithChildren(Gaps(keys), i, old(parent[..]))
  {
    var n := ComputeNode(keys, i);
    nodes[i] := n;
    parent[n.left] := |keys| + i;
    parent[n.right] := |keys| + i;
  }

  /** The kernel: one thread for each internal node, in any order. */
  method BuildTreeKernel(keys: seq<nat>, nodes: array<NodeRecord>, parent: array<int>)
    requires |keys| <= MOST_KEYS
    requires SortedKeys(keys) && Separated(Gaps(keys))
    requires nodes.Length == |keys| - 1
    requires parent[..] == LinksWithout(Parents(Gaps(keys)), |keys|, ThreadIds(nodes.Length))
    modifies nodes, parent
    ensures forall i :: 0 <= i < nodes.Length ==> nodes[i] == NodeOf(Gaps(keys), i)
    ensures parent[..] == LinksWithout(Parents(Gaps(keys)), |keys|, {})
  {
    ghost var g, parents := Gaps(keys), Parents(Gaps(keys));
    var threads := ThreadIds(nodes.Length);
    while threads != {}
      invariant forall i :: i in threads ==> 0 <= i < nodes.Length
      invariant forall i :: 0 <= i < nodes.Length && i !in threads ==> nodes[i] == NodeOf(g, i)
      invariant parent[..] == LinksWithout(parents, LeafCount(g), threads)
    {
      var i :| i in threads;
      BuildTreeThread(keys, i, nodes, parent);
      NodeAddsLinks(g, threads, i);
      threads := threads - {i};
    }
  }

  method BuildTree(keys: seq<nat>) returns (tree: Tree)
    requires SortedKeys(keys) && |keys| <= MOST_KEYS
    ensures Separated(Gaps(keys)) && IsTreeOf(tree, Gaps(keys))
  {
    GapsAreSeparated(keys);
    var n := |keys|;
    var totalNodes: Int := 2 * n - 1;
    var nodes := new NodeRecord[n - 1](_ => NodeRecord(0, 0, 0, 0, 0));
    var parent := new int[totalNodes](_ => -1);
    NoLinksYet(Gaps(keys));
    assert parent[..] == LinksWithout(Parents(Gaps(keys)), n, ThreadIds(n - 1));
    if n > 1 {
      BuildTreeKernel(keys, nodes, parent);
    }
    tree := Tree(nodes[..], parent[..]);
  }

  lemma NoLinksYet(g: seq<int>)
    requires Separated(g)
    ensures forall c :: 0 <= c < |Parents(g)| ==>
              LinksWithout(Parents(g), LeafCount(g), ThreadIds(|g|))[c] == -1
  {
  }

  // ----- the simple form: cut the range at its lowest gap, then cut both parts

  datatype BinaryTree = Single(leaf: nat) | Fork(prefix: int, left: BinaryTree, right: BinaryTree)

  function TopDown(g: seq<int>, lo: nat, hi: nat): BinaryTree
    requires lo <= hi <= |g|
    decreases hi - lo
  {
    if lo == hi then Single(lo)
    else var m := LowestGap(g, lo, hi); Fork(g[m], TopDown(g, lo, m), TopDown(g, m + 1, hi))
  }

  /** The tree below node r as the arrays link it. */
  ghost function ReadBack(tree: Tree, g: seq<int>, r: nat): BinaryTree
    requires Separated(g) && IsTreeOf(tree, g) && IsNode(g, r)
    decreases Hi(g, r) - Lo(g, r)
  {
    if r < LeafCount(g) then Single(r)
    else
      var i := r - LeafCount(g);
      ChildRanges(g, i);
      Fork(tree.nodes[i].prefix,
           ReadBack(tree, g, tree.nodes[i].left), ReadBack(tree, g, tree.nodes[i].right))
  }

  lemma ReadBackStep(tree: Tree, g: seq<int>, i: nat)
    requires Separated(g) && IsTreeOf(tree, g) && i < |g|
    ensures ReadBack(tree, g, LeafCount(g) + i)
            == Fork(g[Split(g, i)], ReadBack(tree, g, LeftChild(g, i)), ReadBack(tree, g, RightChild(g, i)))
  {
    assert tree.nodes[i] == NodeOf(g, i);
  }

  lemma TopDownStep(g: seq<int>, i: nat)
    requires Separated(g) && i < |g|
    ensures First(g, i) < Last(g, i)
    ensures TopDown(g, First(g, i), Last(g, i))
            == Fork(g[Split(g, i)], TopDown(g, First(g, i), Split(g, i)),
                    TopDown(g, Split(g, i) + 1, Last(g, i)))
  {
    NodeRange(g, i);
  }

  lemma RangeOfInternal(g: seq<int>, i: nat, lo: nat, hi: nat)
    requires Separated(g) && i < |g| && lo == Lo(g, LeafCount(g) + i) && hi == Hi(g, LeafCount(g) + i)
    ensures lo == First(g, i) && hi == Last(g, i) && lo <= Split(g, i) < hi
  {
    NodeRange(g, i);
  }

  /** The same with the range of the node named. */
  lemma {:induction false} ReadsTopDown(tree: Tree, g: seq<int>, r: nat, lo: nat, hi: nat)
    requires Separated(g) && IsTreeOf(tree, g) && IsNode(g, r) && lo == Lo(g, r) && hi == Hi(g, r)
    ensures lo <= hi && ReadBack(tree, g, r) == TopDown(g, lo, hi)
    decreases hi - lo
  {
    if r >= LeafCount(g) {
      var i := r - LeafCount(g);
      RangeOfInternal(g, i, lo, hi);
      var m := Split(g, i);
      ChildRanges(g, i);
      ReadsTopDown(tree, g, LeftChild(g, i), lo, m);
      ReadsTopDown(tree, g, RightChild(g, i), m + 1, hi);
      ReadBackStep(tree, g, i);
      TopDownStep(g, i);
    }
  }

  /** The independently written nodes are the recursively built tree. */
  lemma ParallelTreeIsTopDown(tree: Tree, g: seq<int>, r: nat)
    requires Separated(g) && IsTreeOf(tree, g) && IsNode(g, r)
    ensures ReadBack(tree, g, r) == TopDown(g, Lo(g, r), Hi(g, r))
  {
    ReadsTopDown(tree, g, r, Lo(g, r), Hi(g, r));
  }

  function Interval(lo: nat, hi: nat): (s: seq<nat>)
    requires lo <= hi + 1
    ensures |s| == hi + 1 - lo && forall k :: 0 <= k < |s| ==> s[k] == lo + k
  {
    seq(hi + 1 - lo, k requires 0 <= k => lo + k)
  }

  function Leaves(t: BinaryTree): seq<nat>
  {
    match t
    case Single(leaf) => [leaf]
    case Fork(_, left, right) => Leaves(left) + Leaves(right)
  }

  lemma {:induction false} LeavesOfTopDown(g: seq<int>, lo: nat, hi: nat)
    requires lo <= hi <= |g|
    ensures Leaves(TopDown(g, lo, hi)) == Interval(lo, hi)
    decreases hi - lo
  {
    if lo < hi {
      var m := LowestGap(g, lo, hi);
      LeavesOfTopDown(g, lo, m);
      LeavesOfTopDown(g, m + 1, hi);
      assert Interval(lo, hi) == Interval(lo, m) + Interval(m + 1, hi);
    }
  }

  /** The only node without a parent: internal node 0, or the leaf of a one-key tree. */
  function Root(g: seq<int>): nat
  {
    if |g| == 0 then 0 else LeafCount(g)
  }

  lemma RootCoversAll(g: seq<int>, r: nat)
    requires Separated(g) && IsNode(g, r)
    ensures Lo(g, Root(g)) == 0 && Hi(g, Root(g)) == |g|
    ensures Parent(g, r) == -1 <==> r == Root(g)
  {
    if |g| > 0 {
      RightReachIs(g, 0, -1, |g|);
    }
    if Parent(g, r) == -1 {
      RangeNamesNode(g, r, Root(g));
    }
  }

  /** The threads' writes form one binary tree: from its root the arrays link every leaf
      exactly once, in key order. */
  lemma OneTree(tree: Tree, g: seq<int>)
    requires Separated(g) && IsTreeOf(tree, g)
    ensures ReadBack(tree, g, Root(g)) == TopDown(g, 0, |g|)
    ensures Leaves(ReadBack(tree, g, Root(g))) == Interval(0, |g|)
  {
    RootCoversAll(g, Root(g));
    ParallelTreeIsTopDown(tree, g, Root(g));
    LeavesOfTopDown(g, 0, |g|);
  }

  lemma RangeIsRecorded(tree: Tree, g: seq<int>, i: nat)
    requires Separated(g) && IsTreeOf(tree, g) && i < |g|
    ensures tree.nodes[i].first == Lo(g, LeafCount(g) + i) && tree.nodes[i].last == Hi(g, LeafCount(g) + i)
  {
  }

  lemma LeavesBelow(tree: Tree, g: seq<int>, r: nat, lo: nat, hi: nat)
    requires Separated(g) && IsTreeOf(tree, g) && IsNode(g, r) && lo == Lo(g, r) && hi == Hi(g, r)
    ensures lo <= hi && Leaves(ReadBack(tree, g, r)) == Interval(lo, hi)
  {
    ParallelTreeIsTopDown(tree, g, r);
    LeavesOfTopDown(g, lo, hi);
  }

  /** The leaves linked below an internal node are exactly its recorded range. */
  lemma LeavesOfNode(tree: Tree, g: seq<int>, i: nat)
    requires Separated(g) && IsTreeOf(tree, g) && i < |g|
    ensures Leaves(ReadBack(tree, g, LeafCount(g) + i))
            == Interval(tree.nodes[i].first, tree.nodes[i].last)
  {
    RangeIsRecorded(tree, g, i);
    LeavesBelow(tree, g, LeafCount(g) + i, tree.nodes[i].first, tree.nodes[i].last);
  }
}
