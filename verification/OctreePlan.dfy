/** How many octree nodes every edge of the radix tree turns into, and which ids they get.

    A radix node covers a contiguous range of keys. The octree cells whose keys are exactly
    that range are the nodes its edge emits: an internal node emits the levels between its
    parent's and its own, a leaf emits the one level at which its key is first alone. */
module OctreePlan {
  import opened Prefixes
  import opened GapTrees
  import opened RadixTree

  const DIMENSIONS := 3
  const MAX_LEVEL := 10
  const SPATIAL_BITS := 30
  const PADDING_BITS := 2

  /** Strictly increasing keys inside the 30-bit spatial layout. */
  ghost predicate UniqueKeys(keys: seq<nat>)
  {
    && SortedKeys(keys)
    && (forall i :: 0 <= i < |keys| ==> FitsIn(keys[i], SPATIAL_BITS))
    && (forall i, j :: 0 <= i < j < |keys| ==> keys[i] < keys[j])
  }

  // ----- levels

  /** The octree level of a raw prefix length, as truncating division computes it. */
  function LevelOfPrefix(raw: int): int
  {
    if raw < PADDING_BITS then 0 else (raw - PADDING_BITS) / DIMENSIONS
  }

  function ParentLevel(g: seq<int>, r: nat): int
    requires Separated(g) && IsNode(g, r)
  {
    LevelOfPrefix(Gap(g, ParentGap(g, r)))
  }

  function Level(g: seq<int>, r: nat): int
    requires Separated(g) && IsNode(g, r)
  {
    if r < LeafCount(g) then ParentLevel(g, r) + 1
    else LevelOfPrefix(g[Split(g, r - LeafCount(g))])
  }

  /** Gaps between unique 30-bit keys, seen as 32-bit words. */
  ghost predicate SpatialGaps(g: seq<int>)
  {
    && Separated(g)
    && forall k :: 0 <= k < |g| ==> PADDING_BITS <= g[k] < KEY_BITS
  }

  lemma UniqueKeysHaveSpatialGaps(keys: seq<nat>)
    requires UniqueKeys(keys)
    ensures SpatialGaps(Gaps(keys))
  {
    GapsAreSeparated(keys);
    forall k | 0 <= k < |keys| - 1
      ensures PADDING_BITS <= Gaps(keys)[k] < KEY_BITS
    {
      PrefixOfPair(keys, k, k + 1);
      SharedPrefixIsSharedShift(keys[k], keys[k + 1], KEY_BITS, SPATIAL_BITS);
    }
  }

  lemma LevelOfParent(g: seq<int>, r: nat)
    requires Separated(g) && IsNode(g, r) && Parent(g, r) != -1
    ensures Level(g, Parent(g, r)) == ParentLevel(g, r)
  {
    SplitOfOwner(g, ParentGap(g, r));
  }

  /** Levels grow from parent to child; a leaf lies exactly one level below its parent. */
  lemma LevelBounds(g: seq<int>, r: nat)
    requires SpatialGaps(g) && IsNode(g, r)
    ensures 0 <= ParentLevel(g, r) <= Level(g, r) <= MAX_LEVEL
    ensures r < LeafCount(g) ==> Level(g, r) == ParentLevel(g, r) + 1
  {
    if r >= LeafCount(g) {
      CutOff(g, r);
      SplitIsLowest(g, r - LeafCount(g));
      assert g[Split(g, r - LeafCount(g))] > Gap(g, ParentGap(g, r));
    }
  }

  // ----- cells

  /** The cell of a key at a level: its leading octal digits. */
  function CellAt(key: nat, level: int): nat
    requires 0 <= level <= MAX_LEVEL
  {
    ShiftRight(key, SPATIAL_BITS - level * DIMENSIONS)
  }

  /** Keys share a cell exactly when all gaps between them reach down to its level. */
  lemma SharedCell(keys: seq<nat>, i: nat, j: nat, level: int)
    requires UniqueKeys(keys) && i < j < |keys| && 0 <= level <= MAX_LEVEL
    ensures CellAt(keys[i], level) == CellAt(keys[j], level)
            <==> AllAbove(Gaps(keys), i, j, level * DIMENSIONS + 1)
  {
    PrefixByGaps(keys, i, j, level * DIMENSIONS + 1);
    PrefixOfPair(keys, i, j);
    SharedPrefixIsSharedShift(keys[i], keys[j], KEY_BITS, SPATIAL_BITS - level * DIMENSIONS);
  }

  /** The edge above radix node r emits an octree node at this level. */
  ghost predicate Emits(g: seq<int>, r: nat, level: int)
    requires Separated(g) && IsNode(g, r)
  {
    ParentLevel(g, r) < level <= Level(g, r)
  }

  /** A range of keys that share a cell and are cut off from all others at its level. */
  ghost predicate FillsCell(g: seq<int>, lo: nat, hi: nat, level: int)
    requires lo <= hi <= |g|
  {
    && 0 <= level <= MAX_LEVEL
    && AllAbove(g, lo, hi, level * DIMENSIONS + 1)
    && Gap(g, lo - 1) < level * DIMENSIONS + 2
    && Gap(g, hi) < level * DIMENSIONS + 2
  }

  lemma EdgeFillsCell(g: seq<int>, r: nat, level: int)
    requires SpatialGaps(g) && IsNode(g, r) && Emits(g, r, level)
    ensures FillsCell(g, Lo(g, r), Hi(g, r), level)
  {
    LevelBounds(g, r);
    CutOff(g, r);
    if r >= LeafCount(g) {
      LowestGapIsLowest(g, Lo(g, r), Hi(g, r));
    }
  }

  /** The keys of a filled cell are exactly the keys of the range. */
  lemma KeysOfCell(keys: seq<nat>, lo: nat, hi: nat, level: int, k: nat)
    requires UniqueKeys(keys) && lo <= hi < |keys| && k < |keys|
    requires FillsCell(Gaps(keys), lo, hi, level)
    ensures CellAt(keys[k], level) == CellAt(keys[lo], level) <==> lo <= k <= hi
  {
    if k < lo {
      SharedCell(keys, k, lo, level);
      assert Gaps(keys)[lo - 1] <= level * DIMENSIONS + 1;
    } else if lo < k {
      SharedCell(keys, lo, k, level);
      if hi < k {
        assert Gaps(keys)[hi] <= level * DIMENSIONS + 1;
      }
    }
  }

  /** The keys of an emitted cell are exactly the keys below the radix node. */
  lemma CellOfEdge(keys: seq<nat>, r: nat, level: int, k: nat)
    requires UniqueKeys(keys) && SpatialGaps(Gaps(keys)) && IsNode(Gaps(keys), r)
    requires Emits(Gaps(keys), r, level) && k < |keys|
    ensures 0 <= level <= MAX_LEVEL
    ensures CellAt(keys[k], level) == CellAt(keys[Lo(Gaps(keys), r)], level)
            <==> Lo(Gaps(keys), r) <= k <= Hi(Gaps(keys), r)
  {
    EdgeFillsCell(Gaps(keys), r, level);
    KeysOfCell(keys, Lo(Gaps(keys), r), Hi(Gaps(keys), r), level, k);
  }

  lemma SameCellSameRange(keys: seq<nat>, lo: nat, hi: nat, lo': nat, hi': nat, level: int)
    requires UniqueKeys(keys) && lo <= hi < |keys| && lo' <= hi' < |keys|
    requires FillsCell(Gaps(keys), lo, hi, level) && FillsCell(Gaps(keys), lo', hi', level)
    requires CellAt(keys[lo], level) == CellAt(keys[lo'], level)
    ensures lo == lo' && hi == hi'
  {
    KeysOfCell(keys, lo, hi, level, lo');
    KeysOfCell(keys, lo, hi, level, hi');
    KeysOfCell(keys, lo', hi', level, lo);
    KeysOfCell(keys, lo', hi', level, hi);
  }

  /** No two edges emit the same cell. */
  lemma CellNamesEdge(keys: seq<nat>, r: nat, s: nat, level: int)
    requires UniqueKeys(keys) && SpatialGaps(Gaps(keys))
    requires IsNode(Gaps(keys), r) && IsNode(Gaps(keys), s)
    requires Emits(Gaps(keys), r, level) && Emits(Gaps(keys), s, level)
    requires 0 <= level <= MAX_LEVEL
    requires CellAt(keys[Lo(Gaps(keys), r)], level) == CellAt(keys[Lo(Gaps(keys), s)], level)
    ensures r == s
  {
    var g := Gaps(keys);
    EdgeFillsCell(g, r, level);
    EdgeFillsCell(g, s, level);
    SameCellSameRange(keys, Lo(g, r), Hi(g, r), Lo(g, s), Hi(g, s), level);
    RangeNamesNode(g, r, s);
  }

  /** The closest node at or above r whose edge emits the level. */
  function Climb(g: seq<int>, r: nat, level: int): (e: nat)
    requires Separated(g) && IsNode(g, r) && 1 <= level <= Level(g, r)
    ensures IsNode(g, e) && Emits(g, e, level)
    ensures Lo(g, e) <= Lo(g, r) && Hi(g, r) <= Hi(g, e)
    decreases |g| - (Hi(g, r) - Lo(g, r))
  {
    if ParentLevel(g, r) < level then r
    else
      assert Parent(g, r) != -1;
      LevelOfParent(g, r);
      ParentIsLarger(g, r);
      Climb(g, Parent(g, r), level)
  }

  /** Below the level at which a key is first alone, its cells are not emitted. */
  lemma NothingBelowLeaf(keys: seq<nat>, k: nat, r: nat, level: int)
    requires UniqueKeys(keys) && SpatialGaps(Gaps(keys)) && k < |keys| && IsNode(Gaps(keys), r)
    requires Emits(Gaps(keys), r, level) && Lo(Gaps(keys), r) <= k <= Hi(Gaps(keys), r)
    ensures level <= Level(Gaps(keys), k)
  {
    var g := Gaps(keys);
    if level > Level(g, k) {
      LevelBounds(g, r);
      LevelBounds(g, k);
      CellOfEdge(keys, k, Level(g, k), Lo(g, r));
      CellOfEdge(keys, k, Level(g, k), Hi(g, r));
      CellOfEdge(keys, r, level, k);
      CellIsCoarser(keys[Lo(g, r)], keys[k], Level(g, k), level);
      assert false;
    }
  }

  /** Keys that share a cell share all coarser cells. */
  lemma CellIsCoarser(a: nat, b: nat, coarse: int, fine: int)
    requires 0 <= coarse <= fine <= MAX_LEVEL
    requires CellAt(a, fine) == CellAt(b, fine)
    ensures CellAt(a, coarse) == CellAt(b, coarse)
  {
    var rest := (fine - coarse) * DIMENSIONS;
    ShiftRightTwice(a, SPATIAL_BITS - fine * DIMENSIONS, rest);
    ShiftRightTwice(b, SPATIAL_BITS - fine * DIMENSIONS, rest);
  }

  // ----- the plan kernel

  const ERROR_KEY := 1
  const ERROR_PARENT := 2
  const ERROR_LEVEL := 3
  const ERROR_PREFIX := 4

  datatype Entry = Entry(level: int, count: int, error: int)

  /** The raw prefix length recorded for a radix node's parent; none for the root. */
  datatype ParentPrefix = NoParent | InvalidParent | ParentPrefix(raw: int)

  function ReadParent(tree: Tree, r: nat): ParentPrefix
    requires r < |tree.parent|
  {
    var leaves, parent := |tree.nodes| + 1, tree.parent[r];
    if parent == -1 then NoParent
    else if parent < leaves || parent >= leaves + |tree.nodes| then InvalidParent
    else ParentPrefix(tree.nodes[parent - leaves].prefix)
  }

  /** The level and cell count of an edge, once the node itself has been found valid. */
  function EdgeEntry(leaf: bool, raw: int, parent: ParentPrefix): Entry
  {
    if parent.InvalidParent? then Entry(0, 0, ERROR_PARENT)
    else
      var parentLevel := if parent.NoParent? then 0 else LevelOfPrefix(parent.raw);
      var level := if leaf then parentLevel + 1 else LevelOfPrefix(raw);
      if level < 0 || level > MAX_LEVEL || level < parentLevel then Entry(0, 0, ERROR_LEVEL)
      else Entry(level, level - parentLevel, 0)
  }

  /** One thread of the plan kernel. */
  function PlanEntry(keys: seq<nat>, tree: Tree, r: nat): Entry
    requires |keys| == |tree.nodes| + 1 && |tree.parent| == |keys| + |tree.nodes| && r < |tree.parent|
  {
    if r < |keys| then
      if !FitsIn(keys[r], SPATIAL_BITS) then Entry(0, 0, ERROR_KEY)
      else EdgeEntry(true, 0, ReadParent(tree, r))
    else
      var raw := tree.nodes[r - |keys|].prefix;
      if !(PADDING_BITS <= raw < KEY_BITS) then Entry(0, 0, ERROR_PREFIX)
      else EdgeEntry(false, raw, ReadParent(tree, r))
  }

  lemma ParentIsRead(tree: Tree, g: seq<int>, r: nat)
    requires Separated(g) && IsTreeOf(tree, g) && IsNode(g, r)
    ensures ReadParent(tree, r) == if ParentGap(g, r) == -1 then NoParent
                                   else ParentPrefix(g[ParentGap(g, r)])
  {
    if ParentGap(g, r) != -1 {
      var i := Owner(g, ParentGap(g, r));
      assert tree.nodes[i] == NodeOf(g, i);
      SplitOfOwner(g, ParentGap(g, r));
    }
  }

  /** A thread that reports no error has computed the level and the number of cells of its
      edge. */
  lemma EntryIsEdge(keys: seq<nat>, tree: Tree, g: seq<int>, r: nat)
    requires |keys| == LeafCount(g) && Separated(g) && IsTreeOf(tree, g)
    requires IsNode(g, r) && PlanEntry(keys, tree, r).error == 0
    ensures PlanEntry(keys, tree, r) == Entry(Level(g, r), Level(g, r) - ParentLevel(g, r), 0)
  {
    LevelsAreRead(tree, g, r, Level(g, r), ParentLevel(g, r));
    EntryOfLevels(keys, tree, r, Level(g, r), ParentLevel(g, r));
  }

  /** The levels of a node and its parent, in terms of what its thread reads. */
  ghost predicate LevelsRead(tree: Tree, r: nat, level: int, parentLevel: int)
    requires r < |tree.parent| && |tree.parent| == 2 * |tree.nodes| + 1
  {
    var parent, leaves := ReadParent(tree, r), |tree.nodes| + 1;
    && parentLevel == (if parent.ParentPrefix? then LevelOfPrefix(parent.raw) else 0)
    && level == if r < leaves then parentLevel + 1 else LevelOfPrefix(tree.nodes[r - leaves].prefix)
  }

  lemma LevelsAreRead(tree: Tree, g: seq<int>, r: nat, level: int, parentLevel: int)
    requires Separated(g) && IsTreeOf(tree, g) && IsNode(g, r)
    requires level == Level(g, r) && parentLevel == ParentLevel(g, r)
    ensures LevelsRead(tree, r, level, parentLevel)
  {
    ParentIsRead(tree, g, r);
    if r >= LeafCount(g) {
      assert tree.nodes[r - LeafCount(g)] == NodeOf(g, r - LeafCount(g));
    }
  }

  /** A planning entry without error, in terms of what was read. */
  lemma EntryOfLevels(keys: seq<nat>, tree: Tree, r: nat, level: int, parentLevel: int)
    requires |keys| == |tree.nodes| + 1 && |tree.parent| == |keys| + |tree.nodes| && r < |tree.parent|
    requires LevelsRead(tree, r, level, parentLevel) && PlanEntry(keys, tree, r).error == 0
    ensures PlanEntry(keys, tree, r) == Entry(level, level - parentLevel, 0)
  {
  }

  lemma KeyIsSpatial(keys: seq<nat>, tree: Tree, r: nat)
    requires |keys| == |tree.nodes| + 1 && |tree.parent| == |keys| + |tree.nodes| && r < |keys|
    requires PlanEntry(keys, tree, r).error == 0
    ensures FitsIn(keys[r], SPATIAL_BITS)
  {
  }

  /** With levels that do not shrink from parent to child no level check fires. */
  lemma GoodLevels(leaf: bool, raw: int, parent: ParentPrefix)
    requires !parent.InvalidParent?
    requires parent.NoParent? || 0 <= LevelOfPrefix(parent.raw) < MAX_LEVEL
    requires leaf || (if parent.NoParent? then 0 else LevelOfPrefix(parent.raw)) <= LevelOfPrefix(raw) <= MAX_LEVEL
    ensures EdgeEntry(leaf, raw, parent).error == 0
  {
  }

  lemma ParentReadIsGood(tree: Tree, g: seq<int>, r: nat)
    requires SpatialGaps(g) && IsTreeOf(tree, g) && IsNode(g, r)
    ensures !ReadParent(tree, r).InvalidParent?
    ensures ReadParent(tree, r).NoParent? || 0 <= LevelOfPrefix(ReadParent(tree, r).raw) < MAX_LEVEL
    ensures ParentLevel(g, r)
            == if ReadParent(tree, r).NoParent? then 0 else LevelOfPrefix(ReadParent(tree, r).raw)
  {
    ParentIsRead(tree, g, r);
  }

  /** On unique spatial keys no thread reports an error. */
  lemma EntryOfUniqueKeys(keys: seq<nat>, tree: Tree, g: seq<int>, r: nat)
    requires |keys| == LeafCount(g) && SpatialGaps(g) && IsTreeOf(tree, g)
    requires IsNode(g, r) && (r < |keys| ==> FitsIn(keys[r], SPATIAL_BITS))
    ensures PlanEntry(keys, tree, r).error == 0
  {
    ParentReadIsGood(tree, g, r);
    if r < |keys| {
      GoodLevels(true, 0, ReadParent(tree, r));
    } else {
      LevelBounds(g, r);
      InternalPrefix(tree, g, r - |keys|);
      GoodLevels(false, tree.nodes[r - |keys|].prefix, ReadParent(tree, r));
    }
  }

  lemma InternalPrefix(tree: Tree, g: seq<int>, i: nat)
    requires SpatialGaps(g) && IsTreeOf(tree, g) && i < |g|
    ensures PADDING_BITS <= tree.nodes[i].prefix < KEY_BITS
    ensures LevelOfPrefix(tree.nodes[i].prefix) == Level(g, LeafCount(g) + i)
  {
    assert tree.nodes[i] == NodeOf(g, i);
  }

  lemma GoodEntriesMeanUniqueKeys(keys: seq<nat>, tree: Tree)
    requires SortedKeys(keys) && Separated(Gaps(keys)) && IsTreeOf(tree, Gaps(keys))
    requires forall r :: 0 <= r < |tree.parent| ==> PlanEntry(keys, tree, r).error == 0
    ensures UniqueKeys(keys)
  {
    forall i | 0 <= i < |keys|
      ensures FitsIn(keys[i], SPATIAL_BITS)
    {
      KeyIsSpatial(keys, tree, i);
    }
    forall i | 0 <= i < |keys| - 1
      ensures keys[i] < keys[i + 1]
    {
      NeighboursDiffer(keys, tree, i);
    }
    IncreasingFromNeighbours(keys);
  }

  lemma NeighboursDiffer(keys: seq<nat>, tree: Tree, i: nat)
    requires SortedKeys(keys) && Separated(Gaps(keys)) && IsTreeOf(tree, Gaps(keys))
    requires forall r :: 0 <= r < |tree.parent| ==> PlanEntry(keys, tree, r).error == 0
    requires i < |keys| - 1
    ensures keys[i] < keys[i + 1]
  {
    GapIsSpatial(keys, tree, Gaps(keys), i);
    PrefixOfPair(keys, i, i + 1);
  }

  lemma InnerEntryIsSpatial(keys: seq<nat>, tree: Tree, i: nat)
    requires |keys| == |tree.nodes| + 1 && |tree.parent| == |keys| + |tree.nodes| && i < |tree.nodes|
    requires PlanEntry(keys, tree, |keys| + i).error == 0
    ensures PADDING_BITS <= tree.nodes[i].prefix < KEY_BITS
  {
  }

  lemma GapIsSpatial(keys: seq<nat>, tree: Tree, g: seq<int>, i: nat)
    requires |keys| == LeafCount(g) && Separated(g) && IsTreeOf(tree, g) && i < |g|
    requires forall r :: 0 <= r < |tree.parent| ==> PlanEntry(keys, tree, r).error == 0
    ensures g[i] < KEY_BITS
  {
    var owner := Owner(g, i);
    assert PlanEntry(keys, tree, |keys| + owner).error == 0;
    InnerEntryIsSpatial(keys, tree, owner);
    SplitOfOwner(g, i);
    assert tree.nodes[owner] == NodeOf(g, owner);
  }

  lemma IncreasingFromNeighbours(keys: seq<nat>)
    requires SortedKeys(keys)
    requires forall i :: 0 <= i < |keys| - 1 ==> keys[i] < keys[i + 1]
    ensures forall i, j :: 0 <= i < j < |keys| ==> keys[i] < keys[j]
  {
    forall i, j | 0 <= i < j < |keys|
      ensures keys[i] < keys[j]
    {
      assert keys[i] < keys[i + 1] <= keys[j];
    }
  }

  /** The plan exists exactly for strictly increasing keys inside the 30-bit layout. */
  lemma PlanSucceedsForUniqueKeys(keys: seq<nat>, tree: Tree)
    requires SortedKeys(keys) && Separated(Gaps(keys)) && IsTreeOf(tree, Gaps(keys))
    ensures (forall r :: 0 <= r < |tree.parent| ==> PlanEntry(keys, tree, r).error == 0)
            <==> UniqueKeys(keys)
  {
    if UniqueKeys(keys) {
      UniqueKeysHaveSpatialGaps(keys);
      forall r | 0 <= r < |tree.parent|
        ensures PlanEntry(keys, tree, r).error == 0
      {
        EntryOfUniqueKeys(keys, tree, Gaps(keys), r);
      }
    } else if forall r :: 0 <= r < |tree.parent| ==> PlanEntry(keys, tree, r).error == 0 {
      GoodEntriesMeanUniqueKeys(keys, tree);
    }
  }
}
