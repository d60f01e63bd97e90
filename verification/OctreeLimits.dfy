/** How many keys an octree may have before its child slots can no longer be counted in an int.
    On each of the two finest levels there are no more nodes than keys; on the levels above
    there are no more nodes than cells. */
module OctreeLimits {
  import opened Ints
  import opened Prefixes
  import opened GapTrees
  import opened RadixTree
  import opened OctreePlan
  import opened OctreeIds
  import opened OctreeSize
  import opened Scan

  const COARSE_LEVELS := 8
  const MOST_GROUPS := 124_630_747

  /** A number for every node: by its first key on the two finest levels, by its cell above. */
  function NodeNumber(c: Cell, keys: nat): nat
  {
    if c.depth == 0 then 0
    else if c.depth <= COARSE_LEVELS then 2 * keys + CellNumber(c.depth, c.index)
    else if c.depth == COARSE_LEVELS + 1 then c.first
    else keys + c.first
  }

  function NodeNumbers(cells: seq<Cell>, keys: nat): (numbers: seq<nat>)
    requires 0 < |cells|
    ensures |numbers| == |cells| - 1
    ensures forall i :: 0 <= i < |numbers| ==> numbers[i] == NodeNumber(cells[i + 1], keys)
  {
    seq(|cells| - 1, i requires 0 <= i < |cells| - 1 => NodeNumber(cells[i + 1], keys))
  }

  lemma NumberIsBounded(keys: seq<nat>, cells: seq<Cell>, id: nat, coarse: nat)
    requires GoodCells(keys, cells) && 0 < id < |cells| && coarse == COARSE_LEVELS
    requires forall k :: 0 <= k < |keys| ==> FitsIn(keys[k], SPATIAL_BITS)
    ensures NodeNumber(cells[id], |keys|) < 2 * |keys| + CellsUpTo(coarse)
  {
    assert LinkedToParent(cells, id) && HoldsItsKeys(keys, cells[id]);
    var c := cells[id];
    if c.depth <= coarse {
      CellIndexBound(keys[c.first], c.depth);
      CellsGrow(c.depth, coarse);
    }
  }

  lemma FirstKeyNamesCell(keys: seq<nat>, c: Cell)
    requires HoldsItsKeys(keys, c)
    ensures CellAt(keys[c.first], c.depth) == c.index
  {
  }

  /** Two nodes of one level do not start with the same key. */
  lemma SameFirstSameCell(keys: seq<nat>, cells: seq<Cell>, a: nat, b: nat)
    requires GoodCells(keys, cells) && 0 < a < b < |cells|
    requires cells[a].depth == cells[b].depth
    ensures cells[a].first != cells[b].first && cells[a].index != cells[b].index
  {
    assert HoldsItsKeys(keys, cells[a]) && HoldsItsKeys(keys, cells[b]);
    FirstKeyNamesCell(keys, cells[a]);
    FirstKeyNamesCell(keys, cells[b]);
  }

  lemma NodeNumbersDiffer(keys: seq<nat>, cells: seq<Cell>, a: nat, b: nat, coarse: nat)
    requires GoodCells(keys, cells) && 0 < a < b < |cells| && coarse == COARSE_LEVELS
    requires forall k :: 0 <= k < |keys| ==> FitsIn(keys[k], SPATIAL_BITS)
    ensures NodeNumber(cells[a], |keys|) != NodeNumber(cells[b], |keys|)
  {
    assert LinkedToParent(cells, a) && HoldsItsKeys(keys, cells[a]);
    assert LinkedToParent(cells, b) && HoldsItsKeys(keys, cells[b]);
    var c, d := cells[a], cells[b];
    if c.depth == d.depth {
      SameFirstSameCell(keys, cells, a, b);
    } else if c.depth <= coarse && d.depth <= coarse {
      CellIndexBound(keys[c.first], c.depth);
      CellIndexBound(keys[d.first], d.depth);
      if c.depth < d.depth {
        CoarserIsSmaller(c.depth, c.index, d.depth, d.index);
      } else {
        CoarserIsSmaller(d.depth, d.index, c.depth, c.index);
      }
    }
  }

  lemma NodeNumbersAreDistinct(keys: seq<nat>, cells: seq<Cell>, numbers: seq<nat>)
    requires GoodCells(keys, cells) && numbers == NodeNumbers(cells, |keys|)
    requires forall k :: 0 <= k < |keys| ==> FitsIn(keys[k], SPATIAL_BITS)
    ensures forall i, j :: 0 <= i < j < |numbers| ==> numbers[i] != numbers[j]
  {
    forall i, j | 0 <= i < j < |numbers|
      ensures numbers[i] != numbers[j]
    {
      NodeNumbersDiffer(keys, cells, i + 1, j + 1, COARSE_LEVELS);
    }
  }

  lemma FewNodes(keys: seq<nat>, cells: seq<Cell>, coarse: nat, bound: nat)
    requires GoodCells(keys, cells) && coarse == COARSE_LEVELS && bound == 2 * |keys| + CellsUpTo(coarse)
    requires forall k :: 0 <= k < |keys| ==> FitsIn(keys[k], SPATIAL_BITS)
    ensures |cells| <= 1 + bound
  {
    var numbers := NodeNumbers(cells, |keys|);
    forall i | 0 <= i < |numbers|
      ensures numbers[i] < bound
    {
      NumberIsBounded(keys, cells, i + 1, coarse);
    }
    NodeNumbersAreDistinct(keys, cells, numbers);
    Pigeonhole(numbers, bound);
  }

  lemma CoarseCells()
    ensures CellsUpTo(COARSE_LEVELS) == 19_173_960
  {
    assert PowerOfEight(4) == 4096;
    assert PowerOfEight(8) == 4096 * 4096;
    assert CellsUpTo(4) == 4680;
  }

  /** Up to so many distinct keys every slot of the octree can be counted, wherever the keys lie. */
  lemma FewKeysFit(keys: seq<nat>, g: seq<int>)
    requires UniqueKeys(keys) && g == Gaps(keys) && SpatialGaps(g) && |keys| <= MOST_GROUPS
    ensures NodeCount(g) <= MOST_NODES
  {
    CellTableIsGood(keys, g);
    CoarseCells();
    FewNodes(keys, CellTable(keys, g), COARSE_LEVELS, 2 * |keys| + CellsUpTo(COARSE_LEVELS));
  }

  lemma {:induction false} LeavesEmit(g: seq<int>, n: nat)
    requires SpatialGaps(g) && n <= LeafCount(g)
    ensures Sum(EdgeCounts(g), n) == n
  {
    if n > 0 {
      LeavesEmit(g, n - 1);
      LevelBounds(g, n - 1);
    }
  }

  /** Every key has a leaf of its own, so so many distinct keys are always too many. */
  lemma ManyKeysDoNotFit(keys: seq<nat>, g: seq<int>)
    requires UniqueKeys(keys) && g == Gaps(keys) && SpatialGaps(g)
    ensures |keys| < NodeCount(g)
    ensures |keys| >= MOST_NODES ==> NodeCount(g) > MOST_NODES
  {
    LeavesEmit(g, LeafCount(g));
    SumIsMonotone(EdgeCounts(g), LeafCount(g), |EdgeCounts(g)|);
  }

  lemma Powers()
    ensures Pow2(SPATIAL_BITS) >= MOST_NODES && Pow2(KEY_BITS - 1) > MOST_NODES
  {
    assert Pow2(10) == 1024;
    assert Pow2(20) == 1024 * 1024;
    assert Pow2(30) == 1024 * 1024 * 1024;
  }

  lemma NumberFits(i: nat, narrow: nat, wide: nat)
    requires i < Pow2(narrow) && narrow <= wide
    ensures FitsIn(i, narrow) && FitsIn(i, wide)
  {
    FitsBelowPower(i, narrow);
    FitsInWider(i, narrow, wide);
  }

  /** The first 2^28 keys in order: an octree whose slots cannot be counted, although its nodes
      can. */
  lemma CountableNodesButNotSlots(keys: seq<nat>)
    requires |keys| == MOST_NODES && forall i :: 0 <= i < |keys| ==> keys[i] == i
    ensures UniqueKeys(keys) && SpatialGaps(Gaps(keys))
    ensures MOST_NODES < NodeCount(Gaps(keys)) <= INT_MAX
  {
    Powers();
    forall i | 0 <= i < |keys|
      ensures FitsIn(keys[i], SPATIAL_BITS) && FitsIn(keys[i], KEY_BITS)
    {
      NumberFits(i, SPATIAL_BITS, KEY_BITS);
    }
    FitsBelowPower(|keys|, KEY_BITS - 1);
    UniqueKeysHaveSpatialGaps(keys);
    ManyKeysDoNotFit(keys, Gaps(keys));
    NodeCountFitsInt(keys, Gaps(keys));
  }
}
