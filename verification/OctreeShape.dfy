/** The simple form of the octree: divide the root cell, and every further cell that holds at
    least two keys, into its eight octants; a cell with a single key is a leaf. */
module OctreeShape {
  import opened Prefixes
  import opened RadixTree
  import opened LeafGroups
  import opened OctreePlan
  import opened OctreeIds
  import opened OctreeBuilder

  datatype Shape =
    | Vacant
    | Tip(level: int, prefix: nat, first: int, count: int)
    | Branch(level: int, prefix: nat, octants: seq<Shape>)

  ghost predicate InCell(keys: seq<nat>, level: nat, index: nat, k: int)
    requires level <= MAX_LEVEL
  {
    0 <= k < |keys| && CellAt(keys[k], level) == index
  }

  ghost predicate Alone(keys: seq<nat>, level: nat, index: nat, k: int)
    requires level <= MAX_LEVEL
  {
    InCell(keys, level, index, k) && forall j :: InCell(keys, level, index, j) ==> j == k
  }

  function PrefixOf(level: nat, index: nat): nat
    requires level <= MAX_LEVEL
  {
    if level == 0 then 0 else ShiftLeft(index, SPATIAL_BITS - level * DIMENSIONS)
  }

  ghost function TopDown(keys: seq<nat>, groups: Groups, level: nat, index: nat): Shape
    requires level <= MAX_LEVEL && |keys| == |groups.firstParticle| == |groups.particleCount|
    decreases MAX_LEVEL - level, 1
  {
    if !exists k :: InCell(keys, level, index, k) then Vacant
    else
      var k :| InCell(keys, level, index, k);
      if level > 0 && Alone(keys, level, index, k) then
        Tip(level, PrefixOf(level, index), groups.firstParticle[k], groups.particleCount[k])
      else if level == MAX_LEVEL then Vacant
      else Branch(level, PrefixOf(level, index), TopDownOctants(keys, groups, level, index))
  }

  ghost function TopDownOctants(keys: seq<nat>, groups: Groups, level: nat, index: nat): (octants: seq<Shape>)
    requires level < MAX_LEVEL && |keys| == |groups.firstParticle| == |groups.particleCount|
    ensures |octants| == 8
    decreases MAX_LEVEL - level, 0
  {
    seq(8, o requires 0 <= o < 8 => TopDown(keys, groups, level + 1, 8 * index + o))
  }

  ghost predicate ChildIdsValid(octree: Octree)
  {
    && |octree.children| == 8 * |octree.nodes|
    && forall s :: 0 <= s < |octree.children| && octree.children[s] != -1 ==>
         0 <= octree.children[s] < |octree.nodes|
  }

  /** What the arrays link together below a node; `fuel` levels deep at most. */
  function ReadShape(octree: Octree, id: nat, fuel: nat): Shape
    requires ChildIdsValid(octree) && id < |octree.nodes|
    decreases fuel, 1
  {
    var n := octree.nodes[id];
    if n.particleCount > 0 then Tip(n.level, n.prefix, n.firstParticle, n.particleCount)
    else if fuel == 0 then Vacant
    else Branch(n.level, n.prefix, ReadOctants(octree, id, fuel - 1))
  }

  function ReadOctants(octree: Octree, id: nat, fuel: nat): (octants: seq<Shape>)
    requires ChildIdsValid(octree) && id < |octree.nodes|
    ensures |octants| == 8
    decreases fuel, 2
  {
    seq(8, o requires 0 <= o < 8 =>
      if octree.children[8 * id + o] == -1 then Vacant
      else ReadShape(octree, octree.children[8 * id + o], fuel))
  }

  ghost predicate Empty(keys: seq<nat>, level: nat, index: nat)
    requires level <= MAX_LEVEL
  {
    forall k :: !InCell(keys, level, index, k)
  }

  /** A linked child is the cell of its octant. */
  lemma ChildIsCell(keys: seq<nat>, cells: seq<Cell>, children: seq<int>, id: nat, o: nat)
    requires GoodCells(keys, cells) && |children| == 8 * |cells| && ChildrenOf(children, cells, AllIds(cells))
    requires id < |cells| && o < 8 && children[8 * id + o] != -1
    ensures var c := children[8 * id + o];
            && 0 < c < |cells| && cells[c].depth == cells[id].depth + 1
            && cells[c].index == 8 * cells[id].index + o
  {
    var c := children[8 * id + o];
    assert LinkedToParent(cells, c);
    assert cells[c].parent == id && cells[c].index % 8 == o;
  }

  lemma CellBelow(keys: seq<nat>, cells: seq<Cell>, id: nat, index: nat, k: nat) returns (c: nat)
    requires GoodCells(keys, cells) && id < |cells| && !cells[id].leaf && cells[id].depth < MAX_LEVEL
    requires InCell(keys, cells[id].depth + 1, index, k) && index / 8 == cells[id].index
    ensures 0 < c < |cells| && cells[c].depth == cells[id].depth + 1 && cells[c].index == index
    ensures cells[c].parent == id
  {
    CellDigit(keys[k], cells[id].depth + 1);
    assert HoldsItsKeys(keys, cells[id]);
    assert Divided(keys, cells, id, k);
    c :| 0 < c < |cells| && cells[c].depth == cells[id].depth + 1
         && cells[c].index == CellAt(keys[k], cells[id].depth + 1);
    assert LinkedToParent(cells, c);
  }

  /** Every key of a divided cell finds its octant occupied. */
  lemma KeyHasChild(keys: seq<nat>, cells: seq<Cell>, children: seq<int>, id: nat, o: nat, k: nat)
    requires GoodCells(keys, cells) && |children| == 8 * |cells| && ChildrenOf(children, cells, AllIds(cells))
    requires id < |cells| && o < 8 && !cells[id].leaf && cells[id].depth < MAX_LEVEL
    requires InCell(keys, cells[id].depth + 1, 8 * cells[id].index + o, k)
    ensures children[8 * id + o] != -1
  {
    var c := CellBelow(keys, cells, id, 8 * cells[id].index + o, k);
    assert c in AllIds(cells);
  }

  lemma FreeOctantIsEmpty(keys: seq<nat>, cells: seq<Cell>, children: seq<int>, id: nat, o: nat)
    requires GoodCells(keys, cells) && |children| == 8 * |cells| && ChildrenOf(children, cells, AllIds(cells))
    requires id < |cells| && o < 8 && !cells[id].leaf && cells[id].depth < MAX_LEVEL
    requires children[8 * id + o] == -1
    ensures Empty(keys, cells[id].depth + 1, 8 * cells[id].index + o)
  {
    var level, index := cells[id].depth + 1, 8 * cells[id].index + o;
    if k :| InCell(keys, level, index, k) {
      KeyHasChild(keys, cells, children, id, o, k);
    }
  }

  /** Exactly the leaf cells below the root hold a single key. */
  lemma LeafIsAlone(keys: seq<nat>, cells: seq<Cell>, id: nat, k: nat)
    requires GoodCells(keys, cells) && id < |cells|
    requires InCell(keys, cells[id].depth, cells[id].index, k)
    ensures cells[id].leaf <==> cells[id].depth > 0 && Alone(keys, cells[id].depth, cells[id].index, k)
    ensures cells[id].leaf ==> cells[id].first == k
    ensures cells[id].depth == 0 <==> id == 0
  {
    var c := cells[id];
    assert HoldsItsKeys(keys, c);
    if id > 0 {
      assert LinkedToParent(cells, id);
    }
    assert InCell(keys, c.depth, c.index, c.first) && InCell(keys, c.depth, c.index, c.last);
  }

  /** The groups behind the keys all hold particles. */
  ghost predicate GroupsOf(keys: seq<nat>, groups: Groups)
  {
    && |keys| == |groups.firstParticle| == |groups.particleCount|
    && forall k :: 0 <= k < |keys| ==> groups.particleCount[k] > 0
  }

  lemma ShapeOfLeaf(keys: seq<nat>, cells: seq<Cell>, groups: Groups, octree: Octree, id: nat)
    requires GoodCells(keys, cells) && GroupsOf(keys, groups) && IsOctreeOf(octree, cells, groups)
    requires ChildIdsValid(octree) && id < |cells| && cells[id].leaf
    ensures cells[id].depth <= MAX_LEVEL
    ensures ReadShape(octree, id, MAX_LEVEL - cells[id].depth)
            == TopDown(keys, groups, cells[id].depth, cells[id].index)
  {
    var c := cells[id];
    assert HoldsItsKeys(keys, c);
    assert InCell(keys, c.depth, c.index, c.first);
    var k :| InCell(keys, c.depth, c.index, k);
    LeafIsAlone(keys, cells, id, c.first);
    LeafIsAlone(keys, cells, id, k);
    assert octree.nodes[id] == NodeOfCell(groups, c);
  }

  lemma BranchIsRead(keys: seq<nat>, cells: seq<Cell>, groups: Groups, octree: Octree, id: nat)
    requires GoodCells(keys, cells) && GroupsOf(keys, groups) && IsOctreeOf(octree, cells, groups)
    requires ChildIdsValid(octree) && id < |cells| && !cells[id].leaf
    ensures cells[id].depth < MAX_LEVEL
    ensures ReadShape(octree, id, MAX_LEVEL - cells[id].depth)
            == Branch(cells[id].depth, PrefixOf(cells[id].depth, cells[id].index),
                      ReadOctants(octree, id, MAX_LEVEL - cells[id].depth - 1))
  {
    assert octree.nodes[id] == NodeOfCell(groups, cells[id]);
  }

  lemma NobodyIsAlone(keys: seq<nat>, cells: seq<Cell>, id: nat)
    requires GoodCells(keys, cells) && id < |cells| && !cells[id].leaf
    ensures cells[id].depth <= MAX_LEVEL && exists k :: InCell(keys, cells[id].depth, cells[id].index, k)
    ensures forall k :: InCell(keys, cells[id].depth, cells[id].index, k) ==>
              !(cells[id].depth > 0 && Alone(keys, cells[id].depth, cells[id].index, k))
  {
    var c := cells[id];
    assert HoldsItsKeys(keys, c);
    assert InCell(keys, c.depth, c.index, c.first);
    forall k | InCell(keys, c.depth, c.index, k)
      ensures !(c.depth > 0 && Alone(keys, c.depth, c.index, k))
    {
      LeafIsAlone(keys, cells, id, k);
    }
  }

  lemma CrowdIsDivided(keys: seq<nat>, groups: Groups, level: nat, index: nat)
    requires level < MAX_LEVEL && |keys| == |groups.firstParticle| == |groups.particleCount|
    requires exists k :: InCell(keys, level, index, k)
    requires forall k :: InCell(keys, level, index, k) ==> !(level > 0 && Alone(keys, level, index, k))
    ensures TopDown(keys, groups, level, index)
            == Branch(level, PrefixOf(level, index), TopDownOctants(keys, groups, level, index))
  {
  }

  lemma ShapeOfBranch(keys: seq<nat>, cells: seq<Cell>, groups: Groups, octree: Octree, id: nat)
    requires GoodCells(keys, cells) && GroupsOf(keys, groups) && IsOctreeOf(octree, cells, groups)
    requires ChildIdsValid(octree) && id < |cells| && !cells[id].leaf
    ensures cells[id].depth < MAX_LEVEL
    ensures ReadShape(octree, id, MAX_LEVEL - cells[id].depth)
            == Branch(cells[id].depth, PrefixOf(cells[id].depth, cells[id].index),
                      ReadOctants(octree, id, MAX_LEVEL - cells[id].depth - 1))
    ensures TopDown(keys, groups, cells[id].depth, cells[id].index)
            == Branch(cells[id].depth, PrefixOf(cells[id].depth, cells[id].index),
                      TopDownOctants(keys, groups, cells[id].depth, cells[id].index))
  {
    BranchIsRead(keys, cells, groups, octree, id);
    NobodyIsAlone(keys, cells, id);
    CrowdIsDivided(keys, groups, cells[id].depth, cells[id].index);
  }

  /** The materialized arrays, read from any node down, are the recursively divided cell. */
  lemma {:induction false} ParallelOctreeIsTopDown(keys: seq<nat>, cells: seq<Cell>, groups: Groups,
                                                   octree: Octree, id: nat)
    requires GoodCells(keys, cells) && GroupsOf(keys, groups) && IsOctreeOf(octree, cells, groups)
    requires ChildIdsValid(octree) && id < |cells|
    ensures cells[id].depth <= MAX_LEVEL
    ensures ReadShape(octree, id, MAX_LEVEL - cells[id].depth)
            == TopDown(keys, groups, cells[id].depth, cells[id].index)
    decreases MAX_LEVEL - cells[id].depth, 1
  {
    var c := cells[id];
    if c.leaf {
      ShapeOfLeaf(keys, cells, groups, octree, id);
    } else {
      ShapeOfBranch(keys, cells, groups, octree, id);
      var fuel, level, index := MAX_LEVEL - c.depth - 1, c.depth, c.index;
      forall o: nat | o < 8
        ensures SameOctant(octree, keys, groups, id, fuel, level, index, o)
      {
        OctantIsTopDown(keys, cells, groups, octree, id, o);
      }
      SameOctants(octree, keys, groups, id, fuel, level, index);
    }
  }

  /** One octant of a node reads as the corresponding part of a divided cell. */
  ghost predicate SameOctant(octree: Octree, keys: seq<nat>, groups: Groups, id: nat, fuel: nat,
                             level: nat, index: nat, o: nat)
    requires ChildIdsValid(octree) && id < |octree.nodes| && o < 8
    requires level < MAX_LEVEL && |keys| == |groups.firstParticle| == |groups.particleCount|
  {
    (if octree.children[8 * id + o] == -1 then Vacant else ReadShape(octree, octree.children[8 * id + o], fuel))
    == TopDown(keys, groups, level + 1, 8 * index + o)
  }

  lemma SameOctants(octree: Octree, keys: seq<nat>, groups: Groups, id: nat, fuel: nat, level: nat, index: nat)
    requires ChildIdsValid(octree) && id < |octree.nodes|
    requires level < MAX_LEVEL && |keys| == |groups.firstParticle| == |groups.particleCount|
    requires forall o: nat :: o < 8 ==> SameOctant(octree, keys, groups, id, fuel, level, index, o)
    ensures ReadOctants(octree, id, fuel) == TopDownOctants(keys, groups, level, index)
  {
    forall o: nat | o < 8
      ensures ReadOctants(octree, id, fuel)[o] == TopDownOctants(keys, groups, level, index)[o]
    {
      assert SameOctant(octree, keys, groups, id, fuel, level, index, o);
    }
  }

  /** One octant: vacant in the arrays exactly when its cell is empty. */
  lemma {:induction false} OctantIsTopDown(keys: seq<nat>, cells: seq<Cell>, groups: Groups, octree: Octree, id: nat,
                                           o: nat)
    requires GoodCells(keys, cells) && GroupsOf(keys, groups) && IsOctreeOf(octree, cells, groups)
    requires ChildIdsValid(octree) && id < |cells| && !cells[id].leaf && cells[id].depth < MAX_LEVEL && o < 8
    ensures SameOctant(octree, keys, groups, id, MAX_LEVEL - cells[id].depth - 1, cells[id].depth, cells[id].index, o)
    decreases MAX_LEVEL - cells[id].depth, 0
  {
    if octree.children[8 * id + o] == -1 {
      FreeOctantIsEmpty(keys, cells, octree.children, id, o);
    } else {
      ChildIsCell(keys, cells, octree.children, id, o);
      ParallelOctreeIsTopDown(keys, cells, groups, octree, octree.children[8 * id + o]);
    }
  }

  lemma OctreeIdsAreValid(cells: seq<Cell>, groups: Groups, octree: Octree)
    requires IsOctreeOf(octree, cells, groups)
    ensures ChildIdsValid(octree)
  {
  }

  lemma OctreeOfCellsIsTopDown(keys: seq<nat>, cells: seq<Cell>, groups: Groups, octree: Octree)
    requires GoodCells(keys, cells) && GroupsOf(keys, groups) && IsOctreeOf(octree, cells, groups)
    ensures ChildIdsValid(octree) && 0 < |octree.nodes|
    ensures ReadShape(octree, 0, MAX_LEVEL) == TopDown(keys, groups, 0, 0)
  {
    OctreeIdsAreValid(cells, groups, octree);
    ParallelOctreeIsTopDown(keys, cells, groups, octree, 0);
  }

  /** For every strictly increasing array of 30-bit keys the threads, in whatever order they
      ran, leave exactly the top-down octree of the keys. */
  lemma OctreeIsTopDown(keys: seq<nat>, groups: Groups, octree: Octree)
    requires UniqueKeys(keys) && SpatialGaps(Gaps(keys)) && GroupsOf(keys, groups)
    requires IsOctreeOf(octree, CellTable(keys, Gaps(keys)), groups)
    ensures ChildIdsValid(octree) && 0 < |octree.nodes|
    ensures ReadShape(octree, 0, MAX_LEVEL) == TopDown(keys, groups, 0, 0)
  {
    CellTableIsGood(keys, Gaps(keys));
    OctreeOfCellsIsTopDown(keys, CellTable(keys, Gaps(keys)), groups, octree);
  }
}
