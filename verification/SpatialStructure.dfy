/** The whole spatial pipeline as one function of the particles: box, keys, stable order, groups,
    radix tree, octree, cubes and moments; and the staged rebuild that computes it. */
module SpatialStructure {
  import opened Prefixes
  import R = RadixTree
  import opened LeafGroups
  import opened OctreePlan
  import opened OctreeIds
  import opened PlanBuilder
  import opened OctreeBuilder
  import opened OctreeShape
  import opened OctreeTrees
  import opened Forests
  import opened Vectors
  import opened Coverage
  import opened BarnesHut
  import opened DirectSum
  import opened Accelerations
  import opened Moments
  import opened MassKernels
  import opened BoundingBox
  import opened MortonKeys
  import opened OctreeGeometry
  import opened StableSort
  import opened Scan

  /** At least one particle, and no more than an int can count. */
  ghost predicate Populated(data: seq<Body>)
  {
    0 < |data| && FitsIn(|data|, R.KEY_BITS - 1)
  }

  function Places(data: seq<Body>): (points: seq<Vec>)
    ensures |points| == |data|
  {
    seq(|data|, i requires 0 <= i < |data| => data[i].position)
  }

  function Root(data: seq<Body>): (box: Cube)
    ensures box.half > 0.0
  {
    RootIsProper(Places(data));
    RootCube(Places(data))
  }

  lemma RootIsProper(points: seq<Vec>)
    ensures RootCube(points).half > 0.0
  {
    if points != [] {
      PointsKeepClear(points, 0);
    } else {
      assert BoundsOf(points) == Nothing;
    }
  }

  /** Morton keys by original index. */
  function Keys(data: seq<Body>): (keys: seq<nat>)
    ensures |keys| == |data|
  {
    var box := Root(data);
    seq(|data|, i requires 0 <= i < |data| => KeyOf(box, data[i].position))
  }

  function Order(data: seq<Body>): (order: seq<nat>)
    ensures |order| == |data|
  {
    StableOrder(Keys(data))
  }

  function SortedKeysOf(data: seq<Body>): (keys: seq<nat>)
    ensures |keys| == |data|
  {
    Sorted(Keys(data))
  }

  function KeyGroups(data: seq<Body>): Groups
  {
    GroupsOfKeys(SortedKeysOf(data))
  }

  lemma KeysFit(data: seq<Body>)
    ensures forall i :: 0 <= i < |data| ==> FitsIn(Keys(data)[i], SPATIAL_BITS)
  {
    forall i | 0 <= i < |data|
      ensures FitsIn(Keys(data)[i], SPATIAL_BITS)
    {
      KeyFits(Root(data), data[i].position);
    }
  }

  lemma SortedKeysAreKeys(data: seq<Body>)
    ensures IsOrder(Order(data)) && Nondecreasing(SortedKeysOf(data))
    ensures forall s :: 0 <= s < |data| ==> SortedKeysOf(data)[s] == Keys(data)[Order(data)[s]]
  {
    SortingIsStable(Keys(data));
  }

  /** No more groups than positions. */
  lemma {:induction false} FewerRuns(counts: seq<nat>, n: nat)
    requires n <= |counts| && forall k :: 0 <= k < |counts| ==> counts[k] > 0
    ensures n <= Sum(counts, n)
  {
    if n > 0 {
      FewerRuns(counts, n - 1);
    }
  }

  /** The key of a group is the key of its first position. */
  lemma GroupKeyIsKey(keys: seq<nat>, groups: Groups, k: nat)
    requires IsGrouping(keys, groups) && k < |groups.uniqueKeys|
    ensures groups.firstParticle[k] < |keys| && keys[groups.firstParticle[k]] == groups.uniqueKeys[k]
  {
    SumIsMonotone(groups.particleCount, k + 1, |groups.particleCount|);
  }

  lemma GroupKeysFit(data: seq<Body>, k: nat)
    requires IsGrouping(SortedKeysOf(data), KeyGroups(data)) && k < |KeyGroups(data).uniqueKeys|
    ensures FitsIn(KeyGroups(data).uniqueKeys[k], SPATIAL_BITS)
  {
    GroupKeyIsKey(SortedKeysOf(data), KeyGroups(data), k);
    SortedKeysAreKeys(data);
    KeysFit(data);
  }

  lemma GroupKeysAreUnique(data: seq<Body>)
    requires Populated(data)
    ensures IsGrouping(SortedKeysOf(data), KeyGroups(data))
    ensures UniqueKeys(KeyGroups(data).uniqueKeys)
    ensures GroupsOf(KeyGroups(data).uniqueKeys, KeyGroups(data))
  {
    SortedKeysAreKeys(data);
    GroupsOfKeysAreGrouping(SortedKeysOf(data));
    var groups := KeyGroups(data);
    FewerRuns(groups.particleCount, |groups.particleCount|);
    ShiftRightMonotone(|groups.uniqueKeys|, |data|, R.KEY_BITS - 1);
    forall k | 0 <= k < |groups.uniqueKeys|
      ensures FitsIn(groups.uniqueKeys[k], SPATIAL_BITS) && FitsIn(groups.uniqueKeys[k], R.KEY_BITS)
    {
      GroupKeysFit(data, k);
      FitsInWider(groups.uniqueKeys[k], SPATIAL_BITS, R.KEY_BITS);
    }
  }

  /** The table of cells of the octree. */
  function Cells(data: seq<Body>): seq<Cell>
    requires Populated(data)
  {
    GroupKeysAreUnique(data);
    UniqueKeysHaveSpatialGaps(KeyGroups(data).uniqueKeys);
    CellTable(KeyGroups(data).uniqueKeys, R.Gaps(KeyGroups(data).uniqueKeys))
  }

  lemma CellsAreGood(data: seq<Body>)
    requires Populated(data)
    ensures GoodCells(KeyGroups(data).uniqueKeys, Cells(data))
  {
    GroupKeysAreUnique(data);
    UniqueKeysHaveSpatialGaps(KeyGroups(data).uniqueKeys);
    CellTableIsGood(KeyGroups(data).uniqueKeys, R.Gaps(KeyGroups(data).uniqueKeys));
  }

  // ----- the arrays as a function of the cells

  ghost function Occupant(cells: seq<Cell>, slot: nat): (id: int)
    ensures id != -1 ==> 0 < id < |cells| && SlotOf(cells[id]) == slot
    ensures id == -1 ==> forall c :: 0 < c < |cells| ==> SlotOf(cells[c]) != slot
  {
    if c :| 0 < c < |cells| && SlotOf(cells[c]) == slot then c else -1
  }

  ghost function OctreeOf(cells: seq<Cell>, groups: Groups): Octree
  {
    Octree(seq(|cells|, id requires 0 <= id < |cells| => NodeOfCell(groups, cells[id])),
           seq(8 * |cells|, slot requires 0 <= slot < 8 * |cells| => Occupant(cells, slot)))
  }

  lemma OccupantIs(keys: seq<nat>, cells: seq<Cell>, id: nat)
    requires GoodCells(keys, cells) && 0 < id < |cells|
    ensures 0 <= SlotOf(cells[id]) < 8 * |cells| && Occupant(cells, SlotOf(cells[id])) == id
  {
    SlotNamesCell(keys, cells, id, id);
    var other := Occupant(cells, SlotOf(cells[id]));
    SlotNamesCell(keys, cells, id, other);
  }

  lemma OctreeOfCells(keys: seq<nat>, cells: seq<Cell>, groups: Groups)
    requires GoodCells(keys, cells)
    ensures IsOctreeOf(OctreeOf(cells, groups), cells, groups)
  {
    forall id | id in AllIds(cells)
      ensures 0 <= SlotOf(cells[id]) < 8 * |cells| && Occupant(cells, SlotOf(cells[id])) == id
    {
      OccupantIs(keys, cells, id);
    }
  }

  ghost function OctreeOfBodies(data: seq<Body>): Octree
    requires Populated(data)
  {
    OctreeOf(Cells(data), KeyGroups(data))
  }

  lemma OctreeIsGood(data: seq<Body>)
    requires Populated(data)
    ensures IsOctreeOf(OctreeOfBodies(data), Cells(data), KeyGroups(data))
    ensures WellFormed(OctreeOfBodies(data)) && LeavesPartition(OctreeOfBodies(data), |data|)
  {
    GroupKeysAreUnique(data);
    CellsAreGood(data);
    var o, groups := OctreeOfBodies(data), KeyGroups(data);
    OctreeOfCells(groups.uniqueKeys, Cells(data), groups);
    MaterializedOctreeIsWellFormed(groups.uniqueKeys, Cells(data), groups, o);
    MaterializedLeavesPartition(SortedKeysOf(data), Cells(data), groups, o);
  }

  /** What the whole pipeline builds from the particles is the recursive division of their keys. */
  lemma OctreeOfBodiesIsTopDown(data: seq<Body>)
    requires Populated(data)
    ensures var o, groups := OctreeOfBodies(data), KeyGroups(data);
            && |groups.uniqueKeys| == |groups.firstParticle| == |groups.particleCount|
            && ChildIdsValid(o) && 0 < |o.nodes|
            && ReadShape(o, 0, MAX_LEVEL) == TopDown(groups.uniqueKeys, groups, 0, 0)
  {
    GroupKeysAreUnique(data);
    OctreeIsGood(data);
    UniqueKeysHaveSpatialGaps(KeyGroups(data).uniqueKeys);
    OctreeIsTopDown(KeyGroups(data).uniqueKeys, KeyGroups(data), OctreeOfBodies(data));
  }

  ghost function MomentsOf(bodies: seq<Body>, o: Octree): (moments: seq<Moment>)
    requires WellFormed(o)
    ensures |moments| == |o.nodes|
  {
    seq(|o.nodes|, id requires 0 <= id < |o.nodes| => TreeMoment(bodies, TreeAt(o, id)))
  }

  function CubesOf(root: Cube, o: Octree): (cubes: seq<Cube>)
    ensures |cubes| == |o.nodes|
  {
    seq(|o.nodes|, id requires 0 <= id < |o.nodes| => NodeCube(root, o.nodes[id]))
  }

  function Sources(data: seq<Body>): (bodies: seq<Body>)
    ensures |bodies| == |data|
  {
    SortedKeysAreKeys(data);
    Gathered(data, Order(data))
  }

  /** Everything that the force kernel reads, as a function of the particles alone. */
  ghost function StructureOf(data: seq<Body>): Structure
    requires Populated(data)
  {
    OctreeIsGood(data);
    var o := OctreeOfBodies(data);
    Structure(o, Order(data), MomentsOf(Sources(data), o), CubesOf(Root(data), o))
  }

  // ----- what the structure is good for

  /** The range of an occupied leaf lies within the sorted positions. */
  lemma LeafRangeFits(o: Octree, n: nat, id: nat)
    requires LeavesPartition(o, n) && id < |o.nodes| && o.nodes[id].particleCount > 0
    ensures 0 <= o.nodes[id].firstParticle && o.nodes[id].firstParticle + o.nodes[id].particleCount <= n
  {
    assert InLeaf(o, id, o.nodes[id].firstParticle);
    assert InLeaf(o, id, o.nodes[id].firstParticle + o.nodes[id].particleCount - 1);
  }

  lemma RangesFitWithin(o: Octree, n: nat)
    requires WellFormed(o) && LeavesPartition(o, n)
    ensures RangesFit(o, n)
  {
    forall id | 0 <= id < |o.nodes| && o.nodes[id].particleCount > 0
      ensures o.nodes[id].firstParticle + o.nodes[id].particleCount <= n
    {
      LeafRangeFits(o, n, id);
    }
  }

  lemma NodeCubeIsProper(root: Cube, node: OctNode)
    requires root.half > 0.0
    ensures NodeCube(root, node).half > 0.0
  {
    if 0 <= node.level <= MAX_LEVEL {
      CubesAreProper(root, node.prefix, node.level);
    }
  }

  lemma StructureIsSound(data: seq<Body>)
    requires Populated(data)
    ensures SoundStructure(StructureOf(data), |data|)
  {
    var x := StructureOf(data);
    OctreeIsGood(data);
    SortedKeysAreKeys(data);
    RangesFitWithin(x.octree, |data|);
    forall id | 0 <= id < |x.cubes|
      ensures x.cubes[id].half > 0.0
    {
      NodeCubeIsProper(Root(data), x.octree.nodes[id]);
    }
  }

  // ----- every particle lies in the cubes of all nodes above it

  /** The cell that a key must lie in to be below node id. */
  ghost predicate InCellOf(cells: seq<Cell>, id: nat, key: nat)
    requires id < |cells|
  {
    cells[id].depth <= MAX_LEVEL && CellAt(key, cells[id].depth) == cells[id].index
  }

  lemma LeafKey(sortedKeys: seq<nat>, cells: seq<Cell>, groups: Groups, o: Octree, id: nat, s: nat)
    requires IsGrouping(sortedKeys, groups) && GoodCells(groups.uniqueKeys, cells)
    requires GroupsOf(groups.uniqueKeys, groups) && IsOctreeOf(o, cells, groups)
    requires InLeaf(o, id, s) && s < |sortedKeys|
    ensures InCellOf(cells, id, sortedKeys[s])
  {
    LeafRange(groups.uniqueKeys, cells, groups, o, id, s);
    assert HoldsItsKeys(groups.uniqueKeys, cells[id]);
  }

  lemma ChildKey(keys: seq<nat>, cells: seq<Cell>, groups: Groups, o: Octree, id: nat, octant: nat, key: nat)
    requires GoodCells(keys, cells) && IsOctreeOf(o, cells, groups)
    requires id < |cells| && octant < 8 && Child(o, id, octant) != -1
    ensures 0 <= Child(o, id, octant) < |cells|
    ensures InCellOf(cells, Child(o, id, octant), key) ==> InCellOf(cells, id, key)
  {
    var c := Child(o, id, octant);
    ChildIsCell(keys, cells, o.children, id, octant);
    if InCellOf(cells, c, key) {
      CellDigit(key, cells[c].depth);
    }
  }

  lemma {:induction false} MemberKey(sortedKeys: seq<nat>, cells: seq<Cell>, groups: Groups, o: Octree, id: nat, s: nat)
    requires IsGrouping(sortedKeys, groups) && GoodCells(groups.uniqueKeys, cells)
    requires GroupsOf(groups.uniqueKeys, groups) && IsOctreeOf(o, cells, groups)
    requires WellFormed(o) && IsId(o, id) && s in Members(TreeAt(o, id)) && s < |sortedKeys|
    ensures InCellOf(cells, id, sortedKeys[s])
    decreases MAX_LEVEL - o.nodes[id].level, 9
  {
    if o.nodes[id].particleCount > 0 {
      CountInRange(o.nodes[id].firstParticle, o.nodes[id].particleCount, s);
      LeafKey(sortedKeys, cells, groups, o, id, s);
    } else {
      KidKey(sortedKeys, cells, groups, o, id, 8, s);
    }
  }

  lemma {:induction false} KidKey(sortedKeys: seq<nat>, cells: seq<Cell>, groups: Groups, o: Octree, id: nat, k: nat,
                                  s: nat)
    requires IsGrouping(sortedKeys, groups) && GoodCells(groups.uniqueKeys, cells)
    requires GroupsOf(groups.uniqueKeys, groups) && IsOctreeOf(o, cells, groups)
    requires WellFormed(o) && IsId(o, id) && k <= 8 && s in ForestMembers(Kids(o, id, k)) && s < |sortedKeys|
    ensures InCellOf(cells, id, sortedKeys[s])
    decreases MAX_LEVEL - o.nodes[id].level, k
  {
    var c := Child(o, id, k - 1);
    assert ChildLinked(o, id, k - 1);
    if c != -1 {
      assert o.nodes[c].level <= MAX_LEVEL;
      if s in Members(TreeAt(o, c)) {
        MemberKey(sortedKeys, cells, groups, o, c, s);
        ChildKey(groups.uniqueKeys, cells, groups, o, id, k - 1, sortedKeys[s]);
      } else {
        KidKey(sortedKeys, cells, groups, o, id, k - 1, s);
      }
    } else {
      KidKey(sortedKeys, cells, groups, o, id, k - 1, s);
    }
  }

  lemma BodiesKeepClear(data: seq<Body>, i: nat)
    requires i < |data|
    ensures KeepsClear(Root(data), data[i].position)
  {
    PointsKeepClear(Places(data), i);
  }

  lemma CubeOfCell(root: Cube, groups: Groups, c: Cell)
    requires c.depth <= MAX_LEVEL
    ensures NodeCube(root, NodeOfCell(groups, c)) == CubeAt(root, PrefixOf(c.depth, c.index), c.depth)
  {
  }

  /** The particle at a sorted position below a node lies in the cube of the node. */
  lemma MemberInCube(data: seq<Body>, id: nat, s: nat)
    requires Populated(data) && WellFormed(OctreeOfBodies(data)) && IsId(OctreeOfBodies(data), id)
    requires s in Members(TreeAt(OctreeOfBodies(data), id)) && s < |data|
    ensures Contains(NodeCube(Root(data), OctreeOfBodies(data).nodes[id]), Sources(data)[s].position)
  {
    var o, groups, cells := OctreeOfBodies(data), KeyGroups(data), Cells(data);
    GroupKeysAreUnique(data);
    CellsAreGood(data);
    OctreeIsGood(data);
    MemberKey(SortedKeysOf(data), cells, groups, o, id, s);
    SortedKeysAreKeys(data);
    var i := Order(data)[s];
    BodiesKeepClear(data, i);
    PointInCubeOfCell(Root(data), data[i].position, cells[id].depth, cells[id].index);
    CubeOfCell(Root(data), groups, cells[id]);
  }
}
