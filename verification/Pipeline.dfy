/** The staged rebuild, the accelerations that follow from it, and what they mean for the
    particles: direct sum at opening angle zero, every other particle's mass exactly once, and
    failure exactly for particles that coincide without softening. */
module Pipeline {
  import opened Ints
  import opened Prefixes
  import R = RadixTree
  import opened LeafGroups
  import opened OctreePlan
  import opened OctreeIds
  import opened PlanBuilder
  import opened OctreeBuilder
  import opened OctreeTrees
  import opened Forests
  import opened Vectors
  import opened Coverage
  import opened BarnesHut
  import opened DirectSum
  import opened Accounting
  import opened Accelerations
  import opened Moments
  import opened OctreeMasses
  import opened BoundingBox
  import opened MortonKernels
  import opened OctreeGeometry
  import opened StableSort
  import opened SpatialStructure
  import opened OctreeLimits

  // ----- the rebuild

  /** The padded cube of the particles, and their keys in stable order. */
  method ComputeOrder(data: seq<Body>, grouping: Reduction) returns (box: Cube, sorted: seq<nat>, order: seq<nat>)
    requires 0 < |data| && forall i: nat :: i in Reduced(grouping) <==> i < |data|
    ensures box == Root(data) && sorted == SortedKeysOf(data) && order == Order(data)
  {
    var ok;
    ok, box := ComputeBox(Places(data), grouping);
    sorted, order := SortKeys(data, box);
  }

  method SortKeys(data: seq<Body>, box: Cube) returns (sorted: seq<nat>, order: seq<nat>)
    requires box == Root(data)
    ensures sorted == SortedKeysOf(data) && order == Order(data)
  {
    var keys := CreateKeys(box, Places(data));
    assert keys == Keys(data);
    sorted, order := StableSortByKey(keys);
  }

  /** All child slots of the octree of these particles can be counted in an int. */
  ghost predicate Countable(data: seq<Body>)
    requires Populated(data)
  {
    |OctreeOfBodies(data).nodes| <= MOST_NODES
  }

  /** Up to so many particles they always can. */
  lemma FewParticlesAreCountable(data: seq<Body>)
    requires Populated(data) && |data| <= MOST_GROUPS
    ensures Countable(data)
  {
    var groups := KeyGroups(data);
    GroupKeysAreUnique(data);
    FewerRuns(groups.particleCount, |groups.particleCount|);
    UniqueKeysHaveSpatialGaps(groups.uniqueKeys);
    FewKeysFit(groups.uniqueKeys, R.Gaps(groups.uniqueKeys));
    OctreeIsGood(data);
  }

  /** A countable octree has few keys. */
  lemma CountableKeys(data: seq<Body>)
    requires Populated(data) && Countable(data)
    ensures |KeyGroups(data).uniqueKeys| < MOST_NODES
    ensures UniqueKeys(KeyGroups(data).uniqueKeys) && SpatialGaps(R.Gaps(KeyGroups(data).uniqueKeys))
    ensures NodeCount(R.Gaps(KeyGroups(data).uniqueKeys)) <= MOST_NODES
  {
    var keys := KeyGroups(data).uniqueKeys;
    GroupKeysAreUnique(data);
    UniqueKeysHaveSpatialGaps(keys);
    ManyKeysDoNotFit(keys, R.Gaps(keys));
    OctreeIsGood(data);
  }

  method BuildTopology(data: seq<Body>, sorted: seq<nat>) returns (octree: Octree, error: int)
    requires Populated(data) && Countable(data) && sorted == SortedKeysOf(data)
    ensures error == 0 && octree == OctreeOfBodies(data)
  {
    SortedKeysAreKeys(data);
    GroupKeysAreUnique(data);
    var groups := BuildMortonLeafGroups(sorted);
    var keys := groups.uniqueKeys;
    ghost var g := R.Gaps(keys);
    CountableKeys(data);
    var tree := R.BuildTree(keys);
    var planned := BuildPlan(keys, tree);
    octree, error := BuildSparseOctree(keys, g, tree, groups, planned.plan);
    OctreeIsGood(data);
    OctreeIsUnique(octree, OctreeOfBodies(data), CellTable(keys, g), groups);
  }

  /** The index of a non-empty cell has no more bits than its level allows. */
  lemma CellIndexFits(key: nat, level: nat)
    requires FitsIn(key, SPATIAL_BITS) && level <= MAX_LEVEL
    ensures FitsIn(CellAt(key, level), level * DIMENSIONS)
  {
    ShiftRightTwice(key, SPATIAL_BITS - level * DIMENSIONS, level * DIMENSIONS);
  }

  lemma NodesAreValid(keys: seq<nat>, cells: seq<Cell>, groups: Groups, id: nat)
    requires GoodCells(keys, cells) && UniqueKeys(keys) && id < |cells|
    ensures NodeError(NodeOfCell(groups, cells[id])) == 0
  {
    var c := cells[id];
    assert HoldsItsKeys(keys, c);
    assert CellAt(keys[c.first], c.depth) == c.index;
    CellIndexFits(keys[c.first], c.depth);
    CellPrefixIsValid(c.depth, c.index);
  }

  lemma GeometryNeverFails(data: seq<Body>)
    requires Populated(data)
    ensures forall id :: 0 <= id < |OctreeOfBodies(data).nodes| ==> NodeError(OctreeOfBodies(data).nodes[id]) == 0
  {
    GroupKeysAreUnique(data);
    CellsAreGood(data);
    OctreeIsGood(data);
    forall id | 0 <= id < |OctreeOfBodies(data).nodes|
      ensures NodeError(OctreeOfBodies(data).nodes[id]) == 0
    {
      NodesAreValid(KeyGroups(data).uniqueKeys, Cells(data), KeyGroups(data), id);
    }
  }

  /** Every stage from the positions to the weighed octree, whatever the grouping of the box
      reduction; no stage reports an error. */
  method RebuildSpatialStructure(data: seq<Body>, grouping: Reduction) returns (x: Structure, error: int)
    requires Populated(data) && Countable(data) && forall i: nat :: i in Reduced(grouping) <==> i < |data|
    ensures error == 0 && x == StructureOf(data)
  {
    var order, octree, cubes, moments;
    var box, sorted;
    box, sorted, order := ComputeOrder(data, grouping);
    octree, error := BuildTopology(data, sorted);
    cubes, error := ComputeOctreeGeometry(octree, box);
    GeometryNeverFails(data);
    OctreeIsGood(data);
    SortedKeysAreKeys(data);
    RangesFitWithin(octree, |data|);
    moments, error := ComputeOctreeMassAndCenterOfMass(octree, order, data);
    assert cubes == CubesOf(box, octree);
    assert moments == MomentsOf(Sources(data), octree);
    x := Structure(octree, order, moments, cubes);
  }

  // ----- accelerations as a function of the particles

  /** The sorted position of a particle. */
  ghost function PositionOf(data: seq<Body>, i: nat): (s: nat)
    requires i < |data|
    ensures s < |data| && Order(data)[s] == i
  {
    SortedKeysAreKeys(data);
    OrderHits(Order(data), i);
    var s :| 0 <= s < |data| && Order(data)[s] == i;
    s
  }

  ghost function AccelerationOf(gravity: Gravity, data: seq<Body>): (a: seq<Vec>)
    requires Populated(data)
    ensures |a| == |data|
  {
    StructureIsSound(data);
    seq(|data|, i requires 0 <= i < |data| =>
      ForceAt(StructureOf(data), Sources(data), gravity, PositionOf(data, i)))
  }

  /** Some particle meets a singular source. */
  ghost predicate Fails(gravity: Gravity, data: seq<Body>)
    requires Populated(data)
  {
    StructureIsSound(data);
    exists s: nat :: s < |data| && FailsAt(StructureOf(data), Sources(data), gravity, s)
  }

  /** Gather into Morton order and evaluate; the results land at the original indices. */
  method ComputeAccelerations(gravity: Gravity, data: seq<Body>, x: Structure, next: array<Vec>)
    returns (error: int)
    requires Populated(data) && Countable(data) && x == StructureOf(data) && next.Length == |data|
    modifies next
    ensures error == 0 || error == 6
    ensures error == 6 <==> Fails(gravity, data)
    ensures error == 0 ==> next[..] == AccelerationOf(gravity, data)
  {
    StructureIsSound(data);
    var gathered := Sources(data);
    error := ComputeBarnesHutAcceleration(x, gathered, true, gravity, next);
    if error == 0 {
      forall i | 0 <= i < |data|
        ensures next[i] == AccelerationOf(gravity, data)[i]
      {
        var s := PositionOf(data, i);
        assert next[x.order[s]] == ForceAt(x, gathered, gravity, s);
      }
    }
  }

  // ----- the structure weighs and houses the particles

  lemma SourcesHaveMass(data: seq<Body>)
    requires NoNegativeMass(data)
    ensures NoNegativeMass(Sources(data))
  {
    SortedKeysAreKeys(data);
  }

  ghost function SceneFor(gravity: Gravity, data: seq<Body>, target: nat): Scene
    requires Populated(data)
  {
    SceneOf(StructureOf(data), Sources(data), gravity, target)
  }

  lemma NodeIsWeighed(gravity: Gravity, data: seq<Body>, target: nat, id: nat)
    requires Populated(data) && NoNegativeMass(Sources(data))
    requires WellFormed(OctreeOfBodies(data)) && IsId(OctreeOfBodies(data), id)
    ensures WeighedTree(SceneFor(gravity, data, target), TreeAt(OctreeOfBodies(data), id))
  {
    TreeMomentIsMoment(Sources(data), TreeAt(OctreeOfBodies(data), id));
  }

  lemma NodeHousesMembers(gravity: Gravity, data: seq<Body>, target: nat, id: nat)
    requires Populated(data) && target < |data|
    requires WellFormed(OctreeOfBodies(data)) && IsId(OctreeOfBodies(data), id)
    ensures Covers(SceneFor(gravity, data, target), OctreeOfBodies(data))
    ensures HousesMembers(SceneFor(gravity, data, target), OctreeOfBodies(data), id)
  {
    forall s | s in Members(TreeAt(OctreeOfBodies(data), id)) && s < |data|
      ensures Contains(NodeCube(Root(data), OctreeOfBodies(data).nodes[id]), Sources(data)[s].position)
    {
      MemberInCube(data, id, s);
    }
  }

  /** What the force kernel finds is physical, for every target. */
  lemma SceneIsPhysical(gravity: Gravity, data: seq<Body>, target: nat)
    requires Populated(data) && NoNegativeMass(data) && target < |data|
    ensures PhysicalScene(SceneFor(gravity, data, target), OctreeOfBodies(data))
  {
    OctreeIsGood(data);
    SourcesHaveMass(data);
    var o := OctreeOfBodies(data);
    forall id | 0 <= id < |o.nodes|
      ensures WeighedTree(SceneFor(gravity, data, target), TreeAt(o, id))
      ensures Covers(SceneFor(gravity, data, target), o)
      ensures HousesMembers(SceneFor(gravity, data, target), o, id)
    {
      NodeIsWeighed(gravity, data, target, id);
      NodeHousesMembers(gravity, data, target, id);
    }
  }
}
