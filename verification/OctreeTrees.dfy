/** The octree arrays as a linked tree: what makes the links sound, and the tree that can be
    read back from them, children in the order of octants 7 down to 0. */
module OctreeTrees {
  import opened LeafGroups
  import opened OctreePlan
  import opened OctreeIds
  import opened OctreeBuilder
  import opened OctreeShape
  import opened Scan

  function Child(o: Octree, id: int, octant: int): int
    requires |o.children| == 8 * |o.nodes| && 0 <= id < |o.nodes| && 0 <= octant < 8
  {
    o.children[8 * id + octant]
  }

  ghost predicate ChildLinked(o: Octree, id: int, octant: int)
    requires |o.children| == 8 * |o.nodes| && 0 <= id < |o.nodes| && 0 <= octant < 8
  {
    var c := Child(o, id, octant);
    c != -1 ==> 0 < c < |o.nodes| && o.nodes[c].parent == id && o.nodes[c].level == o.nodes[id].level + 1
  }

  /** Node id is the child of its parent in this octant and in no other. */
  ghost predicate SitsIn(o: Octree, id: int, octant: int)
    requires |o.children| == 8 * |o.nodes| && 0 < id < |o.nodes| && 0 <= o.nodes[id].parent < |o.nodes|
    requires 0 <= octant < 8
  {
    && Child(o, o.nodes[id].parent, octant) == id
    && forall other :: 0 <= other < 8 && Child(o, o.nodes[id].parent, other) == id ==> other == octant
  }

  ghost predicate HasSeat(o: Octree, id: int)
    requires |o.children| == 8 * |o.nodes| && 0 < id < |o.nodes| && 0 <= o.nodes[id].parent < |o.nodes|
  {
    exists octant :: 0 <= octant < 8 && SitsIn(o, id, octant)
  }

  ghost predicate HasChild(o: Octree, id: int)
    requires |o.children| == 8 * |o.nodes| && 0 <= id < |o.nodes|
  {
    exists octant :: 0 <= octant < 8 && Child(o, id, octant) != -1
  }

  ghost predicate WellFormed(o: Octree)
  {
    && 0 < |o.nodes| && |o.children| == 8 * |o.nodes|
    && o.nodes[0].parent == -1 && o.nodes[0].level == 0
    && (forall id :: 0 <= id < |o.nodes| ==> 0 <= o.nodes[id].level <= MAX_LEVEL)
    && (forall id, octant :: 0 <= id < |o.nodes| && 0 <= octant < 8 ==> ChildLinked(o, id, octant))
    && (forall id :: 0 < id < |o.nodes| ==> 0 <= o.nodes[id].parent < |o.nodes|)
    && (forall id :: 0 < id < |o.nodes| ==> HasSeat(o, id))
    && (forall id :: 0 <= id < |o.nodes| ==>
          && o.nodes[id].particleCount >= 0 && (o.nodes[id].particleCount > 0 ==> o.nodes[id].firstParticle >= 0)
          && (o.nodes[id].particleCount == 0 <==> HasChild(o, id)))
  }

  /** Position s of the Morton order belongs to leaf id. */
  ghost predicate InLeaf(o: Octree, id: int, s: int)
  {
    0 <= id < |o.nodes| && o.nodes[id].firstParticle <= s < o.nodes[id].firstParticle + o.nodes[id].particleCount
  }

  ghost predicate Covered(o: Octree, s: int)
  {
    exists id :: InLeaf(o, id, s)
  }

  /** The leaf ranges share out the positions 0 .. n-1. */
  ghost predicate LeavesPartition(o: Octree, n: nat)
  {
    && (forall id, s :: InLeaf(o, id, s) ==> 0 <= s < n)
    && (forall s :: 0 <= s < n ==> Covered(o, s))
    && (forall a, b, s :: InLeaf(o, a, s) && InLeaf(o, b, s) ==> a == b)
  }

  // ----- the materialized octree is well formed

  lemma MaterializedChildLinks(keys: seq<nat>, cells: seq<Cell>, groups: Groups, o: Octree, id: nat, octant: nat)
    requires GoodCells(keys, cells) && GroupsOf(keys, groups) && IsOctreeOf(o, cells, groups)
    requires id < |cells| && octant < 8
    ensures ChildLinked(o, id, octant)
  {
    var c := Child(o, id, octant);
    if c != -1 {
      assert LinkedToParent(cells, c);
      assert o.nodes[c] == NodeOfCell(groups, cells[c]) && o.nodes[id] == NodeOfCell(groups, cells[id]);
      assert cells[c].parent == id;
    }
  }

  lemma MaterializedSeat(keys: seq<nat>, cells: seq<Cell>, groups: Groups, o: Octree, id: nat)
    requires GoodCells(keys, cells) && GroupsOf(keys, groups) && IsOctreeOf(o, cells, groups)
    requires 0 < id < |cells|
    ensures 0 <= o.nodes[id].parent < |o.nodes| && SitsIn(o, id, cells[id].index % 8)
  {
    assert LinkedToParent(cells, id);
    assert o.nodes[id] == NodeOfCell(groups, cells[id]);
    assert id in AllIds(cells);
    assert SlotOf(cells[id]) == 8 * cells[id].parent + cells[id].index % 8;
  }

  lemma MaterializedOccupancy(keys: seq<nat>, cells: seq<Cell>, groups: Groups, o: Octree, id: nat)
    requires GoodCells(keys, cells) && GroupsOf(keys, groups) && IsOctreeOf(o, cells, groups)
    requires id < |cells|
    ensures o.nodes[id].particleCount >= 0 && (o.nodes[id].particleCount == 0 <==> HasChild(o, id))
    ensures o.nodes[id].particleCount > 0 ==> o.nodes[id].firstParticle >= 0
  {
    var c := cells[id];
    assert HoldsItsKeys(keys, c);
    assert o.nodes[id] == NodeOfCell(groups, c);
    if c.leaf {
      forall octant | 0 <= octant < 8
        ensures Child(o, id, octant) == -1
      {
        LeafHasNoChild(keys, cells, o.children, id, octant);
      }
    } else {
      var k := c.first;
      CellDigit(keys[k], c.depth + 1);
      var octant := CellAt(keys[k], c.depth + 1) % 8;
      KeyHasChild(keys, cells, o.children, id, octant, k);
      assert Child(o, id, octant) != -1;
    }
  }

  lemma LeafHasNoChild(keys: seq<nat>, cells: seq<Cell>, children: seq<int>, id: nat, octant: nat)
    requires GoodCells(keys, cells) && |children| == 8 * |cells| && ChildrenOf(children, cells, AllIds(cells))
    requires id < |cells| && cells[id].leaf && octant < 8
    ensures children[8 * id + octant] == -1
  {
    var c := children[8 * id + octant];
    assert c != -1 ==> LinkedToParent(cells, c);
  }

  lemma MaterializedOctreeIsWellFormed(keys: seq<nat>, cells: seq<Cell>, groups: Groups, o: Octree)
    requires GoodCells(keys, cells) && GroupsOf(keys, groups) && IsOctreeOf(o, cells, groups)
    ensures WellFormed(o)
  {
    assert o.nodes[0] == NodeOfCell(groups, cells[0]);
    forall id | 0 <= id < |o.nodes|
      ensures 0 <= o.nodes[id].level <= MAX_LEVEL
      ensures o.nodes[id].particleCount >= 0 && (o.nodes[id].particleCount == 0 <==> HasChild(o, id))
      ensures o.nodes[id].particleCount > 0 ==> o.nodes[id].firstParticle >= 0
    {
      assert HoldsItsKeys(keys, cells[id]);
      assert o.nodes[id] == NodeOfCell(groups, cells[id]);
      MaterializedOccupancy(keys, cells, groups, o, id);
    }
    forall id, octant | 0 <= id < |o.nodes| && 0 <= octant < 8
      ensures ChildLinked(o, id, octant)
    {
      MaterializedChildLinks(keys, cells, groups, o, id, octant);
    }
    forall id | 0 < id < |o.nodes|
      ensures 0 <= o.nodes[id].parent < |o.nodes|
      ensures HasSeat(o, id)
    {
      MaterializedSeat(keys, cells, groups, o, id);
    }
  }

  /** Going down from any cell that holds the key ends at the leaf of the key. */
  lemma {:induction false} LeafOfKey(keys: seq<nat>, cells: seq<Cell>, id: nat, k: nat) returns (leaf: nat)
    requires GoodCells(keys, cells) && id < |cells| && cells[id].first <= k <= cells[id].last
    ensures leaf < |cells| && cells[leaf].leaf && cells[leaf].first == k
    decreases MAX_LEVEL - cells[id].depth
  {
    assert HoldsItsKeys(keys, cells[id]);
    if cells[id].leaf {
      assert id > 0 && LinkedToParent(cells, id);
      leaf := id;
    } else {
      assert Divided(keys, cells, id, k);
      var c :| 0 < c < |cells| && cells[c].depth == cells[id].depth + 1
               && cells[c].index == CellAt(keys[k], cells[id].depth + 1);
      assert HoldsItsKeys(keys, cells[c]);
      leaf := LeafOfKey(keys, cells, c, k);
    }
  }

  lemma LeafNamesKey(keys: seq<nat>, cells: seq<Cell>, a: nat, b: nat)
    requires GoodCells(keys, cells) && a < |cells| && b < |cells| && cells[a].leaf && cells[b].leaf
    requires cells[a].first == cells[b].first && cells[a].depth <= cells[b].depth
    ensures a == b
  {
    assert HoldsItsKeys(keys, cells[a]) && HoldsItsKeys(keys, cells[b]);
    assert LinkedToParent(cells, a) && LinkedToParent(cells, b);
    LeafIsDeepest(keys, cells, a, b);
  }

  /** No cell below a leaf's level holds the leaf's key. */
  lemma {:induction false} LeafIsDeepest(keys: seq<nat>, cells: seq<Cell>, leaf: nat, id: nat)
    requires GoodCells(keys, cells) && leaf < |cells| && id < |cells| && cells[leaf].leaf
    requires cells[id].first <= cells[leaf].first <= cells[id].last
    ensures cells[id].depth <= cells[leaf].depth
    ensures cells[id].depth == cells[leaf].depth ==> id == leaf
    decreases cells[id].depth
  {
    var k := cells[leaf].first;
    assert HoldsItsKeys(keys, cells[leaf]) && HoldsItsKeys(keys, cells[id]);
    assert CellAt(keys[k], cells[id].depth) == cells[id].index;
    assert CellAt(keys[k], cells[leaf].depth) == cells[leaf].index;
    if cells[id].depth > cells[leaf].depth {
      assert LinkedToParent(cells, id);
      var p := cells[id].parent;
      assert HoldsItsKeys(keys, cells[p]);
      CellDigit(keys[k], cells[id].depth);
      LeafIsDeepest(keys, cells, leaf, p);
    }
  }

  lemma LeafRange(keys: seq<nat>, cells: seq<Cell>, groups: Groups, o: Octree, id: nat, s: int)
    requires GoodCells(keys, cells) && GroupsOf(keys, groups) && IsOctreeOf(o, cells, groups)
    requires InLeaf(o, id, s)
    ensures cells[id].leaf && cells[id].first < |keys|
    ensures groups.firstParticle[cells[id].first] <= s
              < groups.firstParticle[cells[id].first] + groups.particleCount[cells[id].first]
  {
    assert HoldsItsKeys(keys, cells[id]);
    assert o.nodes[id] == NodeOfCell(groups, cells[id]);
  }

  /** The leaves of the materialized octree share out the sorted positions, one leaf for each
      run of equal keys. */
  lemma MaterializedLeavesPartition(sortedKeys: seq<nat>, cells: seq<Cell>, groups: Groups, o: Octree)
    requires IsGrouping(sortedKeys, groups) && GoodCells(groups.uniqueKeys, cells)
    requires GroupsOf(groups.uniqueKeys, groups) && IsOctreeOf(o, cells, groups)
    ensures LeavesPartition(o, |sortedKeys|)
  {
    var counts := groups.particleCount;
    forall id, s | InLeaf(o, id, s)
      ensures 0 <= s < |sortedKeys|
    {
      LeafRange(groups.uniqueKeys, cells, groups, o, id, s);
      SumIsMonotone(counts, cells[id].first + 1, |counts|);
    }
    forall s | 0 <= s < |sortedKeys|
      ensures Covered(o, s)
    {
      var k := GroupOfPosition(sortedKeys, groups, s);
      var leaf := LeafOfKey(groups.uniqueKeys, cells, 0, k);
      assert o.nodes[leaf] == NodeOfCell(groups, cells[leaf]);
      assert InLeaf(o, leaf, s);
    }
    forall a, b, s | InLeaf(o, a, s) && InLeaf(o, b, s)
      ensures a == b
    {
      LeafRange(groups.uniqueKeys, cells, groups, o, a, s);
      LeafRange(groups.uniqueKeys, cells, groups, o, b, s);
      SumIsMonotone(counts, cells[a].first + 1, |counts|);
      var k := GroupOfPosition(sortedKeys, groups, s);
      if cells[a].depth <= cells[b].depth {
        LeafNamesKey(groups.uniqueKeys, cells, a, b);
      } else {
        LeafNamesKey(groups.uniqueKeys, cells, b, a);
      }
    }
  }
}
