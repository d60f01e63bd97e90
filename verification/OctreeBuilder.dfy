/** Materializing the octree: one thread for each radix node climbs to the node its edge hangs
    from, writes the nodes of its edge and claims their octants, in any order of threads. */
module OctreeBuilder {
  import opened Ints
  import opened Prefixes
  import opened GapTrees
  import opened RadixTree
  import opened LeafGroups
  import opened OctreePlan
  import opened OctreeIds
  import opened PlanBuilder
  import opened Scan
  import opened Threads

  datatype OctNode = OctNode(level: int, prefix: nat, parent: int, firstParticle: int, particleCount: int)

  /** Slot 8 * node + octant of `children` holds the id of a child or -1. */
  datatype Octree = Octree(nodes: seq<OctNode>, children: seq<int>)

  const BLANK := OctNode(-1, 0, -1, -1, 0)

  // ----- what the finished arrays hold

  /** The bits of a key that a level fixes; all lower bits are zero. */
  function MortonPrefixAtLevel(key: nat, level: int): nat
    requires 0 <= level <= MAX_LEVEL
  {
    if level == 0 then 0 else ShiftLeft(CellAt(key, level), SPATIAL_BITS - level * DIMENSIONS)
  }

  function OctantAtLevel(key: nat, level: int): nat
    requires 0 <= level <= MAX_LEVEL
  {
    CellAt(key, level) % 8
  }

  function InnerNode(c: Cell): OctNode
  {
    OctNode(c.depth, if c.depth == 0 || c.depth > MAX_LEVEL then 0
                     else ShiftLeft(c.index, SPATIAL_BITS - c.depth * DIMENSIONS), c.parent, -1, 0)
  }

  /** The record of a cell; a leaf cell also holds the particle range of its key. */
  function NodeOfCell(groups: Groups, c: Cell): OctNode
  {
    if c.leaf && c.first < |groups.firstParticle| && c.first < |groups.particleCount|
    then InnerNode(c).(firstParticle := groups.firstParticle[c.first], particleCount := groups.particleCount[c.first])
    else InnerNode(c)
  }

  function SlotOf(c: Cell): int
  {
    8 * c.parent + c.index % 8
  }

  /** Every written cell sits in its slot, and every occupied slot belongs to a written cell. */
  ghost predicate ChildrenOf(children: seq<int>, cells: seq<Cell>, written: set<int>)
    requires |children| == 8 * |cells| && forall id :: id in written ==> 0 < id < |cells|
  {
    && (forall id :: id in written ==> 0 <= SlotOf(cells[id]) < |children| && children[SlotOf(cells[id])] == id)
    && (forall s :: 0 <= s < |children| && children[s] != -1 ==>
          children[s] in written && SlotOf(cells[children[s]]) == s)
  }

  function AllIds(cells: seq<Cell>): set<int>
  {
    ThreadIds(|cells|) - {0}
  }

  /** The finished arrays: every cell of the table with its own record and its own slot. */
  ghost predicate IsOctreeOf(octree: Octree, cells: seq<Cell>, groups: Groups)
  {
    && |octree.nodes| == |cells| && |octree.children| == 8 * |cells|
    && (forall id :: 0 <= id < |cells| ==> octree.nodes[id] == NodeOfCell(groups, cells[id]))
    && ChildrenOf(octree.children, cells, AllIds(cells))
  }

  /** No two cells of the table share a slot. */
  lemma SlotNamesCell(keys: seq<nat>, cells: seq<Cell>, a: nat, b: nat)
    requires GoodCells(keys, cells) && 0 < a < |cells| && 0 < b < |cells|
    requires SlotOf(cells[a]) == SlotOf(cells[b])
    ensures a == b
    ensures 0 <= SlotOf(cells[a]) < 8 * |cells|
  {
    assert LinkedToParent(cells, a) && LinkedToParent(cells, b);
    assert cells[a].parent == cells[b].parent;
    assert cells[a].index == cells[b].index;
  }

  /** The octant of a cell that has not been written is still free, and claiming it leaves all
      others in place. */
  lemma ClaimSlot(keys: seq<nat>, children: seq<int>, cells: seq<Cell>, written: set<int>, id: nat)
    requires GoodCells(keys, cells) && 0 < id < |cells| && id !in written
    requires |children| == 8 * |cells| && forall w :: w in written ==> 0 < w < |cells|
    requires ChildrenOf(children, cells, written)
    ensures 0 <= SlotOf(cells[id]) < |children| && children[SlotOf(cells[id])] == -1
    ensures ChildrenOf(children[SlotOf(cells[id]) := id], cells, written + {id})
  {
    SlotNamesCell(keys, cells, id, id);
    var s := SlotOf(cells[id]);
    forall w | w in written
      ensures SlotOf(cells[w]) != s
    {
      SlotsDiffer(keys, cells, id, w);
    }
  }

  lemma SlotsDiffer(keys: seq<nat>, cells: seq<Cell>, a: nat, b: nat)
    requires GoodCells(keys, cells) && 0 < a < |cells| && 0 < b < |cells| && a != b
    ensures SlotOf(cells[a]) != SlotOf(cells[b])
  {
    if SlotOf(cells[a]) == SlotOf(cells[b]) {
      SlotNamesCell(keys, cells, a, b);
    }
  }

  lemma SlotsAgree(a: seq<int>, b: seq<int>, cells: seq<Cell>, written: set<int>, s: nat)
    requires |a| == |b| == 8 * |cells| && forall id :: id in written ==> 0 < id < |cells|
    requires ChildrenOf(a, cells, written) && ChildrenOf(b, cells, written)
    requires s < |a| && a[s] != -1
    ensures a[s] == b[s]
  {
  }

  /** The finished arrays do not depend on the order of the threads. */
  lemma OctreeIsUnique(a: Octree, b: Octree, cells: seq<Cell>, groups: Groups)
    requires IsOctreeOf(a, cells, groups) && IsOctreeOf(b, cells, groups)
    ensures a == b
  {
    forall s | 0 <= s < |a.children|
      ensures a.children[s] == b.children[s]
    {
      if a.children[s] != -1 {
        SlotsAgree(a.children, b.children, cells, AllIds(cells), s);
      }
      if b.children[s] != -1 {
        SlotsAgree(b.children, a.children, cells, AllIds(cells), s);
      }
    }
    assert a.children == b.children;
    assert a.nodes == b.nodes;
  }

  // ----- what one thread computes

  /** The node that the first node of an edge hangs from. */
  function FirstParent(g: seq<int>, r: nat): int
    requires SpatialGaps(g) && IsNode(g, r)
  {
    LevelBounds(g, r);
    Enclosing(g, r, ParentLevel(g, r))
  }

  lemma EnclosedByOwnEdge(g: seq<int>, r: nat, level: nat)
    requires SpatialGaps(g) && IsNode(g, r) && Emits(g, r, level)
    ensures 0 < level && Enclosing(g, r, level) == NodeId(g, r, level)
  {
    LevelBounds(g, r);
    assert Climb(g, r, level) == r;
  }

  lemma EnclosedByParentEdge(g: seq<int>, r: nat, up: nat)
    requires SpatialGaps(g) && IsNode(g, r) && up == ParentLevel(g, r) <= Level(g, r)
    ensures Enclosing(g, r, up) == FirstParent(g, r)
  {
  }

  lemma PlacesAreConsecutive(g: seq<int>, r: nat, level: int)
    requires SpatialGaps(g) && IsNode(g, r)
    ensures NodeId(g, r, level - 1) == NodeId(g, r, level) - 1
  {
  }

  lemma ParentOfPlace(g: seq<int>, r: nat, level: nat, id: nat)
    requires SpatialGaps(g) && IsNode(g, r) && Emits(g, r, level) && IsCell(g, id)
    requires Edge(g, id) == r && Depth(g, id) == level && id == NodeId(g, r, level)
    requires 0 < level <= Level(g, r)
    ensures ParentId(g, id) == if level == ParentLevel(g, r) + 1 then FirstParent(g, r) else id - 1
  {
    var up := level - 1;
    ParentEncloses(g, id, r, up);
    if up == ParentLevel(g, r) {
      EnclosedByParentEdge(g, r, up);
    } else {
      EnclosedByOwnEdge(g, r, up);
      PlacesAreConsecutive(g, r, level);
    }
  }

  /** The cell that edge r emits at a level. */
  lemma EdgeNode(keys: seq<nat>, g: seq<int>, r: nat, level: nat)
    requires SpatialGaps(g) && |keys| == LeafCount(g) && IsNode(g, r) && Emits(g, r, level)
    ensures IsCell(g, NodeId(g, r, level)) && 1 <= level <= MAX_LEVEL
    ensures CellTable(keys, g)[NodeId(g, r, level)]
            == Cell(level, CellAt(keys[Lo(g, r)], level),
                    if level == ParentLevel(g, r) + 1 then FirstParent(g, r) else NodeId(g, r, level) - 1,
                    Lo(g, r), Hi(g, r), r < LeafCount(g))
  {
    var id := NodeId(g, r, level);
    LevelBounds(g, r);
    IdOfCell(g, r, level);
    ParentOfPlace(g, r, level, id);
    assert CellTable(keys, g)[id] == CellRecord(keys, g, id);
  }

  /** An ancestor on the way up that ends at the parent level, with nothing emitted below it
      on that level. */
  ghost predicate Ancestral(g: seq<int>, r: nat, parentLevel: int, a: int)
    requires SpatialGaps(g) && IsNode(g, r)
  {
    && IsNode(g, a) && Level(g, a) == parentLevel && 0 <= parentLevel <= Level(g, r)
    && (parentLevel > 0 ==> Climb(g, r, parentLevel) == Climb(g, a, parentLevel))
  }

  /** From a node that emits nothing above the parent level the climb goes on to its parent. */
  lemma AncestorStep(g: seq<int>, r: nat, a: nat, parentLevel: int)
    requires SpatialGaps(g) && IsNode(g, r) && IsNode(g, a)
    requires 0 <= parentLevel <= Level(g, r) && parentLevel == ParentLevel(g, a)
    requires parentLevel > 0 ==>
               parentLevel <= Level(g, a) && Climb(g, r, parentLevel) == Climb(g, a, parentLevel)
    ensures Parent(g, a) == -1 ==> parentLevel == 0
    ensures Parent(g, a) != -1 ==>
              && Ancestral(g, r, parentLevel, Parent(g, a))
              && Hi(g, a) - Lo(g, a) < Hi(g, Parent(g, a)) - Lo(g, Parent(g, a))
  {
    if Parent(g, a) != -1 {
      LevelOfParent(g, a);
      ParentIsLarger(g, a);
    }
  }

  /** The last node of the first non-empty edge on the way up is the one to hang from. */
  lemma FoundAncestor(g: seq<int>, r: nat, a: nat)
    requires SpatialGaps(g) && IsNode(g, r) && Ancestral(g, r, ParentLevel(g, r), a)
    requires EdgeCount(g, a) > 0
    ensures Offset(g, a) + EdgeCount(g, a) == FirstParent(g, r)
  {
    LevelBounds(g, a);
    LevelBounds(g, r);
    assert Climb(g, a, ParentLevel(g, r)) == a;
  }

  /** The climb past ancestors whose edges are empty. */
  method FindParentNode(ghost g: seq<int>, tree: Tree, plan: Plan, r: nat, parentLevel: int)
    returns (parentNode: int, error: int)
    requires SpatialGaps(g) && IsTreeOf(tree, g) && IsPlanOf(plan, g) && IsNode(g, r)
    requires parentLevel == ParentLevel(g, r)
    ensures error == 0 && parentNode == FirstParent(g, r)
  {
    var radixNodes := |tree.parent|;
    parentNode, error := 0, 0;
    var ancestor := tree.parent[r];
    var iterations := 0;
    LevelBounds(g, r);
    AncestorStep(g, r, r, parentLevel);
    while ancestor != -1
      invariant ancestor == -1 || Ancestral(g, r, parentLevel, ancestor)
      invariant ancestor != -1 ==> iterations < Hi(g, ancestor) - Lo(g, ancestor)
      invariant ancestor == -1 ==> parentLevel == 0
      decreases if ancestor == -1 then 0 else |g| + 1 - (Hi(g, ancestor) - Lo(g, ancestor))
    {
      if ancestor < 0 || ancestor >= radixNodes {
        return 0, 2;
      }
      var count := plan.count[ancestor];
      if count > 0 {
        if plan.level[ancestor] != parentLevel {
          return 0, 3;
        }
        parentNode := 1 + plan.offset[ancestor] + count - 1;
        FoundAncestor(g, r, ancestor);
        break;
      }
      LevelBounds(g, ancestor);
      AncestorStep(g, r, ancestor, parentLevel);
      ancestor := tree.parent[ancestor];
      iterations := iterations + 1;
      if iterations > radixNodes {
        return 0, 2;
      }
    }
    if ancestor == -1 && parentLevel != 0 {
      return 0, 3;
    }
  }


  function Consecutive(base: int, count: nat): (ids: set<int>)
    ensures forall id :: id in ids <==> base <= id < base + count
  {
    if count == 0 then {} else Consecutive(base, count - 1) + {base + count - 1}
  }

  /** The cell at place id of a chain that starts at base below the parent node. */
  ghost predicate InChain(c: Cell, id: int, base: int, key: nat, parentLevel: nat, parentNode: int)
  {
    && c.depth == parentLevel + 1 + id - base <= MAX_LEVEL
    && c.index == CellAt(key, c.depth)
    && c.parent == if id == base then parentNode else id - 1
  }

  /** Writing one node and claiming its octant. */
  method EmitNode(keys: seq<nat>, ghost cells: seq<Cell>, node: int, key: nat, level: nat, parent: int,
                  nodes: array<OctNode>, children: array<int>, ghost written: set<int>)
    returns (error: int)
    requires |cells| <= MOST_NODES
    requires GoodCells(keys, cells) && 0 < node < |cells| && node !in written && level <= MAX_LEVEL
    requires cells[node].depth == level && cells[node].index == CellAt(key, level) && cells[node].parent == parent
    requires nodes.Length == |cells| && children.Length == 8 * |cells| && nodes[node] == BLANK
    requires forall id :: id in written ==> 0 < id < |cells|
    requires ChildrenOf(children[..], cells, written)
    modifies nodes, children
    ensures error == 0
    ensures nodes[..] == old(nodes[..])[node := InnerNode(cells[node])]
    ensures ChildrenOf(children[..], cells, written + {node})
  {
    error := 0;
    assert LinkedToParent(cells, node);
    ClaimSlot(keys, children[..], cells, written, node);
    nodes[node] := nodes[node].(level := level, prefix := MortonPrefixAtLevel(key, level), parent := parent);
    var slot: Int := parent * 8 + OctantAtLevel(key, level);
    var previous := children[slot];
    if previous == -1 {
      children[slot] := node;
    }
    if previous != -1 && previous != node {
      error := 4;
    }
  }

  /** The nodes with so many of the edge written. */
  ghost function Emitted(before: seq<OctNode>, cells: seq<Cell>, base: int, n: nat): (after: seq<OctNode>)
    requires |before| == |cells|
    ensures |after| == |before|
  {
    seq(|before|, id requires 0 <= id < |before| =>
      if base <= id < base + n then InnerNode(cells[id]) else before[id])
  }

  lemma EmittedOneMore(before: seq<OctNode>, cells: seq<Cell>, base: int, n: nat, node: nat)
    requires |before| == |cells| && node == base + n && node < |cells|
    ensures Emitted(before, cells, base, n)[node] == before[node]
    ensures Emitted(before, cells, base, n + 1) == Emitted(before, cells, base, n)[node := InnerNode(cells[node])]
  {
  }

  /** The ids written so far and those of the edge, and the next one of the edge. */
  lemma NextIsFresh(written: set<int>, base: int, n: nat, count: nat, limit: nat)
    requires 0 < base && n < count && base + count <= limit
    requires forall id :: id in written ==> 0 < id < limit && !(base <= id < base + count)
    ensures base + n !in written + Consecutive(base, n)
    ensures forall id :: id in written + Consecutive(base, n) ==> 0 < id < limit
    ensures written + Consecutive(base, n) + {base + n} == written + Consecutive(base, n + 1)
  {
  }

  /** The nodes of an edge follow each other down from the parent node. */
  ghost predicate IsChain(cells: seq<Cell>, base: int, count: nat, key: nat, parentLevel: nat, parentNode: int)
    requires 0 < base && base + count <= |cells|
  {
    forall id :: base <= id < base + count ==> InChain(cells[id], id, base, key, parentLevel, parentNode)
  }

  lemma NextInChain(cells: seq<Cell>, base: int, count: nat, key: nat, parentLevel: nat, parentNode: int, n: nat)
    requires 0 < base && base + count <= |cells| && n < count
    requires IsChain(cells, base, count, key, parentLevel, parentNode)
    ensures var c := cells[base + n];
            && c.depth == parentLevel + n + 1 <= MAX_LEVEL && c.index == CellAt(key, c.depth)
            && c.parent == if n == 0 then parentNode else base + n - 1
  {
    assert InChain(cells[base + n], base + n, base, key, parentLevel, parentNode);
  }

  /** One turn of the loop that writes the nodes of one edge. */
  method EmitNext(keys: seq<nat>, ghost cells: seq<Cell>, key: nat,
                  base: int, ghost count: nat, parentLevel: nat, parentNode: int,
                  nodes: array<OctNode>, children: array<int>, ghost before: seq<OctNode>, ghost written: set<int>,
                  local: nat)
    returns (error: int)
    requires |cells| <= MOST_NODES
    requires GoodCells(keys, cells) && 0 < base && base + count <= |cells| && local < count
    requires IsChain(cells, base, count, key, parentLevel, parentNode)
    requires nodes.Length == |before| == |cells| && children.Length == 8 * |cells|
    requires forall id :: id in written ==> 0 < id < |cells| && !(base <= id < base + count)
    requires before[base + local] == BLANK && nodes[..] == Emitted(before, cells, base, local)
    requires ChildrenOf(children[..], cells, written + Consecutive(base, local))
    modifies nodes, children
    ensures error == 0
    ensures nodes[..] == Emitted(before, cells, base, local + 1)
    ensures ChildrenOf(children[..], cells, written + Consecutive(base, local + 1))
  {
    var node := base + local;
    if node <= 0 || node >= nodes.Length {
      return 6;
    }
    var parent := if local == 0 then parentNode else node - 1;
    NextIsFresh(written, base, local, count, |cells|);
    NextInChain(cells, base, count, key, parentLevel, parentNode, local);
    EmittedOneMore(before, cells, base, local, node);
    assert nodes[node] == nodes[..][node] == before[node];
    error := EmitNode(keys, cells, node, key, parentLevel + local + 1, parent, nodes, children,
                      written + Consecutive(base, local));
  }

  lemma NothingEmitted(before: seq<OctNode>, cells: seq<Cell>, base: int, written: set<int>)
    requires |before| == |cells|
    ensures Emitted(before, cells, base, 0) == before && written + Consecutive(base, 0) == written
  {
  }

  /** The loop that writes the nodes of one edge. */
  method EmitNodes(keys: seq<nat>, ghost cells: seq<Cell>, key: nat,
                   base: int, count: nat, parentLevel: nat, parentNode: int,
                   nodes: array<OctNode>, children: array<int>, ghost written: set<int>)
    returns (error: int)
    requires |cells| <= MOST_NODES
    requires GoodCells(keys, cells) && 0 < base && base + count <= |cells|
    requires IsChain(cells, base, count, key, parentLevel, parentNode)
    requires nodes.Length == |cells| && children.Length == 8 * |cells|
    requires forall id :: id in written ==> 0 < id < |cells| && !(base <= id < base + count)
    requires forall id :: base <= id < base + count ==> nodes[id] == BLANK
    requires ChildrenOf(children[..], cells, written)
    modifies nodes, children
    ensures error == 0
    ensures nodes[..] == Emitted(old(nodes[..]), cells, base, count)
    ensures ChildrenOf(children[..], cells, written + Consecutive(base, count))
  {
    error := 0;
    ghost var before := nodes[..];
    var local := 0;
    NothingEmitted(before, cells, base, written);
    while local < count
      invariant 0 <= local <= count && error == 0
      invariant nodes[..] == Emitted(before, cells, base, local)
      invariant ChildrenOf(children[..], cells, written + Consecutive(base, local))
    {
      error := EmitNext(keys, cells, key, base, count, parentLevel, parentNode, nodes, children,
                        before, written, local);
      if error != 0 {
        return;
      }
      local := local + 1;
    }
  }

  /** One edge as its thread sees it: how many nodes, from which id on, below which node, and
      for which key. */
  datatype EdgePlan = EdgePlan(base: nat, count: nat, parentLevel: nat, parentNode: int, key: nat, leaf: bool)

  function EdgePlanOf(g: seq<int>, r: nat): EdgePlan
    requires SpatialGaps(g) && IsNode(g, r)
  {
    LevelBounds(g, r);
    EdgePlan(1 + Offset(g, r), EdgeCount(g, r), ParentLevel(g, r), FirstParent(g, r), Lo(g, r), r < LeafCount(g))
  }

  /** The nodes of an edge are a chain of cells of its key. */
  ghost predicate GoodEdge(keys: seq<nat>, cells: seq<Cell>, e: EdgePlan)
  {
    && 0 < e.base && e.base + e.count <= |cells| && e.key < |keys|
    && (e.leaf ==> e.count == 1)
    && forall id :: e.base <= id < e.base + e.count ==> PlacedOn(keys, cells[id], id, e)
  }

  ghost predicate PlacedOn(keys: seq<nat>, c: Cell, id: int, e: EdgePlan)
    requires e.key < |keys|
  {
    && InChain(c, id, e.base, keys[e.key], e.parentLevel, e.parentNode)
    && c.first == e.key && c.leaf == e.leaf
  }

  lemma PlaceOnEdge(keys: seq<nat>, g: seq<int>, r: nat, id: nat)
    requires SpatialGaps(g) && |keys| == LeafCount(g) && IsNode(g, r)
    requires 1 + Offset(g, r) <= id < 1 + Offset(g, r) + EdgeCount(g, r)
    ensures IsCell(g, id) && Edge(g, id) == r
    ensures PlacedOn(keys, CellTable(keys, g)[id], id, EdgePlanOf(g, r))
  {
    var level := ParentLevel(g, r) + id - Offset(g, r);
    LevelBounds(g, r);
    EdgeNode(keys, g, r, level);
    IdOfCell(g, r, level);
    assert NodeId(g, r, level) == id;
  }

  lemma EdgeFits(g: seq<int>, r: nat)
    requires SpatialGaps(g) && IsNode(g, r)
    ensures 1 + Offset(g, r) + EdgeCount(g, r) <= NodeCount(g)
  {
    SumIsMonotone(EdgeCounts(g), r + 1, |EdgeCounts(g)|);
  }

  lemma EdgesAreGood(keys: seq<nat>, g: seq<int>, r: nat)
    requires SpatialGaps(g) && |keys| == LeafCount(g) && IsNode(g, r)
    ensures GoodEdge(keys, CellTable(keys, g), EdgePlanOf(g, r))
  {
    var e := EdgePlanOf(g, r);
    LevelBounds(g, r);
    EdgeFits(g, r);
    forall id | e.base <= id < e.base + e.count
      ensures PlacedOn(keys, CellTable(keys, g)[id], id, e)
    {
      PlaceOnEdge(keys, g, r, id);
    }
  }

  lemma RepresentativeKey(g: seq<int>, tree: Tree, r: nat)
    requires SpatialGaps(g) && IsTreeOf(tree, g) && IsNode(g, r)
    ensures Lo(g, r) == if r < LeafCount(g) then r else tree.nodes[r - LeafCount(g)].first
  {
    if r >= LeafCount(g) {
      assert tree.nodes[r - LeafCount(g)] == NodeOf(g, r - LeafCount(g));
    }
  }

  /** The first half of thread r: the checks on the plan, the key and the climb. An edge
      without nodes ends the thread. */
  method ReadEdge(leaves: nat, ghost g: seq<int>, tree: Tree, plan: Plan, r: nat)
    returns (e: EdgePlan, error: int)
    requires SpatialGaps(g) && IsTreeOf(tree, g) && IsPlanOf(plan, g) && IsNode(g, r)
    requires leaves == LeafCount(g)
    ensures error == 0
    ensures e.count == EdgeCount(g, r)
    ensures e.count > 0 ==> e == EdgePlanOf(g, r)
  {
    var count, nodeLevel := plan.count[r], plan.level[r];
    e := EdgePlan(0, count, 0, 0, 0, r < leaves);
    LevelBounds(g, r);
    if count < 0 || nodeLevel < 0 || nodeLevel > MAX_LEVEL {
      return e, 1;
    }
    if count == 0 {
      return e, if r < leaves then 5 else 0;
    }
    var parentLevel := nodeLevel - count;
    if parentLevel < 0 {
      return e, 1;
    }
    RepresentativeKey(g, tree, r);
    var first := if r < leaves then r else tree.nodes[r - leaves].first;
    if first < 0 || first >= leaves {
      return e, 7;
    }
    var parentNode;
    parentNode, error := FindParentNode(g, tree, plan, r, parentLevel);
    if error == 0 {
      e := EdgePlan(1 + plan.offset[r], count, parentLevel, parentNode, first, r < leaves);
    }
  }

  /** No id of an edge has been written yet. */
  ghost predicate EdgeIsFree(nodes: seq<OctNode>, e: EdgePlan, written: set<int>)
    requires e.base + e.count <= |nodes|
  {
    && (forall id :: id in written ==> 0 < id < |nodes| && !(e.base <= id < e.base + e.count))
    && (forall id :: e.base <= id < e.base + e.count ==> nodes[id] == BLANK)
  }

  /** The nodes of an edge are written and all others are kept. */
  ghost predicate EdgeIsWritten(before: seq<OctNode>, after: seq<OctNode>, cells: seq<Cell>, groups: Groups,
                                e: EdgePlan)
    requires |before| == |after| == |cells|
  {
    && (forall id :: 0 <= id < |cells| && !(e.base <= id < e.base + e.count) ==> after[id] == before[id])
    && (forall id :: 0 <= id < |cells| && e.base <= id < e.base + e.count ==>
          after[id] == NodeOfCell(groups, cells[id]))
  }

  /** The second half: the nodes of the edge, and the particle range of a leaf. */
  method WriteEdge(keys: seq<nat>, ghost cells: seq<Cell>, groups: Groups, r: nat, e: EdgePlan,
                   nodes: array<OctNode>, children: array<int>, ghost written: set<int>)
    returns (error: int)
    requires |cells| <= MOST_NODES
    requires GoodCells(keys, cells) && GoodEdge(keys, cells, e) && e.count > 0
    requires |keys| == |groups.firstParticle| == |groups.particleCount|
    requires e.leaf == (r < |keys|) && (e.leaf ==> e.key == r)
    requires nodes.Length == |cells| && children.Length == 8 * |cells|
    requires EdgeIsFree(nodes[..], e, written) && ChildrenOf(children[..], cells, written)
    modifies nodes, children
    ensures error == 0
    ensures EdgeIsWritten(old(nodes[..]), nodes[..], cells, groups, e)
    ensures ChildrenOf(children[..], cells, written + Consecutive(e.base, e.count))
  {
    forall id | e.base <= id < e.base + e.count
      ensures InChain(cells[id], id, e.base, keys[e.key], e.parentLevel, e.parentNode)
      ensures e.leaf || NodeOfCell(groups, cells[id]) == InnerNode(cells[id])
    {
      assert PlacedOn(keys, cells[id], id, e);
    }
    error := EmitNodes(keys, cells, keys[e.key], e.base, e.count, e.parentLevel, e.parentNode,
                       nodes, children, written);
    if error != 0 {
      return;
    }
    if r < |keys| {
      var leaf := e.base + e.count - 1;
      assert PlacedOn(keys, cells[leaf], leaf, e) && LinkedToParent(cells, leaf);
      if nodes[leaf].level <= 0 || nodes[leaf].level > MAX_LEVEL {
        return 5;
      }
      nodes[leaf] := nodes[leaf].(firstParticle := groups.firstParticle[r], particleCount := groups.particleCount[r]);
    }
  }

  // ----- all threads

  /** The edges share out the ids of the table: owner[id] is the edge of id. */
  ghost predicate EdgesShareIds(edges: seq<EdgePlan>, owner: seq<nat>)
  {
    && (forall id :: 0 < id < |owner| ==> owner[id] < |edges|)
    && (forall id, r :: 0 < id < |owner| && 0 <= r < |edges| ==>
          (edges[r].base <= id < edges[r].base + edges[r].count <==> owner[id] == r))
  }

  ghost predicate GoodEdges(keys: seq<nat>, cells: seq<Cell>, edges: seq<EdgePlan>, owner: seq<nat>)
  {
    && |owner| == |cells| && EdgesShareIds(edges, owner)
    && (forall r :: 0 <= r < |edges| ==>
          GoodEdge(keys, cells, edges[r]) && (edges[r].leaf <==> r < |keys|) && (edges[r].leaf ==> edges[r].key == r))
  }

  function Edges(g: seq<int>): (edges: seq<EdgePlan>)
    requires SpatialGaps(g)
    ensures |edges| == LeafCount(g) + |g|
  {
    seq(LeafCount(g) + |g|, r requires 0 <= r < LeafCount(g) + |g| => EdgePlanOf(g, r))
  }

  function Owners(g: seq<int>): (owner: seq<nat>)
    requires SpatialGaps(g)
    ensures |owner| == NodeCount(g)
  {
    seq(NodeCount(g), id requires 0 <= id < NodeCount(g) => if id == 0 then 0 else Edge(g, id))
  }

  lemma IdIsOnItsEdge(g: seq<int>, id: nat, r: nat)
    requires SpatialGaps(g) && IsCell(g, id) && IsNode(g, r)
    ensures Offset(g, r) < id <= Offset(g, r) + EdgeCount(g, r) <==> Edge(g, id) == r
  {
    assert EdgeCounts(g)[r] == EdgeCount(g, r);
    SegmentHolds(EdgeCounts(g), r, id - 1);
  }

  lemma AllEdgesAreGood(keys: seq<nat>, g: seq<int>)
    requires SpatialGaps(g) && |keys| == LeafCount(g)
    ensures GoodEdges(keys, CellTable(keys, g), Edges(g), Owners(g))
  {
    forall r | 0 <= r < |Edges(g)|
      ensures GoodEdge(keys, CellTable(keys, g), Edges(g)[r])
      ensures Edges(g)[r].leaf <==> r < |keys|
      ensures Edges(g)[r].leaf ==> Edges(g)[r].key == r
    {
      EdgesAreGood(keys, g, r);
    }
    forall id, r | 0 < id < |Owners(g)| && 0 <= r < |Edges(g)|
      ensures Edges(g)[r].base <= id < Edges(g)[r].base + Edges(g)[r].count <==> Owners(g)[id] == r
    {
      IdIsOnItsEdge(g, id, r);
    }
  }

  lemma EmptyEdge(nodes: seq<OctNode>, cells: seq<Cell>, groups: Groups, e: EdgePlan, written: set<int>)
    requires |nodes| == |cells| && e.count == 0
    ensures EdgeIsWritten(nodes, nodes, cells, groups, e) && written + Consecutive(e.base, e.count) == written
  {
  }

  /** Thread r with both halves. */
  method MaterializeThread(keys: seq<nat>, ghost g: seq<int>, ghost cells: seq<Cell>, ghost e: EdgePlan,
                           tree: Tree, groups: Groups, plan: Plan, r: nat,
                           nodes: array<OctNode>, children: array<int>, ghost written: set<int>)
    returns (error: int)
    requires |cells| <= MOST_NODES
    requires SpatialGaps(g) && IsTreeOf(tree, g) && IsPlanOf(plan, g) && IsNode(g, r) && |keys| == LeafCount(g)
    requires GoodCells(keys, cells) && GoodEdge(keys, cells, e) && e == EdgePlanOf(g, r)
    requires |keys| == |groups.firstParticle| == |groups.particleCount|
    requires nodes.Length == |cells| && children.Length == 8 * |cells|
    requires EdgeIsFree(nodes[..], e, written) && ChildrenOf(children[..], cells, written)
    modifies nodes, children
    ensures error == 0
    ensures EdgeIsWritten(old(nodes[..]), nodes[..], cells, groups, e)
    ensures ChildrenOf(children[..], cells, written + Consecutive(e.base, e.count))
  {
    var edge;
    edge, error := ReadEdge(|keys|, g, tree, plan, r);
    if error != 0 {
      return;
    }
    if edge.count > 0 {
      error := WriteEdge(keys, cells, groups, r, edge, nodes, children, written);
    } else {
      EmptyEdge(nodes[..], cells, groups, e, written);
    }
  }

  /** The nodes that belong to the edges of finished threads. */
  ghost predicate WrittenBy(written: set<int>, owner: seq<nat>, threads: set<int>)
  {
    forall id :: id in written <==> 0 < id < |owner| && owner[id] !in threads
  }

  /** The ids of a thread that has not run are unwritten. */
  lemma EdgeIsFresh(edges: seq<EdgePlan>, owner: seq<nat>, threads: set<int>, written: set<int>, r: nat)
    requires EdgesShareIds(edges, owner) && r < |edges| && r in threads
    requires 0 < edges[r].base && edges[r].base + edges[r].count <= |owner|
    requires WrittenBy(written, owner, threads)
    ensures forall id :: id in written ==> 0 < id < |owner| && !(edges[r].base <= id < edges[r].base + edges[r].count)
    ensures WrittenBy(written + Consecutive(edges[r].base, edges[r].count), owner, threads - {r})
  {
  }

  lemma EdgeIsBlank(nodes: seq<OctNode>, cells: seq<Cell>, groups: Groups, written: set<int>, e: EdgePlan)
    requires |nodes| == |cells| && NodesWritten(nodes, cells, groups, written)
    requires 0 < e.base && e.base + e.count <= |cells|
    requires forall id :: id in written ==> 0 < id < |cells| && !(e.base <= id < e.base + e.count)
    ensures EdgeIsFree(nodes, e, written)
  {
  }

  /** What a thread needs to know of its edge. */
  lemma EdgeIsReady(keys: seq<nat>, g: seq<int>, cells: seq<Cell>, edges: seq<EdgePlan>, owner: seq<nat>, r: nat)
    requires SpatialGaps(g) && GoodEdges(keys, cells, edges, owner) && edges == Edges(g) && r < |edges|
    ensures IsNode(g, r) && edges[r] == EdgePlanOf(g, r) && GoodEdge(keys, cells, edges[r])
    ensures |owner| == |cells| && EdgesShareIds(edges, owner)
  {
  }

  /** Written nodes hold the record of their cell, the others are blank. */
  ghost predicate NodesWritten(nodes: seq<OctNode>, cells: seq<Cell>, groups: Groups, written: set<int>)
    requires |nodes| == |cells|
  {
    forall id :: 0 < id < |cells| ==> nodes[id] == if id in written then NodeOfCell(groups, cells[id]) else BLANK
  }

  lemma NodesOfEdgeWritten(before: seq<OctNode>, after: seq<OctNode>, cells: seq<Cell>, groups: Groups,
                           written: set<int>, e: EdgePlan)
    requires |before| == |after| == |cells| && NodesWritten(before, cells, groups, written)
    requires 0 < e.base && EdgeIsWritten(before, after, cells, groups, e)
    ensures NodesWritten(after, cells, groups, written + Consecutive(e.base, e.count))
    ensures |cells| > 0 ==> after[0] == before[0]
  {
  }

  /** One thread more. */
  method MaterializeNext(keys: seq<nat>, ghost g: seq<int>, ghost cells: seq<Cell>, ghost edges: seq<EdgePlan>,
                         ghost owner: seq<nat>, tree: Tree, groups: Groups, plan: Plan, r: nat,
                         nodes: array<OctNode>, children: array<int>, threads: set<int>, ghost written: set<int>)
    returns (error: int, ghost after: set<int>)
    requires |cells| <= MOST_NODES
    requires SpatialGaps(g) && IsTreeOf(tree, g) && IsPlanOf(plan, g) && |keys| == LeafCount(g)
    requires GoodCells(keys, cells) && r < |edges| && IsNode(g, r) && edges[r] == EdgePlanOf(g, r)
    requires GoodEdge(keys, cells, edges[r]) && |owner| == |cells| && EdgesShareIds(edges, owner)
    requires |keys| == |groups.firstParticle| == |groups.particleCount|
    requires nodes.Length == |cells| && children.Length == 8 * |cells|
    requires r in threads && WrittenBy(written, owner, threads)
    requires NodesWritten(nodes[..], cells, groups, written) && ChildrenOf(children[..], cells, written)
    modifies nodes, children
    ensures error == 0 && nodes[0] == old(nodes[0])
    ensures WrittenBy(after, owner, threads - {r})
    ensures NodesWritten(nodes[..], cells, groups, after) && ChildrenOf(children[..], cells, after)
  {
    ghost var e, before := edges[r], nodes[..];
    EdgeIsFresh(edges, owner, threads, written, r);
    EdgeIsBlank(before, cells, groups, written, e);
    error := MaterializeThread(keys, g, cells, e, tree, groups, plan, r, nodes, children, written);
    NodesOfEdgeWritten(before, nodes[..], cells, groups, written, e);
    after := written + Consecutive(e.base, e.count);
  }

  /** All threads in any order; no thread reports an error. */
  method MaterializeKernel(keys: seq<nat>, ghost g: seq<int>, ghost cells: seq<Cell>, ghost edges: seq<EdgePlan>,
                           ghost owner: seq<nat>, tree: Tree, groups: Groups, plan: Plan,
                           nodes: array<OctNode>, children: array<int>)
    returns (error: int)
    requires |cells| <= MOST_NODES
    requires SpatialGaps(g) && IsTreeOf(tree, g) && IsPlanOf(plan, g) && |keys| == LeafCount(g)
    requires GoodCells(keys, cells) && GoodEdges(keys, cells, edges, owner) && edges == Edges(g)
    requires |keys| == |groups.firstParticle| == |groups.particleCount|
    requires nodes.Length == |cells| && children.Length == 8 * |cells|
    requires forall s :: 0 <= s < children.Length ==> children[s] == -1
    requires NodesWritten(nodes[..], cells, groups, {})
    modifies nodes, children
    ensures error == 0
    ensures nodes[0] == old(nodes[0])
    ensures NodesWritten(nodes[..], cells, groups, AllIds(cells))
    ensures ChildrenOf(children[..], cells, AllIds(cells))
  {
    error := 0;
    ghost var written: set<int> := {};
    var threads := ThreadIds(|tree.parent|);
    NothingWritten(cells, edges, owner, |tree.parent|, children[..]);
    while threads != {}
      invariant error == 0 && nodes[0] == old(nodes[0])
      invariant forall r :: r in threads ==> 0 <= r < |edges|
      invariant WrittenBy(written, owner, threads)
      invariant NodesWritten(nodes[..], cells, groups, written)
      invariant ChildrenOf(children[..], cells, written)
    {
      var r :| r in threads;
      EdgeIsReady(keys, g, cells, edges, owner, r);
      var threadError;
      threadError, written := MaterializeNext(keys, g, cells, edges, owner, tree, groups, plan, r,
                                              nodes, children, threads, written);
      if error == 0 {
        error := threadError;
      }
      threads := threads - {r};
    }
    assert written == AllIds(cells);
  }

  lemma NothingWritten(cells: seq<Cell>, edges: seq<EdgePlan>, owner: seq<nat>, threads: nat, children: seq<int>)
    requires |owner| == |cells| && |edges| == threads && |children| == 8 * |cells|
    requires forall id :: 0 < id < |owner| ==> owner[id] < |edges|
    requires forall s :: 0 <= s < |children| ==> children[s] == -1
    ensures WrittenBy({}, owner, ThreadIds(threads)) && ChildrenOf(children, cells, {})
  {
  }

  /** The kernel on arrays prepared by the host; its error cell stays zero. */
  method BuildSparseOctree(keys: seq<nat>, ghost g: seq<int>, tree: Tree, groups: Groups, plan: Plan)
    returns (octree: Octree, error: int)
    requires UniqueKeys(keys) && g == Gaps(keys) && SpatialGaps(g)
    requires NodeCount(g) <= MOST_NODES
    requires IsTreeOf(tree, g) && IsPlanOf(plan, g)
    requires |keys| == |groups.firstParticle| == |groups.particleCount|
    ensures error == 0
    ensures IsOctreeOf(octree, CellTable(keys, g), groups)
  {
    var nodes := new OctNode[plan.octreeNodes](_ => BLANK);
    var children := new int[8 * plan.octreeNodes](_ => -1);
    nodes[0] := OctNode(0, 0, -1, -1, 0);
    CellTableIsGood(keys, g);
    AllEdgesAreGood(keys, g);
    error := MaterializeKernel(keys, g, CellTable(keys, g), Edges(g), Owners(g), tree, groups, plan, nodes, children);
    octree := Octree(nodes[..], children[..]);
  }
}
