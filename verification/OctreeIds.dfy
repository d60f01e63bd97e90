/** The ids of octree nodes: every emitted cell has one id, every id one cell, and the links
    from child to parent are those of cell containment. */
module OctreeIds {
  import opened Prefixes
  import opened GapTrees
  import opened RadixTree
  import opened OctreePlan
  import opened Scan

  function EdgeCount(g: seq<int>, r: nat): nat
    requires SpatialGaps(g) && IsNode(g, r)
  {
    LevelBounds(g, r);
    Level(g, r) - ParentLevel(g, r)
  }

  function EdgeCounts(g: seq<int>): (counts: seq<nat>)
    requires SpatialGaps(g)
    ensures |counts| == LeafCount(g) + |g|
    ensures forall r :: 0 <= r < |counts| ==> counts[r] == EdgeCount(g, r)
  {
    seq(LeafCount(g) + |g|, r requires 0 <= r < LeafCount(g) + |g| => EdgeCount(g, r))
  }

  function Offset(g: seq<int>, r: nat): nat
    requires SpatialGaps(g) && IsNode(g, r)
  {
    Sum(EdgeCounts(g), r)
  }

  /** Number of octree nodes, the explicit root included. */
  function NodeCount(g: seq<int>): nat
    requires SpatialGaps(g)
  {
    1 + Sum(EdgeCounts(g), |EdgeCounts(g)|)
  }

  /** The id of the node that edge r emits at a level. */
  function NodeId(g: seq<int>, r: nat, level: int): int
    requires SpatialGaps(g) && IsNode(g, r)
  {
    Offset(g, r) + level - ParentLevel(g, r)
  }

  predicate IsCell(g: seq<int>, id: int)
    requires SpatialGaps(g)
  {
    0 < id < NodeCount(g)
  }

  /** The radix node whose edge emits octree node id. */
  function Edge(g: seq<int>, id: nat): (r: nat)
    requires SpatialGaps(g) && IsCell(g, id)
    ensures IsNode(g, r)
  {
    Segment(EdgeCounts(g), |EdgeCounts(g)|, id - 1)
  }

  function Depth(g: seq<int>, id: nat): int
    requires SpatialGaps(g) && IsCell(g, id)
  {
    id - Offset(g, Edge(g, id)) + ParentLevel(g, Edge(g, id))
  }

  lemma CellOfId(g: seq<int>, id: nat)
    requires SpatialGaps(g) && IsCell(g, id)
    ensures Emits(g, Edge(g, id), Depth(g, id))
    ensures 1 <= Depth(g, id) <= MAX_LEVEL
    ensures NodeId(g, Edge(g, id), Depth(g, id)) == id
  {
    var r := Edge(g, id);
    LevelBounds(g, r);
    assert EdgeCounts(g)[r] == EdgeCount(g, r);
  }

  lemma DepthInEdge(g: seq<int>, id: nat)
    requires SpatialGaps(g) && IsCell(g, id)
    ensures 1 <= Depth(g, id) <= Level(g, Edge(g, id)) <= MAX_LEVEL
  {
    CellOfId(g, id);
    LevelBounds(g, Edge(g, id));
  }

  lemma IdOfCell(g: seq<int>, r: nat, level: int)
    requires SpatialGaps(g) && IsNode(g, r) && Emits(g, r, level)
    ensures IsCell(g, NodeId(g, r, level))
    ensures Edge(g, NodeId(g, r, level)) == r && Depth(g, NodeId(g, r, level)) == level
  {
    assert EdgeCounts(g)[r] == EdgeCount(g, r);
    SegmentIsUnique(EdgeCounts(g), |EdgeCounts(g)|, r, NodeId(g, r, level) - 1);
  }

  /** The id of the cell of a level that contains the keys of radix node r. */
  function Enclosing(g: seq<int>, r: nat, level: int): int
    requires SpatialGaps(g) && IsNode(g, r) && 0 <= level <= Level(g, r)
  {
    if level == 0 then 0 else NodeId(g, Climb(g, r, level), level)
  }

  /** The id of the cell that contains the cell of this id, one level up. */
  function ParentId(g: seq<int>, id: nat): int
    requires SpatialGaps(g) && IsCell(g, id)
  {
    DepthInEdge(g, id);
    Enclosing(g, Edge(g, id), Depth(g, id) - 1)
  }

  /** The id of an enclosing cell: zero for the root, otherwise the cell that its edge emits. */
  lemma EnclosingCell(g: seq<int>, r: nat, level: int, p: int)
    requires SpatialGaps(g) && IsNode(g, r) && 0 <= level <= Level(g, r) && p == Enclosing(g, r, level)
    ensures p == 0 <==> level == 0
    ensures level > 0 ==>
              && IsCell(g, p) && Depth(g, p) == level
              && Lo(g, Edge(g, p)) <= Lo(g, r) && Hi(g, r) <= Hi(g, Edge(g, p))
  {
    if level > 0 {
      IdOfCell(g, Climb(g, r, level), level);
    }
  }

  lemma ParentEncloses(g: seq<int>, id: nat, r: nat, level: int)
    requires SpatialGaps(g) && IsCell(g, id) && r == Edge(g, id) && level == Depth(g, id) - 1
    requires 0 <= level <= Level(g, r)
    ensures ParentId(g, id) == Enclosing(g, r, level)
  {
  }

  lemma ParentOfId(g: seq<int>, id: nat, r: nat, level: int, p: int)
    requires SpatialGaps(g) && IsCell(g, id) && r == Edge(g, id) && level == Depth(g, id) - 1 && p == ParentId(g, id)
    ensures p == 0 <==> level == 0
    ensures p != 0 ==>
              && IsCell(g, p) && Depth(g, p) == level
              && Lo(g, Edge(g, p)) <= Lo(g, r) && Hi(g, r) <= Hi(g, Edge(g, p))
  {
    DepthInEdge(g, id);
    ParentEncloses(g, id, r, level);
    EnclosingCell(g, r, level, p);
  }

  // ----- the cell of an id

  /** Any key of the cell; the kernels take the first. */
  function FirstKey(keys: seq<nat>, g: seq<int>, id: nat): nat
    requires SpatialGaps(g) && IsCell(g, id) && |keys| == LeafCount(g)
  {
    keys[Lo(g, Edge(g, id))]
  }

  function CellIndex(keys: seq<nat>, g: seq<int>, id: nat): nat
    requires SpatialGaps(g) && IsCell(g, id) && |keys| == LeafCount(g)
  {
    CellOfId(g, id);
    CellAt(FirstKey(keys, g, id), Depth(g, id))
  }

  /** One octal digit of the key leads from the cell of a level to the next finer one. */
  lemma CellDigit(key: nat, level: int)
    requires 1 <= level <= MAX_LEVEL
    ensures CellAt(key, level) / 8 == CellAt(key, level - 1)
  {
    ShiftRightTwice(key, SPATIAL_BITS - level * DIMENSIONS, DIMENSIONS);
    var c := CellAt(key, level);
    assert ShiftRight(c, 3) == ShiftRight(c / 2, 2) == ShiftRight(c / 2 / 2, 1) == c / 2 / 2 / 2;
  }

  lemma CellAboveCell(keys: seq<nat>, g: seq<int>, id: nat)
    requires |keys| == LeafCount(g) && SpatialGaps(g) && IsCell(g, id)
    ensures 1 <= Depth(g, id) <= MAX_LEVEL
    ensures CellIndex(keys, g, id) / 8 == CellAt(FirstKey(keys, g, id), Depth(g, id) - 1)
  {
    CellOfId(g, id);
    CellDigit(FirstKey(keys, g, id), Depth(g, id));
  }

  lemma InnerCellOfParent(keys: seq<nat>, g: seq<int>, id: nat, p: nat)
    requires UniqueKeys(keys) && g == Gaps(keys) && SpatialGaps(g) && IsCell(g, id) && IsCell(g, p)
    requires Depth(g, p) == Depth(g, id) - 1
    requires Lo(g, Edge(g, p)) <= Lo(g, Edge(g, id)) <= Hi(g, Edge(g, p))
    ensures 1 <= Depth(g, p) <= MAX_LEVEL
    ensures CellIndex(keys, g, p) == CellAt(FirstKey(keys, g, id), Depth(g, p))
  {
    CellOfId(g, p);
    CellOfEdge(keys, Edge(g, p), Depth(g, p), Lo(g, Edge(g, id)));
  }

  /** All keys lie in the root cell. */
  lemma RootCell(keys: seq<nat>, k: nat)
    requires UniqueKeys(keys) && k < |keys|
    ensures CellAt(keys[k], 0) == 0
  {
  }

  lemma CellBelowRoot(keys: seq<nat>, g: seq<int>, id: nat)
    requires UniqueKeys(keys) && g == Gaps(keys) && SpatialGaps(g) && IsCell(g, id) && Depth(g, id) == 1
    ensures CellIndex(keys, g, id) / 8 == 0
  {
    CellAboveCell(keys, g, id);
    RootCell(keys, Lo(g, Edge(g, id)));
  }

  /** The cell of a node lies inside the cell that its parent id names. */
  lemma CellOfParent(keys: seq<nat>, g: seq<int>, id: nat, p: nat)
    requires UniqueKeys(keys) && g == Gaps(keys) && SpatialGaps(g) && IsCell(g, id) && IsCell(g, p)
    requires p == ParentId(g, id)
    ensures CellIndex(keys, g, id) / 8 == CellIndex(keys, g, p)
  {
    ParentOfId(g, id, Edge(g, id), Depth(g, id) - 1, ParentId(g, id));
    CellAboveCell(keys, g, id);
    InnerCellOfParent(keys, g, id, p);
  }

  /** Distinct nodes are distinct cells. */
  lemma CellNamesId(keys: seq<nat>, g: seq<int>, a: nat, b: nat)
    requires UniqueKeys(keys) && g == Gaps(keys) && SpatialGaps(g) && IsCell(g, a) && IsCell(g, b)
    requires Depth(g, a) == Depth(g, b) && CellIndex(keys, g, a) == CellIndex(keys, g, b)
    ensures a == b
  {
    CellOfId(g, a);
    CellOfId(g, b);
    CellNamesEdge(keys, Edge(g, a), Edge(g, b), Depth(g, a));
  }

  // ----- the table of all cells

  /** What id stands for: a cell, the range of keys in it, and the id of the enclosing cell.
      A leaf cell holds one key and is not divided further. */
  datatype Cell = Cell(depth: nat, index: nat, parent: int, first: nat, last: nat, leaf: bool)

  function CellRecord(keys: seq<nat>, g: seq<int>, id: nat): Cell
    requires SpatialGaps(g) && IsCell(g, id) && |keys| == LeafCount(g)
  {
    CellOfId(g, id);
    var r := Edge(g, id);
    Cell(Depth(g, id), CellIndex(keys, g, id), ParentId(g, id), Lo(g, r), Hi(g, r), r < LeafCount(g))
  }

  function CellTable(keys: seq<nat>, g: seq<int>): (cells: seq<Cell>)
    requires SpatialGaps(g) && |keys| == LeafCount(g)
    ensures |cells| == NodeCount(g)
  {
    seq(NodeCount(g), id requires 0 <= id < NodeCount(g) =>
      if id == 0 then Cell(0, 0, -1, 0, |g|, false) else CellRecord(keys, g, id))
  }

  /** The cell of a node inside the table, as seen from its keys. */
  ghost predicate HoldsItsKeys(keys: seq<nat>, c: Cell)
  {
    && c.depth <= MAX_LEVEL && c.first <= c.last < |keys|
    && (forall k :: 0 <= k < |keys| ==> (CellAt(keys[k], c.depth) == c.index <==> c.first <= k <= c.last))
  }

  ghost predicate LinkedToParent(cells: seq<Cell>, id: nat)
    requires 0 < id < |cells|
  {
    var c := cells[id];
    && 0 < c.depth && 0 <= c.parent < |cells|
    && cells[c.parent].depth == c.depth - 1 && cells[c.parent].index == c.index / 8
    && !cells[c.parent].leaf
    && (c.leaf <==> c.first == c.last)
  }

  /** Every key of an undivided cell leads on to a finer cell in the table. */
  ghost predicate Divided(keys: seq<nat>, cells: seq<Cell>, id: nat, k: nat)
    requires id < |cells| && k < |keys| && cells[id].depth < MAX_LEVEL
  {
    exists c :: 0 < c < |cells| && cells[c].depth == cells[id].depth + 1
             && cells[c].index == CellAt(keys[k], cells[id].depth + 1)
  }

  ghost predicate GoodCells(keys: seq<nat>, cells: seq<Cell>)
  {
    && 0 < |keys| && 0 < |cells| && cells[0] == Cell(0, 0, -1, 0, |keys| - 1, false)
    && (forall id :: 0 <= id < |cells| ==> HoldsItsKeys(keys, cells[id]))
    && (forall id :: 0 < id < |cells| ==> LinkedToParent(cells, id))
    && (forall a, b :: 0 <= a < b < |cells| && cells[a].depth == cells[b].depth ==> cells[a].index != cells[b].index)
    && (forall id :: 0 <= id < |cells| && !cells[id].leaf ==> cells[id].depth < MAX_LEVEL)
    && (forall id, k :: 0 <= id < |cells| && !cells[id].leaf && cells[id].first <= k <= cells[id].last ==>
          Divided(keys, cells, id, k))
  }

  lemma RecordHoldsItsKeys(keys: seq<nat>, g: seq<int>, id: nat)
    requires UniqueKeys(keys) && g == Gaps(keys) && SpatialGaps(g) && IsCell(g, id)
    ensures HoldsItsKeys(keys, CellRecord(keys, g, id))
  {
    CellOfId(g, id);
    forall k | 0 <= k < |keys|
      ensures CellAt(keys[k], Depth(g, id)) == CellIndex(keys, g, id)
              <==> Lo(g, Edge(g, id)) <= k <= Hi(g, Edge(g, id))
    {
      CellOfEdge(keys, Edge(g, id), Depth(g, id), k);
    }
  }

  lemma ParentIsNoLeaf(keys: seq<nat>, g: seq<int>, id: nat)
    requires UniqueKeys(keys) && g == Gaps(keys) && SpatialGaps(g) && IsCell(g, id)
    requires ParentId(g, id) != 0
    ensures IsCell(g, ParentId(g, id)) && Edge(g, ParentId(g, id)) >= LeafCount(g)
  {
    ParentOfId(g, id, Edge(g, id), Depth(g, id) - 1, ParentId(g, id));
    CellOfId(g, id);
    CellOfId(g, ParentId(g, id));
    var r, e := Edge(g, id), Edge(g, ParentId(g, id));
    if e < LeafCount(g) {
      NothingBelowLeaf(keys, e, r, Depth(g, id));
      LevelBounds(g, e);
    }
  }

  lemma RootRecordIsLinked(keys: seq<nat>, g: seq<int>, id: nat)
    requires UniqueKeys(keys) && g == Gaps(keys) && SpatialGaps(g) && IsCell(g, id) && ParentId(g, id) == 0
    ensures LinkedToParent(CellTable(keys, g), id)
  {
    assert CellTable(keys, g)[id] == CellRecord(keys, g, id);
    ParentOfId(g, id, Edge(g, id), Depth(g, id) - 1, ParentId(g, id));
    CellBelowRoot(keys, g, id);
  }

  lemma InnerRecordIsLinked(keys: seq<nat>, g: seq<int>, id: nat, p: nat)
    requires UniqueKeys(keys) && g == Gaps(keys) && SpatialGaps(g) && IsCell(g, id) && IsCell(g, p)
    requires p == ParentId(g, id)
    ensures LinkedToParent(CellTable(keys, g), id)
  {
    assert CellTable(keys, g)[id] == CellRecord(keys, g, id);
    assert CellTable(keys, g)[p] == CellRecord(keys, g, p);
    ParentOfId(g, id, Edge(g, id), Depth(g, id) - 1, ParentId(g, id));
    CellOfParent(keys, g, id, p);
    ParentIsNoLeaf(keys, g, id);
  }

  lemma RecordIsLinked(keys: seq<nat>, g: seq<int>, id: nat)
    requires UniqueKeys(keys) && g == Gaps(keys) && SpatialGaps(g) && IsCell(g, id)
    ensures LinkedToParent(CellTable(keys, g), id)
  {
    ParentOfId(g, id, Edge(g, id), Depth(g, id) - 1, ParentId(g, id));
    if ParentId(g, id) == 0 {
      RootRecordIsLinked(keys, g, id);
    } else {
      InnerRecordIsLinked(keys, g, id, ParentId(g, id));
    }
  }

  /** The record of a cell, by its depth and index. */
  lemma RecordOf(keys: seq<nat>, g: seq<int>, id: nat)
    requires |keys| == LeafCount(g) && SpatialGaps(g) && IsCell(g, id)
    ensures 0 < CellTable(keys, g)[id].depth == Depth(g, id)
    ensures CellTable(keys, g)[id].index == CellIndex(keys, g, id)
  {
    CellOfId(g, id);
    assert CellTable(keys, g)[id] == CellRecord(keys, g, id);
  }

  lemma RecordsAreDistinct(keys: seq<nat>, g: seq<int>, a: nat, b: nat)
    requires UniqueKeys(keys) && g == Gaps(keys) && SpatialGaps(g) && a < b && IsCell(g, b)
    ensures var cells := CellTable(keys, g);
            cells[a].depth == cells[b].depth ==> cells[a].index != cells[b].index
  {
    RecordOf(keys, g, b);
    if a > 0 {
      RecordOf(keys, g, a);
      if Depth(g, a) == Depth(g, b) && CellIndex(keys, g, a) == CellIndex(keys, g, b) {
        CellNamesId(keys, g, a, b);
      }
    }
  }

  /** A divided cell lies above the level at which its keys are first alone. */
  lemma LevelBelowDivided(keys: seq<nat>, g: seq<int>, id: nat, k: nat)
    requires UniqueKeys(keys) && g == Gaps(keys) && SpatialGaps(g) && IsCell(g, id)
    requires Edge(g, id) >= LeafCount(g) && Lo(g, Edge(g, id)) <= k <= Hi(g, Edge(g, id))
    ensures Depth(g, id) < Level(g, k)
  {
    var r, level := Edge(g, id), Depth(g, id);
    CellOfId(g, id);
    NothingBelowLeaf(keys, k, r, level);
    if level == Level(g, k) {
      LevelBounds(g, k);
      CellOfEdge(keys, r, level, k);
      CellNamesEdge(keys, r, k, level);
    }
  }

  /** Down to the level at which a key is first alone, all its cells are in the table. */
  lemma NodeOfKey(keys: seq<nat>, g: seq<int>, k: nat, level: int) returns (c: nat)
    requires UniqueKeys(keys) && g == Gaps(keys) && SpatialGaps(g) && k < |keys|
    requires 1 <= level <= Level(g, k)
    ensures level <= MAX_LEVEL && IsCell(g, c)
    ensures CellTable(keys, g)[c].depth == level
    ensures CellTable(keys, g)[c].index == CellAt(keys[k], level)
  {
    var e := Climb(g, k, level);
    c := NodeId(g, e, level);
    IdOfCell(g, e, level);
    assert CellTable(keys, g)[c] == CellRecord(keys, g, c);
    CellOfEdge(keys, e, level, k);
  }

  lemma LevelBelowRecord(keys: seq<nat>, g: seq<int>, id: nat, k: nat)
    requires UniqueKeys(keys) && g == Gaps(keys) && SpatialGaps(g) && id < NodeCount(g)
    requires !CellTable(keys, g)[id].leaf
    requires CellTable(keys, g)[id].first <= k <= CellTable(keys, g)[id].last
    ensures k < |keys|
    ensures CellTable(keys, g)[id].depth < Level(g, k) <= MAX_LEVEL
  {
    if id > 0 {
      assert CellTable(keys, g)[id] == CellRecord(keys, g, id);
      LevelBelowDivided(keys, g, id, k);
    }
    LevelBounds(g, k);
  }

  lemma CellDivides(keys: seq<nat>, cells: seq<Cell>, id: nat, k: nat, c: nat)
    requires id < |cells| && k < |keys| && cells[id].depth < MAX_LEVEL && 0 < c < |cells|
    requires cells[c].depth == cells[id].depth + 1 && cells[c].index == CellAt(keys[k], cells[id].depth + 1)
    ensures Divided(keys, cells, id, k)
  {
  }

  lemma RecordIsDivided(keys: seq<nat>, g: seq<int>, cells: seq<Cell>, id: nat, k: nat, level: nat)
    requires UniqueKeys(keys) && g == Gaps(keys) && SpatialGaps(g) && cells == CellTable(keys, g) && id < |cells|
    requires cells[id].depth == level - 1 && k < |keys| && 1 <= level <= Level(g, k) <= MAX_LEVEL
    ensures Divided(keys, cells, id, k)
  {
    var c := NodeOfKey(keys, g, k, level);
    CellDivides(keys, cells, id, k, c);
  }

  lemma CellsAreLinked(keys: seq<nat>, g: seq<int>, id: nat)
    requires UniqueKeys(keys) && g == Gaps(keys) && SpatialGaps(g) && 0 < id < NodeCount(g)
    ensures HoldsItsKeys(keys, CellTable(keys, g)[id]) && LinkedToParent(CellTable(keys, g), id)
  {
    assert CellTable(keys, g)[id] == CellRecord(keys, g, id);
    RecordHoldsItsKeys(keys, g, id);
    RecordIsLinked(keys, g, id);
  }

  lemma CellIsDivided(keys: seq<nat>, g: seq<int>, cells: seq<Cell>, id: nat, k: nat)
    requires UniqueKeys(keys) && g == Gaps(keys) && SpatialGaps(g) && cells == CellTable(keys, g)
    requires id < |cells| && !cells[id].leaf && cells[id].first <= k <= cells[id].last
    requires HoldsItsKeys(keys, cells[id])
    ensures cells[id].depth < MAX_LEVEL && Divided(keys, cells, id, k)
  {
    LevelBelowRecord(keys, g, id, k);
    RecordIsDivided(keys, g, cells, id, k, cells[id].depth + 1);
  }

  /** The table of the materialized cells is a well-linked octree over the keys. */
  lemma CellTableIsGood(keys: seq<nat>, g: seq<int>)
    requires UniqueKeys(keys) && g == Gaps(keys) && SpatialGaps(g)
    ensures GoodCells(keys, CellTable(keys, g))
  {
    var cells := CellTable(keys, g);
    forall id | 0 < id < |cells|
      ensures HoldsItsKeys(keys, cells[id]) && LinkedToParent(cells, id)
    {
      CellsAreLinked(keys, g, id);
    }
    forall a, b | 0 <= a < b < |cells|
      ensures cells[a].depth == cells[b].depth ==> cells[a].index != cells[b].index
    {
      RecordsAreDistinct(keys, g, a, b);
    }
    forall id, k | 0 <= id < |cells| && !cells[id].leaf && cells[id].first <= k <= cells[id].last
      ensures cells[id].depth < MAX_LEVEL && Divided(keys, cells, id, k)
    {
      CellIsDivided(keys, g, cells, id, k);
    }
    forall id | 0 <= id < |cells| && !cells[id].leaf
      ensures cells[id].depth < MAX_LEVEL
    {
      assert HoldsItsKeys(keys, cells[id]);
      CellIsDivided(keys, g, cells, id, cells[id].first);
    }
  }
}
