/** Trees and forests read back from the octree arrays, and the stackless steps between their
    nodes: first child, next sibling, next sibling of the nearest ancestor. */
module Forests {
  import opened Ints
  import opened OctreePlan
  import opened OctreeBuilder
  import opened OctreeTrees

  datatype Tree = Leaf(id: nat, first: nat, count: nat) | Node(id: nat, kids: Forest)
  datatype Forest = None | More(tree: Tree, rest: Forest)

  function Append(a: Forest, b: Forest): Forest
  {
    match a
    case None => b
    case More(t, rest) => More(t, Append(rest, b))
  }

  function TreeSize(t: Tree): (n: nat)
    ensures n > 0
  {
    match t
    case Leaf(_, _, _) => 1
    case Node(_, kids) => 1 + ForestSize(kids)
  }

  function ForestSize(f: Forest): nat
  {
    match f
    case None => 0
    case More(t, rest) => TreeSize(t) + ForestSize(rest)
  }

  lemma {:induction false} SizeOfAppend(a: Forest, b: Forest)
    ensures ForestSize(Append(a, b)) == ForestSize(a) + ForestSize(b)
  {
    if a.More? {
      SizeOfAppend(a.rest, b);
    }
  }

  predicate IsId(o: Octree, id: int)
  {
    0 <= id < |o.nodes|
  }

  function TreeAt(o: Octree, id: nat): (t: Tree)
    requires WellFormed(o) && IsId(o, id)
    ensures t.id == id
    decreases MAX_LEVEL - o.nodes[id].level, 9
  {
    if o.nodes[id].particleCount > 0 then Leaf(id, o.nodes[id].firstParticle, o.nodes[id].particleCount)
    else Node(id, Kids(o, id, 8))
  }

  /** The children in octants k-1 down to 0. */
  function Kids(o: Octree, id: nat, k: nat): Forest
    requires WellFormed(o) && IsId(o, id) && k <= 8
    decreases MAX_LEVEL - o.nodes[id].level, k
  {
    if k == 0 then None
    else
      assert ChildLinked(o, id, k - 1);
      var c := Child(o, id, k - 1);
      if c == -1 then Kids(o, id, k - 1)
      else
        assert o.nodes[c].level <= MAX_LEVEL;
        More(TreeAt(o, c), Kids(o, id, k - 1))
  }

  lemma {:induction false} EmptyOctants(o: Octree, id: nat, low: nat, high: nat)
    requires WellFormed(o) && IsId(o, id) && low <= high <= 8
    requires forall octant :: low <= octant < high ==> Child(o, id, octant) == -1
    ensures Kids(o, id, high) == Kids(o, id, low)
    decreases high
  {
    if low < high {
      assert Child(o, id, high - 1) == -1;
      EmptyOctants(o, id, low, high - 1);
    }
  }

  /** The octant in which a node sits below its parent. */
  ghost function Seat(o: Octree, id: nat): (octant: nat)
    requires WellFormed(o) && IsId(o, id) && id > 0
    ensures octant < 8 && SitsIn(o, id, octant)
  {
    assert HasSeat(o, id);
    var octant :| 0 <= octant < 8 && SitsIn(o, id, octant);
    octant
  }

  lemma SeatIs(o: Octree, id: nat, parent: nat, octant: nat)
    requires WellFormed(o) && IsId(o, parent) && octant < 8 && Child(o, parent, octant) == id != -1
    ensures IsId(o, id) && id > 0 && o.nodes[id].parent == parent && Seat(o, id) == octant
    ensures o.nodes[id].level == o.nodes[parent].level + 1
  {
    assert ChildLinked(o, parent, octant);
  }

  /** What a depth-first walk visits after it has finished the tree at a node. */
  ghost function Rest(o: Octree, id: nat): Forest
    requires WellFormed(o) && IsId(o, id)
    decreases o.nodes[id].level
  {
    if id == 0 then None
    else
      var p := o.nodes[id].parent;
      assert ChildLinked(o, p, Seat(o, id));
      Append(Kids(o, p, Seat(o, id)), Rest(o, p))
  }

  /** The walk from a node on: its own tree, then the rest. */
  ghost function Walk(o: Octree, id: int): Forest
    requires WellFormed(o) && (id == -1 || IsId(o, id))
  {
    if id == -1 then None else More(TreeAt(o, id), Rest(o, id))
  }

  /** Entering the next occupied octant of a node. */
  lemma WalkFromChild(o: Octree, id: nat, octant: nat, k: nat)
    requires WellFormed(o) && IsId(o, id) && octant < k <= 8
    requires Child(o, id, octant) != -1
    requires forall other :: octant < other < k ==> Child(o, id, other) == -1
    ensures IsId(o, Child(o, id, octant))
    ensures Walk(o, Child(o, id, octant)) == Append(Kids(o, id, k), Rest(o, id))
  {
    assert ChildLinked(o, id, octant);
    SeatIs(o, Child(o, id, octant), id, octant);
    EmptyOctants(o, id, octant + 1, k);
  }

  method FirstTraversalChild(o: Octree, id: nat) returns (child: int, error: int)
    requires |o.nodes| <= MOST_NODES
    requires WellFormed(o) && IsId(o, id) && o.nodes[id].particleCount == 0
    ensures error == 0 && IsId(o, child)
    ensures Walk(o, child) == Append(Kids(o, id, 8), Rest(o, id))
  {
    error := 0;
    assert HasChild(o, id);
    var octant: int := 7;
    while octant >= 0
      invariant -1 <= octant <= 7 && error == 0
      invariant forall other :: octant < other < 8 ==> Child(o, id, other) == -1
    {
      var slot: Int := id * 8 + octant;
      child := o.children[slot];
      assert child == Child(o, id, octant) && ChildLinked(o, id, octant);
      if child != -1 {
        if child <= 0 || child >= |o.nodes| {
          return -2, 1;
        }
        WalkFromChild(o, id, octant, 8);
        return;
      }
      octant := octant - 1;
    }
    return -2, 5;
  }

  method NextTraversalNode(o: Octree, start: nat) returns (next: int, error: int)
    requires |o.nodes| <= MOST_NODES
    requires WellFormed(o) && IsId(o, start)
    ensures error == 0 && (next == -1 || IsId(o, next))
    ensures Walk(o, next) == Rest(o, start)
  {
    error := 0;
    var node: int := start;
    while node != 0
      invariant IsId(o, node) && error == 0
      invariant Rest(o, node) == Rest(o, start)
      decreases o.nodes[node].level
    {
      var parent := o.nodes[node].parent;
      if parent < 0 || parent >= |o.nodes| {
        return -2, 4;
      }
      ghost var seat := Seat(o, node);
      SeatIs(o, node, parent, seat);
      var foundCurrent := false;
      var octant: int := 7;
      while octant >= 0
        invariant -1 <= octant <= 7
        invariant foundCurrent <==> octant < seat
        invariant foundCurrent ==> forall other :: octant < other < seat ==> Child(o, parent, other) == -1
      {
        var slot: Int := parent * 8 + octant;
        var child := o.children[slot];
        assert child == Child(o, parent, octant) && ChildLinked(o, parent, octant);
        if child != -1 {
          if child <= 0 || child >= |o.nodes| {
            return -2, 1;
          }
          if foundCurrent {
            WalkFromChild(o, parent, octant, seat);
            return child, 0;
          }
          if child == node {
            foundCurrent := true;
          }
        }
        octant := octant - 1;
      }
      if !foundCurrent {
        return -2, 4;
      }
      EmptyOctants(o, parent, 0, seat);
      node := parent;
    }
    return -1, 0;
  }
}
