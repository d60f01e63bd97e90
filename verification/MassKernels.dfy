/** The two kernels that prepare the bottom-up pass: child counts of all nodes, and the moments
    of the occupied leaves. */
module MassKernels {
  import opened Ints
  import opened OctreePlan
  import opened OctreeBuilder
  import opened OctreeTrees
  import opened Forests
  import opened Vectors
  import opened BarnesHut
  import opened DirectSum
  import opened Moments
  import opened Threads

  /** The children in the first k octants. */
  function KidsIn(o: Octree, id: nat, k: nat): set<int>
    requires WellFormed(o) && IsId(o, id) && k <= 8
  {
    if k == 0 then {}
    else if Child(o, id, k - 1) == -1 then KidsIn(o, id, k - 1)
    else KidsIn(o, id, k - 1) + {Child(o, id, k - 1)}
  }

  /** A node is among the children of its parent from its own octant on. */
  lemma {:induction false} KidsAreChildren(o: Octree, id: nat, k: nat, c: int)
    requires WellFormed(o) && IsId(o, id) && k <= 8
    ensures c in KidsIn(o, id, k) <==> 0 < c < |o.nodes| && o.nodes[c].parent == id && Seat(o, c) < k
  {
    if k > 0 {
      KidsAreChildren(o, id, k - 1, c);
      if Child(o, id, k - 1) != -1 {
        assert ChildLinked(o, id, k - 1);
        SeatIs(o, Child(o, id, k - 1), id, k - 1);
      }
      if 0 < c < |o.nodes| && o.nodes[c].parent == id && Seat(o, c) == k - 1 {
        assert SitsIn(o, c, k - 1);
      }
    }
  }

  lemma ParentOfKid(o: Octree, id: nat, c: int)
    requires WellFormed(o) && IsId(o, id)
    ensures c in KidsIn(o, id, 8) <==> 0 < c < |o.nodes| && o.nodes[c].parent == id
  {
    KidsAreChildren(o, id, 8, c);
  }

  lemma KidOfChild(o: Octree, id: nat, c: int)
    requires WellFormed(o) && IsId(o, id)
    ensures c in KidsIn(o, id, 8) ==> HasChild(o, id)
  {
    ParentOfKid(o, id, c);
    if c in KidsIn(o, id, 8) {
      assert Child(o, id, Seat(o, c)) == c;
    }
  }

  /** A node holds particles or has children, never both. */
  lemma LeafHasNoKids(o: Octree, id: nat)
    requires WellFormed(o) && IsId(o, id)
    ensures KidsIn(o, id, 8) == {} <==> o.nodes[id].particleCount > 0
  {
    if o.nodes[id].particleCount > 0 {
      assert !HasChild(o, id);
      forall c
        ensures c !in KidsIn(o, id, 8)
      {
        KidOfChild(o, id, c);
      }
    } else {
      assert HasChild(o, id);
      var octant :| 0 <= octant < 8 && Child(o, id, octant) != -1;
      assert ChildLinked(o, id, octant);
      SeatIs(o, Child(o, id, octant), id, octant);
      ParentOfKid(o, id, Child(o, id, octant));
    }
  }

  // ----- counting children

  /** The next octant adds its child, if it has one. */
  lemma KidsGrow(o: Octree, id: nat, octant: nat)
    requires WellFormed(o) && IsId(o, id) && octant < 8
    ensures Child(o, id, octant) != -1 ==> 0 < Child(o, id, octant) < |o.nodes|
    ensures |KidsIn(o, id, octant + 1)| == |KidsIn(o, id, octant)| + if Child(o, id, octant) == -1 then 0 else 1
  {
    assert ChildLinked(o, id, octant);
    if Child(o, id, octant) != -1 {
      SeatIs(o, Child(o, id, octant), id, octant);
      KidsAreChildren(o, id, octant, Child(o, id, octant));
    }
  }

  method CountThread(o: Octree, node: nat) returns (count: nat, error: int)
    requires |o.nodes| <= MOST_NODES
    requires WellFormed(o) && IsId(o, node)
    ensures error == 0 && count == |KidsIn(o, node, 8)|
  {
    count, error := 0, 0;
    for octant := 0 to 8
      invariant count == |KidsIn(o, node, octant)|
    {
      var slot: Int := node * 8 + octant;
      var child := o.children[slot];
      KidsGrow(o, node, octant);
      if child != -1 {
        if child <= 0 || child >= |o.nodes| {
          error := 1;
          return;
        }
        count := count + 1;
      }
    }
    LeafHasNoKids(o, node);
    if o.nodes[node].particleCount > 0 && count != 0 {
      error := 4;
    }
  }

  ghost predicate AreChildCounts(o: Octree, counts: seq<nat>)
    requires WellFormed(o)
  {
    |counts| == |o.nodes| && forall id :: 0 <= id < |counts| ==> counts[id] == |KidsIn(o, id, 8)|
  }

  method CountOctreeChildren(o: Octree) returns (counts: seq<nat>, error: int)
    requires |o.nodes| <= MOST_NODES
    requires WellFormed(o)
    ensures error == 0 && AreChildCounts(o, counts)
  {
    var cells := new nat[|o.nodes|](_ => 0);
    error := 0;
    var threads := ThreadIds(|o.nodes|);
    while threads != {}
      invariant error == 0
      invariant forall t :: t in threads ==> 0 <= t < |o.nodes|
      invariant forall id :: 0 <= id < |o.nodes| && id !in threads ==> cells[id] == |KidsIn(o, id, 8)|
    {
      var node :| node in threads;
      var count, threadError := CountThread(o, node);
      cells[node] := count;
      if error == 0 {
        error := threadError;
      }
      threads := threads - {node};
    }
    counts := cells[..];
  }

  // ----- leaves

  ghost predicate RangesFit(o: Octree, n: nat)
    requires WellFormed(o)
  {
    forall id :: 0 <= id < |o.nodes| && o.nodes[id].particleCount > 0 ==>
      o.nodes[id].firstParticle + o.nodes[id].particleCount <= n
  }

  /** The particles of one leaf, read through the sorted indices. */
  method LeafThread(o: Octree, order: seq<nat>, data: seq<Body>, node: nat) returns (moment: Moment, error: int)
    requires WellFormed(o) && IsId(o, node) && |order| == |data| && IsOrder(order) && RangesFit(o, |data|)
    requires o.nodes[node].particleCount > 0
    ensures error == 0 && moment == TreeMoment(Gathered(data, order), TreeAt(o, node))
  {
    moment, error := Moment(0.0, ORIGIN), 0;
    var count, first := o.nodes[node].particleCount, o.nodes[node].firstParticle;
    if first < 0 || count <= 0 || first + count > |data| {
      return moment, 2;
    }
    ghost var bodies := Gathered(data, order);
    var sums := NO_SUMS;
    for local := 0 to count
      invariant sums == LeafSums(bodies, first, local)
    {
      var particle := order[first + local];
      if particle >= |data| {
        return moment, 3;
      }
      assert bodies[first + local] == data[particle];
      sums := AddTerm(sums, data[particle].mass, data[particle].position);
    }
    moment := MomentFrom(sums);
  }

  ghost predicate LeavesWeighed(o: Octree, bodies: seq<Body>, moments: seq<Moment>)
    requires WellFormed(o)
  {
    && |moments| == |o.nodes|
    && forall id :: 0 <= id < |o.nodes| && o.nodes[id].particleCount > 0 ==>
         moments[id] == TreeMoment(bodies, TreeAt(o, id))
  }

  method InitializeOctreeLeaves(o: Octree, order: seq<nat>, data: seq<Body>)
    returns (moments: seq<Moment>, error: int)
    requires WellFormed(o) && |order| == |data| && IsOrder(order) && RangesFit(o, |data|)
    ensures error == 0 && LeavesWeighed(o, Gathered(data, order), moments)
  {
    ghost var bodies := Gathered(data, order);
    var cells := new Moment[|o.nodes|](_ => Moment(0.0, ORIGIN));
    error := 0;
    var threads := ThreadIds(|o.nodes|);
    while threads != {}
      invariant error == 0
      invariant forall t :: t in threads ==> 0 <= t < |o.nodes|
      invariant forall id :: 0 <= id < |o.nodes| && id !in threads && o.nodes[id].particleCount > 0 ==>
                  cells[id] == TreeMoment(bodies, TreeAt(o, id))
    {
      var node :| node in threads;
      if o.nodes[node].particleCount > 0 {
        var moment, threadError := LeafThread(o, order, data, node);
        if threadError == 0 {
          cells[node] := moment;
        }
        if error == 0 {
          error := threadError;
        }
      }
      threads := threads - {node};
    }
    moments := cells[..];
  }
}
