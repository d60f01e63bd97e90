/** Masses and centres of mass of a whole octree: child counts, leaf moments, and the climbing
    threads of the bottom-up pass, whose schedule leaves no trace in the result. */
module OctreeMasses {
  import opened Ints
  import opened OctreePlan
  import opened OctreeBuilder
  import opened OctreeTrees
  import opened Forests
  import opened Vectors
  import opened BarnesHut
  import opened DirectSum
  import opened Moments
  import opened MassKernels
  import opened MassPropagation

  function NetOf(o: Octree, counts: seq<nat>): Net
    requires WellFormed(o) && |counts| == |o.nodes|
  {
    var n := |o.nodes|;
    Net(seq(n, id requires 0 <= id < n => o.nodes[id].parent), o.children,
        seq(n, id requires 0 <= id < n => o.nodes[id].particleCount > 0), counts)
  }

  /** Sums over the children of a node in its first octants. */
  function PartialSums(bodies: seq<Body>, o: Octree, id: nat): (sums: seq<Sums>)
    requires WellFormed(o) && IsId(o, id)
    ensures |sums| == 9
  {
    seq(9, k requires 0 <= k < 9 => KidSums(bodies, Kids(o, id, k)))
  }

  function TargetOf(bodies: seq<Body>, o: Octree): Target
    requires WellFormed(o)
  {
    var n := |o.nodes|;
    Target(seq(n, id requires 0 <= id < n => KidsIn(o, id, 8)),
           seq(n, id requires 0 <= id < n => TreeMoment(bodies, TreeAt(o, id))),
           seq(n, id requires 0 <= id < n => PartialSums(bodies, o, id)),
           seq(n, id requires 0 <= id < n => DepthOf(o, id)))
  }

  function DepthOf(o: Octree, id: nat): nat
    requires WellFormed(o) && IsId(o, id)
  {
    o.nodes[id].level
  }

  lemma ChildIsGathered(bodies: seq<Body>, o: Octree, id: nat, k: nat)
    requires WellFormed(o) && IsId(o, id) && k < 8
    ensures var c := o.children[8 * id + k];
            && (c != -1 ==> 0 <= c < |o.nodes| && c in KidsIn(o, id, 8))
            && KidSums(bodies, Kids(o, id, k + 1))
               == if c == -1 then KidSums(bodies, Kids(o, id, k))
                  else if 0 <= c < |o.nodes|
                  then AddTerm(KidSums(bodies, Kids(o, id, k)), TreeMoment(bodies, TreeAt(o, c)).mass,
                               TreeMoment(bodies, TreeAt(o, c)).center)
                  else NO_SUMS
  {
    var c := o.children[8 * id + k];
    assert c == Child(o, id, k) && ChildLinked(o, id, k);
    if c != -1 {
      SeatIs(o, c, id, k);
      ParentOfKid(o, id, c);
      assert o.nodes[c].level <= MAX_LEVEL;
      assert Kids(o, id, k + 1) == More(TreeAt(o, c), Kids(o, id, k));
    }
  }

  lemma SlotIsGathered(bodies: seq<Body>, o: Octree, counts: seq<nat>, id: nat, k: nat)
    requires WellFormed(o) && IsId(o, id) && |counts| == |o.nodes| && k < 8
    ensures SlotGathered(NetOf(o, counts), TargetOf(bodies, o), id, k)
  {
    ChildIsGathered(bodies, o, id, k);
    assert TargetOf(bodies, o).partial[id] == PartialSums(bodies, o, id);
  }

  lemma MomentOfInnerNode(bodies: seq<Body>, o: Octree, id: nat)
    requires WellFormed(o) && IsId(o, id) && o.nodes[id].particleCount <= 0
    ensures TreeMoment(bodies, TreeAt(o, id)) == MomentFrom(PartialSums(bodies, o, id)[8])
  {
  }

  lemma NodeIsGathered(bodies: seq<Body>, o: Octree, counts: seq<nat>, id: nat)
    requires WellFormed(o) && IsId(o, id) && |counts| == |o.nodes| && o.nodes[id].particleCount <= 0
    ensures GatheredFrom(NetOf(o, counts), TargetOf(bodies, o), id)
  {
    forall k | 0 <= k < 8
      ensures SlotGathered(NetOf(o, counts), TargetOf(bodies, o), id, k)
    {
      SlotIsGathered(bodies, o, counts, id, k);
    }
    MomentOfInnerNode(bodies, o, id);
  }

  lemma {:induction false} AtMostOneKidEach(o: Octree, id: nat, k: nat)
    requires WellFormed(o) && IsId(o, id) && k <= 8
    ensures |KidsIn(o, id, k)| <= k
  {
    if k > 0 {
      AtMostOneKidEach(o, id, k - 1);
    }
  }

  lemma KidsByParent(o: Octree, counts: seq<nat>, id: nat)
    requires WellFormed(o) && IsId(o, id) && |counts| == |o.nodes|
    ensures AreKids(NetOf(o, counts), KidsIn(o, id, 8), id)
  {
    forall c
      ensures c in KidsIn(o, id, 8) <==> 0 < c < |o.nodes| && o.nodes[c].parent == id
    {
      ParentOfKid(o, id, c);
    }
  }

  lemma NetIsGood(bodies: seq<Body>, o: Octree, counts: seq<nat>)
    requires |o.nodes| <= MOST_NODES
    requires WellFormed(o) && AreChildCounts(o, counts)
    ensures GoodNet(NetOf(o, counts), TargetOf(bodies, o))
  {
    var net, goal := NetOf(o, counts), TargetOf(bodies, o);
    forall id | 0 <= id < |o.nodes|
      ensures AreKids(net, goal.kids[id], id)
      ensures net.occupied[id] <==> goal.kids[id] == {}
      ensures net.childCount[id] == |goal.kids[id]| <= 8
      ensures !net.occupied[id] ==> GatheredFrom(net, goal, id)
    {
      KidsByParent(o, counts, id);
      LeafHasNoKids(o, id);
      AtMostOneKidEach(o, id, 8);
      if !net.occupied[id] {
        NodeIsGathered(bodies, o, counts, id);
      }
    }
    forall c | 0 < c < |o.nodes|
      ensures 0 <= net.parent[c] < |o.nodes| && goal.depth[c] == goal.depth[net.parent[c]] + 1
    {
      SeatIs(o, c, o.nodes[c].parent, Seat(o, c));
    }
  }

  /** Every node ends with the moment of its tree, under every schedule of the threads. */
  method ComputeOctreeMassAndCenterOfMass(o: Octree, order: seq<nat>, data: seq<Body>)
    returns (moments: seq<Moment>, error: int)
    requires |o.nodes| <= MOST_NODES
    requires WellFormed(o) && |order| == |data| && IsOrder(order) && RangesFit(o, |data|)
    ensures error == 0 && |moments| == |o.nodes|
    ensures forall id :: 0 <= id < |o.nodes| ==> moments[id] == TreeMoment(Gathered(data, order), TreeAt(o, id))
  {
    var counts, leafMoments;
    counts, error := CountOctreeChildren(o);
    if error != 0 {
      return leafMoments, error;
    }
    leafMoments, error := InitializeOctreeLeaves(o, order, data);
    if error != 0 {
      return leafMoments, error;
    }
    ghost var bodies := Gathered(data, order);
    NetIsGood(bodies, o, counts);
    var final := Propagate(NetOf(o, counts), TargetOf(bodies, o), leafMoments);
    moments, error := final.moments, final.error;
  }
}
