/** What the traversal accounts for: every particle exactly once, the target never as part of
    an approximated node, all of the other mass, and everything individually when the opening
    angle is zero. */
module Accounting {
  import opened OctreePlan
  import opened OctreeBuilder
  import opened OctreeTrees
  import opened Forests
  import opened Vectors
  import opened Coverage
  import opened BarnesHut

  // ----- every position exactly once

  /** The positions that an item disposes of. */
  function Expand(item: Item): seq<nat>
  {
    match item
    case Point(s) => [s]
    case Self(s) => [s]
    case Cluster(t) => Members(t)
    case Massless(t) => Members(t)
  }

  function ExpandAll(items: seq<Item>): seq<nat>
  {
    if items == [] then [] else ExpandAll(items[..|items| - 1]) + Expand(items[|items| - 1])
  }

  lemma ExpandSnoc(items: seq<Item>, item: Item)
    ensures ExpandAll(items + [item]) == ExpandAll(items) + Expand(item)
  {
    assert (items + [item])[..|items|] == items;
  }

  lemma {:induction false} ExpandConcat(a: seq<Item>, b: seq<Item>)
    ensures ExpandAll(a + b) == ExpandAll(a) + ExpandAll(b)
  {
    if b == [] {
      assert a + b == a;
    } else {
      var front, last := b[..|b| - 1], b[|b| - 1];
      calc {
        ExpandAll(a + b);
        { assert a + b == a + front + [last]; }
        ExpandAll(a + front + [last]);
        { ExpandSnoc(a + front, last); ExpandConcat(a, front); }
        ExpandAll(a) + ExpandAll(front) + Expand(last);
        { Regroup(ExpandAll(a), ExpandAll(front), Expand(last)); }
        ExpandAll(a) + (ExpandAll(front) + Expand(last));
        ExpandAll(a) + ExpandAll(b);
      }
    }
  }

  lemma Regroup(a: seq<nat>, b: seq<nat>, c: seq<nat>)
    ensures a + b + c == a + (b + c)
  {
  }

  /** All ids of a tree are covered by the node data of the scene. */
  predicate IdsCovered(t: Tree, n: nat)
  {
    t.id < n && (t.Node? ==> ForestIdsCovered(t.kids, n))
  }

  predicate ForestIdsCovered(f: Forest, n: nat)
  {
    f.More? ==> IdsCovered(f.tree, n) && ForestIdsCovered(f.rest, n)
  }

  lemma {:induction false} TreeIdsCovered(o: Octree, id: nat)
    requires WellFormed(o) && IsId(o, id)
    ensures IdsCovered(TreeAt(o, id), |o.nodes|)
    decreases MAX_LEVEL - o.nodes[id].level, 9
  {
    if o.nodes[id].particleCount == 0 {
      KidsIdsCovered(o, id, 8);
    }
  }

  lemma {:induction false} KidsIdsCovered(o: Octree, id: nat, k: nat)
    requires WellFormed(o) && IsId(o, id) && k <= 8
    ensures ForestIdsCovered(Kids(o, id, k), |o.nodes|)
    decreases MAX_LEVEL - o.nodes[id].level, k
  {
    if k > 0 {
      assert ChildLinked(o, id, k - 1);
      KidsIdsCovered(o, id, k - 1);
      if Child(o, id, k - 1) != -1 {
        assert o.nodes[Child(o, id, k - 1)].level <= MAX_LEVEL;
        TreeIdsCovered(o, Child(o, id, k - 1));
      }
    }
  }

  ghost predicate SceneCovers(w: Scene, n: nat)
  {
    |w.moments| == n == |w.cubes| && w.target < |w.bodies|
  }

  lemma {:induction false} LeafExpands(w: Scene, first: nat, count: nat)
    ensures ExpandAll(LeafItems(w, first, count)) == Positions(first, count)
  {
    if count > 0 {
      LeafExpands(w, first, count - 1);
      ExpandSnoc(LeafItems(w, first, count - 1), LeafItem(w, first + count - 1));
    }
  }

  lemma ExpandOne(item: Item)
    ensures ExpandAll([item]) == Expand(item)
  {
    assert [item][..0] == [];
  }

  /** The items of a traversal dispose of exactly the positions below the node, in order. */
  lemma {:induction false} TreeExpands(w: Scene, t: Tree, n: nat)
    requires SceneCovers(w, n) && IdsCovered(t, n)
    ensures ExpandAll(TreeItems(w, t)) == Members(t)
  {
    if t.Leaf? {
      LeafExpands(w, t.first, t.count);
    } else if TreeItems(w, t) == [Massless(t)] {
      ExpandOne(Massless(t));
    } else if TreeItems(w, t) == [Cluster(t)] {
      ExpandOne(Cluster(t));
    } else {
      ForestExpands(w, t.kids, n);
    }
  }

  lemma {:induction false} ForestExpands(w: Scene, f: Forest, n: nat)
    requires SceneCovers(w, n) && ForestIdsCovered(f, n)
    ensures ExpandAll(ForestItems(w, f)) == ForestMembers(f)
  {
    if f.More? {
      TreeExpands(w, f.tree, n);
      ForestExpands(w, f.rest, n);
      ExpandConcat(TreeItems(w, f.tree), ForestItems(w, f.rest));
    }
  }

  /** Whatever the opening angle and the target, each particle is disposed of exactly once. */
  lemma EachParticleOnce(w: Scene, o: Octree, n: nat)
    requires WellFormed(o) && LeavesPartition(o, n) && Covers(w, o)
    ensures EachOnce(ExpandAll(TreeItems(w, TreeAt(o, 0))), n)
  {
    TreeIdsCovered(o, 0);
    TreeExpands(w, TreeAt(o, 0), |o.nodes|);
    RootHoldsEachOnce(o, n);
  }

  // ----- what single items can be

  /** An item that this traversal may produce: points are not the target, own positions are,
      whole nodes have passed their test. */
  ghost predicate Sound(w: Scene, item: Item, n: nat)
    requires SceneCovers(w, n)
  {
    match item
    case Point(s) => s != w.target
    case Self(s) => s == w.target
    case Cluster(t) => t.Node? && IdsCovered(t, n)
                       && w.moments[t.id].mass != 0.0
                       && Accepts(w.gravity, w.cubes[t.id], w.moments[t.id], TargetPosition(w))
    case Massless(t) => t.Node? && IdsCovered(t, n) && w.moments[t.id].mass == 0.0
  }

  ghost predicate AllSound(w: Scene, items: seq<Item>, n: nat)
    requires SceneCovers(w, n)
  {
    forall i :: 0 <= i < |items| ==> Sound(w, items[i], n)
  }

  lemma {:induction false} LeafItemsSound(w: Scene, first: nat, count: nat, n: nat)
    requires SceneCovers(w, n)
    ensures AllSound(w, LeafItems(w, first, count), n)
  {
    if count > 0 {
      LeafItemsSound(w, first, count - 1, n);
    }
  }

  lemma {:induction false} TreeItemsSound(w: Scene, t: Tree, n: nat)
    requires SceneCovers(w, n) && IdsCovered(t, n)
    ensures AllSound(w, TreeItems(w, t), n)
  {
    if t.Leaf? {
      LeafItemsSound(w, t.first, t.count, n);
    } else {
      ForestItemsSound(w, t.kids, n);
    }
  }

  lemma {:induction false} ForestItemsSound(w: Scene, f: Forest, n: nat)
    requires SceneCovers(w, n) && ForestIdsCovered(f, n)
    ensures AllSound(w, ForestItems(w, f), n)
  {
    if f.More? {
      TreeItemsSound(w, f.tree, n);
      ForestItemsSound(w, f.rest, n);
    }
  }

  // ----- the target is never absorbed

  /** Every body lies in the cube of every node above it. */
  ghost predicate Housed(w: Scene, t: Tree, n: nat)
    requires SceneCovers(w, n) && IdsCovered(t, n)
    decreases t
  {
    && (forall s :: s in Members(t) && s < |w.bodies| ==> Contains(w.cubes[t.id], w.bodies[s].position))
    && (t.Node? ==> ForestHoused(w, t.kids, n))
  }

  ghost predicate ForestHoused(w: Scene, f: Forest, n: nat)
    requires SceneCovers(w, n) && ForestIdsCovered(f, n)
    decreases f
  {
    f.More? ==> Housed(w, f.tree, n) && ForestHoused(w, f.rest, n)
  }

  ghost predicate NoneAbsorbs(w: Scene, items: seq<Item>)
  {
    forall i :: 0 <= i < |items| && items[i].Cluster? ==> w.target !in Members(items[i].tree)
  }

  lemma {:induction false} TreeNeverAbsorbs(w: Scene, t: Tree, n: nat)
    requires SceneCovers(w, n) && IdsCovered(t, n) && Housed(w, t, n)
    ensures NoneAbsorbs(w, TreeItems(w, t))
  {
    if t.Leaf? {
      LeafItemsSound(w, t.first, t.count, n);
      LeafHasNoClusters(w, t.first, t.count);
    } else {
      ForestNeverAbsorbs(w, t.kids, n);
    }
  }

  lemma {:induction false} LeafHasNoClusters(w: Scene, first: nat, count: nat)
    ensures |LeafItems(w, first, count)| == count
    ensures forall i :: 0 <= i < count ==>
              LeafItems(w, first, count)[i].Point? || LeafItems(w, first, count)[i].Self?
  {
    if count > 0 {
      LeafHasNoClusters(w, first, count - 1);
    }
  }

  lemma {:induction false} ForestNeverAbsorbs(w: Scene, f: Forest, n: nat)
    requires SceneCovers(w, n) && ForestIdsCovered(f, n) && ForestHoused(w, f, n)
    ensures NoneAbsorbs(w, ForestItems(w, f))
  {
    if f.More? {
      TreeNeverAbsorbs(w, f.tree, n);
      ForestNeverAbsorbs(w, f.rest, n);
    }
  }

  // ----- all of the other mass is evaluated

  function MassOf(bodies: seq<Body>, positions: seq<nat>): real
  {
    if positions == [] then 0.0
    else MassOf(bodies, positions[..|positions| - 1]) + MassAt(bodies, positions[|positions| - 1])
  }

  function MassAt(bodies: seq<Body>, s: nat): real
  {
    if s < |bodies| then bodies[s].mass else 0.0
  }

  lemma {:induction false} MassOfConcat(bodies: seq<Body>, a: seq<nat>, b: seq<nat>)
    ensures MassOf(bodies, a + b) == MassOf(bodies, a) + MassOf(bodies, b)
  {
    if b == [] {
      assert a + b == a;
    } else {
      MassOfConcat(bodies, a, b[..|b| - 1]);
      assert (a + b)[..|a + b| - 1] == a + b[..|b| - 1];
    }
  }

  /** The mass that the items evaluate. */
  function EvaluatedMass(w: Scene, items: seq<Item>): real
  {
    if items == [] then 0.0
    else EvaluatedMass(w, items[..|items| - 1]) + Source(w, items[|items| - 1]).mass
  }

  /** Node masses are the masses below the node, and no mass is negative. */
  ghost predicate WeighedTree(w: Scene, t: Tree)
  {
    && t.id < |w.moments| && w.moments[t.id].mass == MassOf(w.bodies, Members(t))
  }

  ghost predicate Weighed(w: Scene, items: seq<Item>)
  {
    && (forall s :: 0 <= s < |w.bodies| ==> w.bodies[s].mass >= 0.0)
    && (forall i :: 0 <= i < |items| && (items[i].Cluster? || items[i].Massless?) ==> WeighedTree(w, items[i].tree))
  }

  function MassWithoutTarget(w: Scene, positions: seq<nat>): real
  {
    if positions == [] then 0.0
    else MassWithoutTarget(w, positions[..|positions| - 1])
         + (if positions[|positions| - 1] == w.target then 0.0 else MassAt(w.bodies, positions[|positions| - 1]))
  }

  lemma {:induction false} MassWithoutTargetConcat(w: Scene, a: seq<nat>, b: seq<nat>)
    ensures MassWithoutTarget(w, a + b) == MassWithoutTarget(w, a) + MassWithoutTarget(w, b)
  {
    if b == [] {
      assert a + b == a;
    } else {
      MassWithoutTargetConcat(w, a, b[..|b| - 1]);
      assert (a + b)[..|a + b| - 1] == a + b[..|b| - 1];
    }
  }

  lemma {:induction false} MassWithoutAbsentTarget(w: Scene, positions: seq<nat>)
    requires w.target !in positions
    ensures MassWithoutTarget(w, positions) == MassOf(w.bodies, positions)
  {
    if positions != [] {
      MassWithoutAbsentTarget(w, positions[..|positions| - 1]);
    }
  }

  lemma {:induction false} NonNegativeMass(w: Scene, positions: seq<nat>)
    requires forall s :: 0 <= s < |w.bodies| ==> w.bodies[s].mass >= 0.0
    ensures 0.0 <= MassWithoutTarget(w, positions) <= MassOf(w.bodies, positions)
  {
    if positions != [] {
      NonNegativeMass(w, positions[..|positions| - 1]);
    }
  }

  /** One item evaluates the mass of the positions it disposes of, the target's left out. */
  lemma MassOfItem(w: Scene, item: Item, n: nat)
    requires SceneCovers(w, n) && Sound(w, item, n)
    requires forall s :: 0 <= s < |w.bodies| ==> w.bodies[s].mass >= 0.0
    requires item.Cluster? ==> w.target !in Members(item.tree)
    requires item.Cluster? || item.Massless? ==> WeighedTree(w, item.tree)
    ensures Source(w, item).mass == MassWithoutTarget(w, Expand(item))
  {
    match item
    case Point(s) => assert [s][..0] == [];
    case Self(s) => assert [s][..0] == [];
    case Cluster(t) => MassWithoutAbsentTarget(w, Members(t));
    case Massless(t) => NonNegativeMass(w, Members(t));
  }

  lemma {:induction false} MassOfItems(w: Scene, items: seq<Item>, n: nat)
    requires SceneCovers(w, n) && AllSound(w, items, n) && NoneAbsorbs(w, items) && Weighed(w, items)
    ensures EvaluatedMass(w, items) == MassWithoutTarget(w, ExpandAll(items))
  {
    if items != [] {
      var front, last := items[..|items| - 1], items[|items| - 1];
      MassOfItems(w, front, n);
      MassOfItem(w, last, n);
      MassWithoutTargetConcat(w, ExpandAll(front), Expand(last));
    }
  }

  lemma CountSnoc(s: nat, front: seq<nat>, last: nat)
    ensures Count(s, front + [last]) == Count(s, front) + if last == s then 1 else 0
  {
  }

  /** So many times the mass. */
  function Times(n: nat, mass: real): real
  {
    if n == 0 then 0.0 else Times(n - 1, mass) + mass
  }

  lemma {:induction false} MassSplitsAtTarget(w: Scene, positions: seq<nat>)
    ensures MassOf(w.bodies, positions)
            == MassWithoutTarget(w, positions) + Times(Count(w.target, positions), MassAt(w.bodies, w.target))
  {
    if positions != [] {
      var front, last := positions[..|positions| - 1], positions[|positions| - 1];
      assert positions == front + [last];
      MassSplitsAtTarget(w, front);
      CountSnoc(w.target, front, last);
    }
  }

  lemma {:induction false} MassOfPermutation(bodies: seq<Body>, a: seq<nat>, b: seq<nat>)
    requires multiset(a) == multiset(b)
    ensures MassOf(bodies, a) == MassOf(bodies, b)
    decreases |a|
  {
    if a == [] {
      assert |multiset(b)| == |b|;
    } else {
      var front, x := a[..|a| - 1], a[|a| - 1];
      assert a == front + [x];
      assert x in multiset(b);
      var j :| 0 <= j < |b| && b[j] == x;
      var left, right := b[..j], b[j + 1..];
      assert b == left + [x] + right;
      WithoutOne(front, x, left, right);
      MassOfPermutation(bodies, front, left + right);
      MassOfConcat(bodies, left + [x], right);
      MassOfConcat(bodies, left, [x]);
      MassOfConcat(bodies, front, [x]);
      MassOfConcat(bodies, left, right);
    }
  }

  /** Taking one occurrence of x out of both leaves permutations of each other. */
  lemma WithoutOne(front: seq<nat>, x: nat, left: seq<nat>, right: seq<nat>)
    requires multiset(front + [x]) == multiset(left + [x] + right)
    ensures multiset(front) == multiset(left + right)
  {
    assert multiset(front) == multiset(front + [x]) - multiset{x};
    assert multiset(left + right) == multiset(left + [x] + right) - multiset{x};
  }

  // ----- from facts about every node of the arrays

  ghost predicate IsTreeAt(o: Octree, t: Tree)
    requires WellFormed(o)
  {
    IsId(o, t.id) && t == TreeAt(o, t.id)
  }

  ghost predicate ItemTreesAt(o: Octree, items: seq<Item>)
    requires WellFormed(o)
  {
    forall i :: 0 <= i < |items| && (items[i].Cluster? || items[i].Massless?) ==> IsTreeAt(o, items[i].tree)
  }

  lemma {:induction false} TreeItemTrees(w: Scene, o: Octree, id: nat)
    requires WellFormed(o) && IsId(o, id)
    ensures ItemTreesAt(o, TreeItems(w, TreeAt(o, id)))
    decreases MAX_LEVEL - o.nodes[id].level, 9
  {
    if o.nodes[id].particleCount > 0 {
      LeafHasNoClusters(w, o.nodes[id].firstParticle, o.nodes[id].particleCount);
    } else {
      KidsItemTrees(w, o, id, 8);
    }
  }

  lemma {:induction false} KidsItemTrees(w: Scene, o: Octree, id: nat, k: nat)
    requires WellFormed(o) && IsId(o, id) && k <= 8
    ensures ItemTreesAt(o, ForestItems(w, Kids(o, id, k)))
    decreases MAX_LEVEL - o.nodes[id].level, k
  {
    if k > 0 {
      assert ChildLinked(o, id, k - 1);
      KidsItemTrees(w, o, id, k - 1);
      if Child(o, id, k - 1) != -1 {
        assert o.nodes[Child(o, id, k - 1)].level <= MAX_LEVEL;
        TreeItemTrees(w, o, Child(o, id, k - 1));
      }
    }
  }

  /** Node data as the earlier stages leave it: node masses are sums over the particles below,
      particles lie in the cubes of all nodes above them, and no mass is negative. */
  ghost predicate PhysicalScene(w: Scene, o: Octree)
  {
    && WellFormed(o) && Covers(w, o) && LeavesPartition(o, |w.bodies|)
    && (forall s :: 0 <= s < |w.bodies| ==> w.bodies[s].mass >= 0.0)
    && (forall id :: 0 <= id < |o.nodes| ==> WeighedTree(w, TreeAt(o, id)))
    && (forall id :: 0 <= id < |o.nodes| ==> HousesMembers(w, o, id))
  }

  ghost predicate HousesMembers(w: Scene, o: Octree, id: nat)
    requires WellFormed(o) && Covers(w, o) && IsId(o, id)
  {
    forall s :: s in Members(TreeAt(o, id)) && s < |w.bodies| ==> Contains(w.cubes[id], w.bodies[s].position)
  }

  lemma {:induction false} TreeIsHoused(w: Scene, o: Octree, id: nat)
    requires WellFormed(o) && Covers(w, o) && IsId(o, id)
    requires forall n :: 0 <= n < |o.nodes| ==> HousesMembers(w, o, n)
    ensures IdsCovered(TreeAt(o, id), |o.nodes|) && Housed(w, TreeAt(o, id), |o.nodes|)
    decreases MAX_LEVEL - o.nodes[id].level, 9
  {
    TreeIdsCovered(o, id);
    assert HousesMembers(w, o, id);
    if o.nodes[id].particleCount == 0 {
      KidsAreHoused(w, o, id, 8);
    }
  }

  lemma {:induction false} KidsAreHoused(w: Scene, o: Octree, id: nat, k: nat)
    requires WellFormed(o) && Covers(w, o) && IsId(o, id) && k <= 8
    requires forall n :: 0 <= n < |o.nodes| ==> HousesMembers(w, o, n)
    ensures ForestIdsCovered(Kids(o, id, k), |o.nodes|) && ForestHoused(w, Kids(o, id, k), |o.nodes|)
    decreases MAX_LEVEL - o.nodes[id].level, k
  {
    KidsIdsCovered(o, id, k);
    if k > 0 {
      assert ChildLinked(o, id, k - 1);
      KidsAreHoused(w, o, id, k - 1);
      if Child(o, id, k - 1) != -1 {
        assert o.nodes[Child(o, id, k - 1)].level <= MAX_LEVEL;
        TreeIsHoused(w, o, Child(o, id, k - 1));
      }
    }
  }

  lemma ItemsAreWeighed(w: Scene, o: Octree)
    requires PhysicalScene(w, o)
    ensures Weighed(w, TreeItems(w, TreeAt(o, 0)))
  {
    TreeItemTrees(w, o, 0);
    var items := TreeItems(w, TreeAt(o, 0));
    forall i | 0 <= i < |items| && (items[i].Cluster? || items[i].Massless?)
      ensures WeighedTree(w, items[i].tree)
    {
      assert IsTreeAt(o, items[i].tree);
    }
  }

  /** The target is never part of a node that is evaluated as a point mass. */
  lemma TargetIsNeverAbsorbed(w: Scene, o: Octree)
    requires PhysicalScene(w, o)
    ensures NoneAbsorbs(w, TreeItems(w, TreeAt(o, 0)))
  {
    TreeIsHoused(w, o, 0);
    TreeNeverAbsorbs(w, TreeAt(o, 0), |o.nodes|);
  }

  lemma RootMassWithoutTarget(w: Scene, o: Octree)
    requires PhysicalScene(w, o)
    ensures MassWithoutTarget(w, Members(TreeAt(o, 0))) == w.moments[0].mass - w.bodies[w.target].mass
  {
    MassSplitsAtTarget(w, Members(TreeAt(o, 0)));
    RootHoldsEachOnce(o, |w.bodies|);
    assert Count(w.target, Members(TreeAt(o, 0))) == 1;
    assert WeighedTree(w, TreeAt(o, 0));
  }

  lemma EvaluatedMassIsExpandedMass(w: Scene, o: Octree)
    requires PhysicalScene(w, o)
    ensures EvaluatedMass(w, TreeItems(w, TreeAt(o, 0)))
            == MassWithoutTarget(w, ExpandAll(TreeItems(w, TreeAt(o, 0))))
  {
    TreeIdsCovered(o, 0);
    TreeItemsSound(w, TreeAt(o, 0), |o.nodes|);
    TargetIsNeverAbsorbed(w, o);
    ItemsAreWeighed(w, o);
    MassOfItems(w, TreeItems(w, TreeAt(o, 0)), |o.nodes|);
  }

  /** For every opening angle and target the evaluated mass is the mass of the root without
      the target's. */
  lemma EvaluatedMassIsOtherMass(w: Scene, o: Octree)
    requires PhysicalScene(w, o)
    ensures EvaluatedMass(w, TreeItems(w, TreeAt(o, 0))) == w.moments[0].mass - w.bodies[w.target].mass
  {
    EvaluatedMassIsExpandedMass(w, o);
    TreeIdsCovered(o, 0);
    TreeExpands(w, TreeAt(o, 0), |o.nodes|);
    RootMassWithoutTarget(w, o);
  }
}
