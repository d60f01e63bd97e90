/** What the accelerations of the whole pipeline are, as statements about the particles alone. */
module Forces {
  import opened OctreeBuilder
  import opened Forests
  import opened Vectors
  import opened Coverage
  import opened BarnesHut
  import opened DirectSum
  import opened Accounting
  import opened Accelerations
  import opened Moments
  import opened OctreeGeometry
  import opened SpatialStructure
  import opened Pipeline

  // ----- opening angle zero

  /** The direct sum over all other particles, in their original order. */
  function DirectSumOn(gravity: Gravity, data: seq<Body>, i: nat): Vec
    requires i < |data|
  {
    AllPairs(Scene(gravity, data, [], [], i))
  }

  lemma {:induction false} SumNeedsNoTree(w: Scene, v: Scene, positions: seq<nat>)
    requires w.bodies == v.bodies && w.gravity == v.gravity && w.target == v.target < |w.bodies|
    ensures PullSum(w, positions) == PullSum(v, positions)
  {
    if positions != [] {
      SumNeedsNoTree(w, v, positions[..|positions| - 1]);
    }
  }

  /** With opening angle zero every particle's acceleration is the direct sum. */
  lemma ZeroAngleIsDirectSum(gravity: Gravity, data: seq<Body>, i: nat)
    requires Populated(data) && NoNegativeMass(data) && gravity.theta <= 0.0 && i < |data|
    ensures AccelerationOf(gravity, data)[i] == DirectSumOn(gravity, data, i)
  {
    var x, s := StructureOf(data), PositionOf(data, i);
    StructureIsSound(data);
    SceneIsPhysical(gravity, data, s);
    SortedKeysAreKeys(data);
    ZeroAngleForce(x, data, gravity, s);
    SumNeedsNoTree(Scene(gravity, data, x.moments, x.cubes, i), Scene(gravity, data, [], [], i), Positions(0, |data|));
  }

  // ----- any opening angle

  ghost function ItemsOn(gravity: Gravity, data: seq<Body>, target: nat): seq<Item>
    requires Populated(data)
  {
    OctreeIsGood(data);
    TreeItems(SceneFor(gravity, data, target), TreeAt(OctreeOfBodies(data), 0))
  }

  /** Whatever the opening angle, the traversal for any target disposes of every particle
      exactly once, never absorbs the target, and evaluates the mass of all other particles. */
  lemma TraversalAccountsForAll(gravity: Gravity, data: seq<Body>, target: nat)
    requires Populated(data) && NoNegativeMass(data) && target < |data|
    ensures var w, items := SceneFor(gravity, data, target), ItemsOn(gravity, data, target);
            && EachOnce(ExpandAll(items), |data|)
            && NoneAbsorbs(w, items)
            && EvaluatedMass(w, items) == MassOf(Sources(data), Positions(0, |data|)) - Sources(data)[target].mass
  {
    var w, o := SceneFor(gravity, data, target), OctreeOfBodies(data);
    SceneIsPhysical(gravity, data, target);
    EachParticleOnce(w, o, |data|);
    TargetIsNeverAbsorbed(w, o);
    EvaluatedMassIsOtherMass(w, o);
    RootHoldsEachOnce(o, |data|);
    OnceEachIsPermutation(Members(TreeAt(o, 0)), |data|);
    MassOfPermutation(Sources(data), Members(TreeAt(o, 0)), Positions(0, |data|));
    assert WeighedTree(w, TreeAt(o, 0));
  }

  /** The centre of mass of every node that has mass lies inside the node's own cube. */
  lemma CentersOfMassLieInTheirCubes(data: seq<Body>, id: nat)
    requires Populated(data) && NoNegativeMass(data) && id < |StructureOf(data).octree.nodes|
    ensures |StructureOf(data).moments| == |StructureOf(data).cubes| == |StructureOf(data).octree.nodes|
    ensures StructureOf(data).moments[id].mass > 0.0 ==>
              Contains(StructureOf(data).cubes[id], StructureOf(data).moments[id].center)
  {
    var x, o := StructureOf(data), OctreeOfBodies(data);
    OctreeIsGood(data);
    SourcesHaveMass(data);
    forall s | s in Members(TreeAt(o, id)) && s < |Sources(data)|
      ensures Contains(NodeCube(Root(data), o.nodes[id]), Sources(data)[s].position)
    {
      MemberInCube(data, id, s);
    }
    if x.moments[id].mass > 0.0 {
      CenterOfMassInCube(Sources(data), TreeAt(o, id), NodeCube(Root(data), o.nodes[id]));
    }
  }

  // ----- when the evaluation fails

  /** Two particles in one place, the second with mass, and no softening to keep them apart. */
  ghost predicate Coincide(gravity: Gravity, data: seq<Body>, i: nat, j: nat)
  {
    && i < |data| && j < |data| && i != j
    && gravity.softeningSquared <= 0.0 && data[i].position == data[j].position && data[j].mass != 0.0
  }

  lemma ProductOfPositive(a: real, b: real, product: real)
    requires a > 0.0 && b > 0.0 && product == a * b
    ensures product > 0.0
  {
  }

  lemma ProductOfNegative(a: real, b: real, product: real)
    requires a < 0.0 && b < 0.0 && product == a * b
    ensures product > 0.0
  {
  }

  lemma ProductOfZero(a: real, b: real, product: real)
    requires a == 0.0 && product == a * b
    ensures product == 0.0
  {
  }

  lemma SameSigns(r: real, s: real, product: real)
    requires product == r * s && s == r
    ensures product >= 0.0 && (product == 0.0 <==> r == 0.0)
  {
    if r > 0.0 {
      ProductOfPositive(r, s, product);
    } else if r < 0.0 {
      ProductOfNegative(r, s, product);
    } else {
      ProductOfZero(r, s, product);
    }
  }

  lemma SumOfSquares(x: real, y: real, z: real, xx: real, yy: real, zz: real)
    requires xx == x * x && yy == y * y && zz == z * z
    ensures xx + yy + zz >= 0.0
    ensures xx + yy + zz <= 0.0 <==> x == 0.0 && y == 0.0 && z == 0.0
  {
    SameSigns(x, x, xx);
    SameSigns(y, y, yy);
    SameSigns(z, z, zz);
  }

  /** Only a point itself is at distance zero. */
  lemma DistanceZero(a: Vec, b: Vec)
    ensures SquaredNorm(Sub(a, b)) >= 0.0
    ensures SquaredNorm(Sub(a, b)) <= 0.0 <==> a == b
  {
    var d := Sub(a, b);
    SumOfSquares(d.x, d.y, d.z, d.x * d.x, d.y * d.y, d.z * d.z);
    assert SquaredNorm(d) <= 0.0 <==> d.x == 0.0 && d.y == 0.0 && d.z == 0.0;
  }

  /** A source is singular exactly when it coincides with the target and nothing softens it. */
  lemma SingularIsCoincident(p: Gravity, target: Vec, source: Body)
    requires p.softeningSquared >= 0.0
    ensures Singular(p, target, source)
            <==> source.mass != 0.0 && p.softeningSquared <= 0.0 && source.position == target
  {
    DistanceZero(source.position, target);
  }

  /** No node accepted as a point mass is singular: the acceptance test keeps it at a distance. */
  lemma SingularIsPoint(w: Scene, item: Item, n: nat)
    requires SceneCovers(w, n) && Sound(w, item, n) && w.gravity.softeningSquared >= 0.0
    requires Singular(w.gravity, TargetPosition(w), Source(w, item))
    ensures item.Point? && item.position < |w.bodies|
  {
  }

  lemma PhysicalItemsAreSound(w: Scene, o: Octree)
    requires PhysicalScene(w, o)
    ensures SceneCovers(w, |o.nodes|) && AllSound(w, TreeItems(w, TreeAt(o, 0)), |o.nodes|)
  {
    TreeIdsCovered(o, 0);
    TreeItemsSound(w, TreeAt(o, 0), |o.nodes|);
  }

  lemma FailureIsCoincidence(gravity: Gravity, data: seq<Body>, s: nat) returns (t: nat)
    requires Populated(data) && NoNegativeMass(data) && s < |data| && gravity.softeningSquared >= 0.0
    requires AnySingular(SceneFor(gravity, data, s), ItemsOn(gravity, data, s))
    ensures t < |data| && Coincide(gravity, Sources(data), s, t)
  {
    var w, o, items := SceneFor(gravity, data, s), OctreeOfBodies(data), ItemsOn(gravity, data, s);
    SceneIsPhysical(gravity, data, s);
    PhysicalItemsAreSound(w, o);
    var k :| 0 <= k < |items| && Singular(w.gravity, TargetPosition(w), Source(w, items[k]));
    assert Sound(w, items[k], |o.nodes|);
    SingularIsPoint(w, items[k], |o.nodes|);
    SingularIsCoincident(gravity, TargetPosition(w), Source(w, items[k]));
    t := items[k].position;
  }

  lemma {:induction false} ItemHolding(items: seq<Item>, s: nat) returns (k: nat)
    requires s in ExpandAll(items)
    ensures k < |items| && s in Expand(items[k])
  {
    if s in Expand(items[|items| - 1]) {
      k := |items| - 1;
    } else {
      k := ItemHolding(items[..|items| - 1], s);
    }
  }

  /** A node that holds a particle in the target's place contains the target. */
  lemma NodeContainsTarget(w: Scene, o: Octree, id: nat, t: nat)
    requires PhysicalScene(w, o) && IsId(o, id) && t in Members(TreeAt(o, id))
    requires t < |w.bodies| && w.bodies[t].position == TargetPosition(w)
    ensures Contains(w.cubes[id], TargetPosition(w))
  {
    assert HousesMembers(w, o, id);
  }

  lemma NodeHasMass(w: Scene, o: Octree, id: nat, t: nat)
    requires PhysicalScene(w, o) && IsId(o, id) && t in Members(TreeAt(o, id))
    requires t < |w.bodies| && w.bodies[t].mass != 0.0
    ensures w.moments[id].mass != 0.0
  {
    assert WeighedTree(w, TreeAt(o, id));
    if w.moments[id].mass == 0.0 {
      NoMassInMassless(w.bodies, Members(TreeAt(o, id)), t);
    }
  }

  /** The item that disposes of a massive particle in the target's own place evaluates it by
      itself: its node is neither far away nor without mass. */
  lemma CoincidentIsPoint(w: Scene, o: Octree, item: Item, t: nat)
    requires PhysicalScene(w, o) && SceneCovers(w, |o.nodes|) && Sound(w, item, |o.nodes|)
    requires item.Cluster? || item.Massless? ==> IsTreeAt(o, item.tree)
    requires t in Expand(item) && t < |w.bodies| && t != w.target
    requires w.bodies[t].position == TargetPosition(w) && w.bodies[t].mass != 0.0
    ensures item == Point(t)
  {
    if item.Cluster? || item.Massless? {
      NodeContainsTarget(w, o, item.tree.id, t);
      NodeHasMass(w, o, item.tree.id, t);
    }
  }

  lemma CoincidenceIsFailure(gravity: Gravity, data: seq<Body>, s: nat, t: nat)
    requires Populated(data) && NoNegativeMass(data) && s < |data| && gravity.softeningSquared >= 0.0
    requires Coincide(gravity, Sources(data), s, t)
    ensures AnySingular(SceneFor(gravity, data, s), ItemsOn(gravity, data, s))
  {
    var w, o, items := SceneFor(gravity, data, s), OctreeOfBodies(data), ItemsOn(gravity, data, s);
    SceneIsPhysical(gravity, data, s);
    PhysicalItemsAreSound(w, o);
    EachParticleOnce(w, o, |data|);
    assert Count(t, ExpandAll(items)) == 1;
    var k := ItemHolding(items, t);
    TreeItemTrees(w, o, 0);
    assert Sound(w, items[k], |o.nodes|);
    CoincidentIsPoint(w, o, items[k], t);
    SingularIsCoincident(gravity, TargetPosition(w), Source(w, items[k]));
  }

  lemma CoincidenceInOrder(gravity: Gravity, data: seq<Body>, s: nat, t: nat)
    requires s < |data| && t < |data|
    ensures Order(data)[s] < |data| && Order(data)[t] < |data|
    ensures Coincide(gravity, Sources(data), s, t) <==> Coincide(gravity, data, Order(data)[s], Order(data)[t])
  {
    SortedKeysAreKeys(data);
    assert Order(data)[s] == Order(data)[t] <==> s == t;
  }

  /** The evaluation fails exactly when, without softening, some particle shares its place with
      another one that has mass; the opening angle has no influence on this. */
  lemma FailsExactlyOnCoincidence(gravity: Gravity, data: seq<Body>)
    requires Populated(data) && NoNegativeMass(data) && gravity.softeningSquared >= 0.0
    ensures Fails(gravity, data) <==> exists i: nat, j: nat :: Coincide(gravity, data, i, j)
  {
    StructureIsSound(data);
    if Fails(gravity, data) {
      var s: nat :| s < |data| && FailsAt(StructureOf(data), Sources(data), gravity, s);
      var t := FailureIsCoincidence(gravity, data, s);
      CoincidenceInOrder(gravity, data, s, t);
    }
    if i: nat, j: nat :| Coincide(gravity, data, i, j) {
      var s, t := PositionOf(data, i), PositionOf(data, j);
      CoincidenceInOrder(gravity, data, s, t);
      CoincidenceIsFailure(gravity, data, s, t);
      assert FailsAt(StructureOf(data), Sources(data), gravity, s);
    }
  }
}
