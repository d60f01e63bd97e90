/** The accelerations of the whole pipeline follow Newton's law: with opening angle zero every
    particle pulls every other one, and for any opening angle they pull in groups that are small
    or far away. The spatial structure houses and weighs the particles where they are. */
module Gravitation {
  import opened OctreeBuilder
  import opened OctreeTrees
  import opened Forests
  import opened Vectors
  import opened Coverage
  import opened BarnesHut
  import opened DirectSum
  import opened Accounting
  import opened Accelerations
  import opened Moments
  import opened OctreeGeometry
  import opened SpatialStructure
  import opened Pipeline
  import opened Forces
  import opened FarField
  import opened Conservation
  import opened Newton

  // ----- the strength of one pull

  /** Makes the inverse distance of a squared distance available. */
  predicate UseSquare(r: real)
  {
    true
  }

  /** The inverse distance is one, on all positive squared distances. */
  ghost predicate IsInverseDistance(f: real -> real)
  {
    forall r: real {:trigger UseSquare(r)} :: UseSquare(r) && r > 0.0 ==> f(r) > 0.0 && f(r) * f(r) * r == 1.0
  }

  function StrengthOf(p: Gravity, target: Vec, source: Body): real
  {
    if source.mass == 0.0 then 0.0
    else
      var inverse := p.inverseDistance(SoftenedSquare(source.position, target, p.softeningSquared));
      p.constant * source.mass * (inverse * inverse * inverse)
  }

  lemma PullHasStrength(p: Gravity, target: Vec, source: Body)
    ensures Pull(p, target, source) == PullTowards(StrengthOf(p, target, source), source.position, target)
  {
    var d := Sub(source.position, target);
    assert SquaredNorm(d) + p.softeningSquared == SoftenedSquare(source.position, target, p.softeningSquared);
    if source.mass == 0.0 {
      assert 0.0 * d.x == 0.0 && 0.0 * d.y == 0.0 && 0.0 * d.z == 0.0;
    }
  }

  lemma SignOfProduct(gm: real, cube: real, k: real)
    requires cube > 0.0 && k == gm * cube
    ensures (k > 0.0 <==> gm > 0.0) && (k < 0.0 <==> gm < 0.0)
  {
    if gm > 0.0 {
      ProductOfPositive(gm, cube, k);
    } else if gm < 0.0 {
      ProductOfPositive(-gm, cube, -k);
    }
  }

  lemma StrengthFrom(gm: real, inverse: real, r: real, k: real)
    requires inverse > 0.0 && inverse * inverse * r == 1.0 && k == gm * (inverse * inverse * inverse)
    ensures IsStrength(k, gm, r)
  {
    var square, cube := inverse * inverse, inverse * inverse * inverse;
    ProductOfPositive(inverse, inverse, square);
    ProductOfPositive(square, inverse, cube);
    SignOfProduct(gm, cube, k);
    FactorIsNewtonian(gm, inverse, r, k);
  }

  lemma NoMassNoStrength(constant: real, mass: real, r: real)
    requires mass == 0.0
    ensures IsStrength(0.0, constant * mass, r)
  {
    assert constant * mass == 0.0;
  }

  /** A pull that is not singular has the strength of Newton's law. */
  lemma StrengthIsNewtonian(p: Gravity, target: Vec, source: Body)
    requires IsInverseDistance(p.inverseDistance) && !Singular(p, target, source)
    ensures IsStrength(StrengthOf(p, target, source), p.constant * source.mass,
                       SoftenedSquare(source.position, target, p.softeningSquared))
  {
    var r := SoftenedSquare(source.position, target, p.softeningSquared);
    if source.mass == 0.0 {
      NoMassNoStrength(p.constant, source.mass, r);
    } else {
      assert SquaredNorm(Sub(source.position, target)) + p.softeningSquared == r;
      assert UseSquare(r);
      StrengthFrom(p.constant * source.mass, p.inverseDistance(r), r, StrengthOf(p, target, source));
    }
  }

  // ----- the direct sum

  /** The strengths of all particles on particle i. */
  function StrengthsOn(p: Gravity, mass: seq<real>, x: seq<Vec>, i: nat): (k: seq<real>)
    requires |x| == |mass| && i < |x|
    ensures |k| == |x|
  {
    seq(|x|, j requires 0 <= j < |x| => StrengthOf(p, x[i], Body(mass[j], x[j])))
  }

  lemma PullIsTowards(p: Gravity, mass: seq<real>, x: seq<Vec>, i: nat, j: nat)
    requires |x| == |mass| && i < |x| && j < |x|
    ensures PullOf(Scene(p, Bodies(mass, x), [], [], i), j) == PullTowards(StrengthsOn(p, mass, x, i)[j], x[j], x[i])
  {
    PullHasStrength(p, x[i], Body(mass[j], x[j]));
    if i == j {
      var k := StrengthsOn(p, mass, x, i)[j];
      assert k * 0.0 == 0.0;
    }
  }

  /** The sum of the first n vectors. */
  function Summed(terms: seq<Vec>, n: nat): Vec
    requires n <= |terms|
  {
    if n == 0 then ORIGIN else Add(Summed(terms, n - 1), terms[n - 1])
  }

  lemma {:induction false} PullSumIsSummed(w: Scene, terms: seq<Vec>, n: nat)
    requires w.target < |w.bodies| && n <= |terms| && forall j :: 0 <= j < |terms| ==> terms[j] == PullOf(w, j)
    ensures PullSum(w, Positions(0, n)) == Summed(terms, n)
    decreases n
  {
    if n > 0 {
      PullSumIsSummed(w, terms, n - 1);
      PullSumSnoc(w, Positions(0, n - 1), n - 1);
    }
  }

  lemma {:induction false} PullsOnIsSummed(k: seq<real>, x: seq<Vec>, i: nat, terms: seq<Vec>, n: nat)
    requires |k| == |x| == |terms| && i < |x| && n <= |x|
    requires forall j :: 0 <= j < |x| ==> terms[j] == PullTowards(k[j], x[j], x[i])
    ensures PullsOn(k, x, i, n) == Summed(terms, n)
    decreases n
  {
    if n > 0 {
      PullsOnIsSummed(k, x, i, terms, n - 1);
    }
  }

  lemma DirectSumIsPulls(p: Gravity, mass: seq<real>, x: seq<Vec>, i: nat)
    requires |x| == |mass| && i < |x|
    ensures DirectSumOn(p, Bodies(mass, x), i) == PullsOn(StrengthsOn(p, mass, x, i), x, i, |x|)
  {
    var w, k := Scene(p, Bodies(mass, x), [], [], i), StrengthsOn(p, mass, x, i);
    var terms := seq(|x|, j requires 0 <= j < |x| => PullTowards(k[j], x[j], x[i]));
    forall j | 0 <= j < |terms|
      ensures terms[j] == PullOf(w, j)
    {
      PullIsTowards(p, mass, x, i, j);
    }
    PullSumIsSummed(w, terms, |x|);
    PullsOnIsSummed(k, x, i, terms, |x|);
  }

  /** No two particles are singular for each other. */
  lemma ApartIsRegular(p: Gravity, mass: seq<real>, x: seq<Vec>, i: nat, j: nat)
    requires |x| == |mass| && i < |x| && j < |x| && i != j && p.softeningSquared >= 0.0
    requires p.softeningSquared > 0.0 || !SharePlace(mass, x)
    ensures !Singular(p, x[i], Body(mass[j], x[j]))
  {
    SingularIsCoincident(p, x[i], Body(mass[j], x[j]));
  }

  lemma StrengthsAreNewtonian(p: Gravity, mass: seq<real>, x: seq<Vec>, i: nat)
    requires |x| == |mass| && i < |x| && p.softeningSquared >= 0.0 && IsInverseDistance(p.inverseDistance)
    requires p.softeningSquared > 0.0 || !SharePlace(mass, x)
    ensures AreStrengths(StrengthsOn(p, mass, x, i), p.constant, p.softeningSquared, mass, x, i)
  {
    forall j | 0 <= j < |x| && j != i
      ensures IsStrength(StrengthsOn(p, mass, x, i)[j], p.constant * mass[j],
                         SoftenedSquare(x[j], x[i], p.softeningSquared))
    {
      ApartIsRegular(p, mass, x, i, j);
      StrengthIsNewtonian(p, x[i], Body(mass[j], x[j]));
    }
  }

  /** With opening angle zero every particle is pulled by all others. */
  lemma ZeroAngleIsNewtonian(p: Gravity, mass: seq<real>, x: seq<Vec>, i: nat)
    requires |x| == |mass| && i < |x| && Populated(Bodies(mass, x)) && NoNegativeMass(Bodies(mass, x))
    requires p.theta <= 0.0 && p.softeningSquared >= 0.0 && IsInverseDistance(p.inverseDistance)
    requires p.softeningSquared > 0.0 || !SharePlace(mass, x)
    ensures PulledByAll(AccelerationOf(p, Bodies(mass, x))[i], p.constant, p.softeningSquared, mass, x, i)
  {
    ZeroAngleIsDirectSum(p, Bodies(mass, x), i);
    DirectSumIsPulls(p, mass, x, i);
    StrengthsAreNewtonian(p, mass, x, i);
  }

  // ----- when positions can be evaluated

  lemma CoincidentShare(p: Gravity, mass: seq<real>, x: seq<Vec>)
    requires |x| == |mass| && p.softeningSquared >= 0.0
    ensures (exists i: nat, j: nat :: Coincide(p, Bodies(mass, x), i, j))
            <==> p.softeningSquared <= 0.0 && SharePlace(mass, x)
  {
    if i: nat, j: nat :| Coincide(p, Bodies(mass, x), i, j) {
      assert x[i] == x[j] && mass[j] != 0.0;
    }
    if p.softeningSquared <= 0.0 && SharePlace(mass, x) {
      var i, j :| 0 <= i < |x| && 0 <= j < |x| && i != j && x[i] == x[j] && mass[j] != 0.0;
      assert Coincide(p, Bodies(mass, x), i, j);
    }
  }

  /** Positions can be evaluated if something softens the forces or no massive particle shares its
      place with another. */
  lemma EvaluatesExactly(p: Gravity, mass: seq<real>, x: seq<Vec>)
    requires |x| == |mass| && Populated(Bodies(mass, x)) && NoNegativeMass(Bodies(mass, x))
    requires p.softeningSquared >= 0.0
    ensures Fails(p, Bodies(mass, x)) <==> p.softeningSquared <= 0.0 && SharePlace(mass, x)
  {
    FailsExactlyOnCoincidence(p, Bodies(mass, x));
    CoincidentShare(p, mass, x);
  }

  // ----- what the structure says of the particles

  /** The numbers of the particles at these sorted positions. */
  function Renamed(order: seq<nat>, positions: seq<nat>): (members: seq<nat>)
    ensures |members| == |positions|
  {
    seq(|positions|, n requires 0 <= n < |positions| =>
      if positions[n] < |order| then order[positions[n]] else |order|)
  }

  /** The bodies in sorted order are the particles. */
  ghost predicate Sorts(bodies: seq<Body>, order: seq<nat>, mass: seq<real>, x: seq<Vec>)
    requires |x| == |mass|
  {
    && |bodies| == |order| == |x| && IsOrder(order)
    && forall s :: 0 <= s < |order| ==> bodies[s] == Body(mass[order[s]], x[order[s]])
  }

  lemma RenamedSnoc(order: seq<nat>, positions: seq<nat>)
    requires positions != []
    ensures var n, members := |positions| - 1, Renamed(order, positions);
            && members[..n] == Renamed(order, positions[..n])
            && members[n] == if positions[n] < |order| then order[positions[n]] else |order|
  {
  }

  lemma {:induction false} MassIsRenamed(bodies: seq<Body>, order: seq<nat>, mass: seq<real>, x: seq<Vec>,
                                         positions: seq<nat>)
    requires |x| == |mass| && Sorts(bodies, order, mass, x)
    ensures MassOf(bodies, positions) == MassAmong(mass, Renamed(order, positions))
  {
    if positions != [] {
      MassIsRenamed(bodies, order, mass, x, positions[..|positions| - 1]);
      RenamedSnoc(order, positions);
    }
  }

  /** Mass times place at every sorted position. */
  function SortedWeights(bodies: seq<Body>): (weights: seq<Vec>)
    ensures |weights| == |bodies|
  {
    seq(|bodies|, s requires 0 <= s < |bodies| => WeightedAt(bodies, s))
  }

  lemma SumAmongSnoc(weights: seq<Vec>, members: seq<nat>, front: Vec, last: Vec)
    requires members != [] && front == SumAmong(weights, members[..|members| - 1])
    requires var j := members[|members| - 1]; last == if j < |weights| then weights[j] else ORIGIN
    ensures SumAmong(weights, members) == Add(front, last)
  {
  }

  lemma WeightAt(bodies: seq<Body>, s: nat)
    ensures WeightedAt(bodies, s) == if s < |SortedWeights(bodies)| then SortedWeights(bodies)[s] else ORIGIN
  {
  }

  lemma WeightedLast(bodies: seq<Body>, positions: seq<nat>)
    requires positions != []
    ensures WeightedOf(bodies, positions)
            == Add(WeightedOf(bodies, positions[..|positions| - 1]), WeightedAt(bodies, positions[|positions| - 1]))
  {
  }

  lemma {:induction false} WeightedIsSum(bodies: seq<Body>, positions: seq<nat>)
    ensures WeightedOf(bodies, positions) == SumAmong(SortedWeights(bodies), positions)
  {
    if positions != [] {
      var front, s := positions[..|positions| - 1], positions[|positions| - 1];
      calc {
        WeightedOf(bodies, positions);
        { WeightedLast(bodies, positions); WeightedIsSum(bodies, front); }
        Add(SumAmong(SortedWeights(bodies), front), WeightedAt(bodies, s));
        { WeightAt(bodies, s);
          SumAmongSnoc(SortedWeights(bodies), positions, SumAmong(SortedWeights(bodies), front),
                       WeightedAt(bodies, s)); }
        SumAmong(SortedWeights(bodies), positions);
      }
    }
  }

  /** The weights of the particles are the weights at their sorted positions. */
  ghost predicate SameWeights(sorted: seq<Vec>, order: seq<nat>, weights: seq<Vec>)
  {
    && |sorted| == |order| == |weights| && IsOrder(order)
    && forall s :: 0 <= s < |order| ==> sorted[s] == weights[order[s]]
  }

  lemma WeightsAreRenamed(bodies: seq<Body>, order: seq<nat>, mass: seq<real>, x: seq<Vec>)
    requires |x| == |mass| && Sorts(bodies, order, mass, x)
    ensures SameWeights(SortedWeights(bodies), order, Weights(mass, x))
  {
  }

  lemma {:induction false} SumIsRenamed(sorted: seq<Vec>, order: seq<nat>, weights: seq<Vec>, positions: seq<nat>)
    requires SameWeights(sorted, order, weights)
    ensures SumAmong(sorted, positions) == SumAmong(weights, Renamed(order, positions))
  {
    if positions != [] {
      SumIsRenamed(sorted, order, weights, positions[..|positions| - 1]);
      RenamedSnoc(order, positions);
    }
  }

  lemma MomentIsRenamed(bodies: seq<Body>, order: seq<nat>, mass: seq<real>, x: seq<Vec>, positions: seq<nat>)
    requires |x| == |mass| && Sorts(bodies, order, mass, x)
    ensures WeightedOf(bodies, positions) == SumAmong(Weights(mass, x), Renamed(order, positions))
  {
    WeightsAreRenamed(bodies, order, mass, x);
    WeightedIsSum(bodies, positions);
    SumIsRenamed(SortedWeights(bodies), order, Weights(mass, x), positions);
  }

  /** The moment of sorted positions weighs the particles there. */
  lemma MomentWeighs(m: Moment, bodies: seq<Body>, order: seq<nat>, mass: seq<real>, x: seq<Vec>, positions: seq<nat>)
    requires |x| == |mass| && Sorts(bodies, order, mass, x) && IsMomentOf(m, bodies, positions)
    ensures WeighsAs(m.mass, m.center, mass, x, Renamed(order, positions))
  {
    MassIsRenamed(bodies, order, mass, x, positions);
    MomentIsRenamed(bodies, order, mass, x, positions);
  }

  /** Every particle has one sorted position and lies in the cubes of all nodes above it. */
  ghost predicate Houses(y: Structure, x: seq<Vec>)
  {
    && WellFormed(y.octree) && IsOrder(y.order) && |y.order| == |x| && |y.cubes| == |y.octree.nodes|
    && EachOnce(Members(TreeAt(y.octree, 0)), |x|)
    && forall id :: 0 <= id < |y.octree.nodes| ==> NodeHouses(y, x, id)
  }

  ghost predicate NodeHouses(y: Structure, x: seq<Vec>, id: nat)
    requires WellFormed(y.octree) && IsOrder(y.order) && |y.order| == |x| && id < |y.cubes| == |y.octree.nodes|
  {
    forall s :: s in Members(TreeAt(y.octree, id)) ==> s < |x| && Contains(y.cubes[id], x[y.order[s]])
  }

  /** Every node weighs what lies below it, and a node without mass has its centre in the origin. */
  ghost predicate WeighsAll(y: Structure, mass: seq<real>, x: seq<Vec>)
    requires |x| == |mass|
  {
    && WellFormed(y.octree) && |y.moments| == |y.octree.nodes|
    && forall id :: 0 <= id < |y.octree.nodes| ==> NodeWeighs(y, mass, x, id)
  }

  ghost predicate NodeWeighs(y: Structure, mass: seq<real>, x: seq<Vec>, id: nat)
    requires |x| == |mass| && WellFormed(y.octree) && id < |y.moments| == |y.octree.nodes|
  {
    && WeighsAs(y.moments[id].mass, y.moments[id].center, mass, x, Renamed(y.order, Members(TreeAt(y.octree, id))))
    && (y.moments[id].mass == 0.0 ==> y.moments[id].center == Vec(0.0, 0.0, 0.0))
  }

  lemma SourcesAreSorted(mass: seq<real>, x: seq<Vec>)
    requires |x| == |mass| && Populated(Bodies(mass, x))
    ensures Sorts(Sources(Bodies(mass, x)), Order(Bodies(mass, x)), mass, x)
  {
    SortedKeysAreKeys(Bodies(mass, x));
  }

  lemma TreeMomentAtOrigin(bodies: seq<Body>, t: Tree)
    ensures TreeMoment(bodies, t).mass == 0.0 ==> TreeMoment(bodies, t).center == Vec(0.0, 0.0, 0.0)
  {
  }

  lemma StructureWeighs(mass: seq<real>, x: seq<Vec>, id: nat)
    requires |x| == |mass| && Populated(Bodies(mass, x)) && NoNegativeMass(Bodies(mass, x))
    requires id < |StructureOf(Bodies(mass, x)).octree.nodes|
    ensures WellFormed(StructureOf(Bodies(mass, x)).octree)
    ensures |StructureOf(Bodies(mass, x)).moments| == |StructureOf(Bodies(mass, x)).octree.nodes|
    ensures NodeWeighs(StructureOf(Bodies(mass, x)), mass, x, id)
  {
    var data := Bodies(mass, x);
    OctreeIsGood(data);
    SourcesHaveMass(data);
    SourcesAreSorted(mass, x);
    var t := TreeAt(OctreeOfBodies(data), id);
    TreeMomentIsMoment(Sources(data), t);
    TreeMomentAtOrigin(Sources(data), t);
    MomentWeighs(TreeMoment(Sources(data), t), Sources(data), Order(data), mass, x, Members(t));
  }

  lemma MemberIsHoused(mass: seq<real>, x: seq<Vec>, id: nat, s: nat)
    requires |x| == |mass| && Populated(Bodies(mass, x)) && WellFormed(OctreeOfBodies(Bodies(mass, x)))
    requires LeavesPartition(OctreeOfBodies(Bodies(mass, x)), |x|)
    requires id < |OctreeOfBodies(Bodies(mass, x)).nodes| && s in Members(TreeAt(OctreeOfBodies(Bodies(mass, x)), id))
    ensures s < |x| && Order(Bodies(mass, x))[s] < |x|
    ensures Contains(NodeCube(Root(Bodies(mass, x)), OctreeOfBodies(Bodies(mass, x)).nodes[id]),
                     x[Order(Bodies(mass, x))[s]])
  {
    var data := Bodies(mass, x);
    MembersAreInLeaves(OctreeOfBodies(data), id, s);
    SourcesAreSorted(mass, x);
    MemberInCube(data, id, s);
  }

  lemma StructureIsWhole(mass: seq<real>, x: seq<Vec>)
    requires |x| == |mass| && Populated(Bodies(mass, x))
    ensures var y := StructureOf(Bodies(mass, x));
            && WellFormed(y.octree) && IsOrder(y.order) && |y.order| == |x| && |y.cubes| == |y.octree.nodes|
            && EachOnce(Members(TreeAt(y.octree, 0)), |x|)
  {
    OctreeIsGood(Bodies(mass, x));
    SourcesAreSorted(mass, x);
    RootHoldsEachOnce(OctreeOfBodies(Bodies(mass, x)), |x|);
  }

  lemma NodeHousesMembers(mass: seq<real>, x: seq<Vec>, id: nat)
    requires |x| == |mass| && Populated(Bodies(mass, x)) && id < |StructureOf(Bodies(mass, x)).octree.nodes|
    ensures var y := StructureOf(Bodies(mass, x));
            && WellFormed(y.octree) && IsOrder(y.order) && |y.order| == |x| && |y.cubes| == |y.octree.nodes|
            && NodeHouses(y, x, id)
  {
    StructureIsWhole(mass, x);
    OctreeIsGood(Bodies(mass, x));
    forall s | s in Members(TreeAt(OctreeOfBodies(Bodies(mass, x)), id))
      ensures s < |x| && Order(Bodies(mass, x))[s] < |x|
      ensures Contains(NodeCube(Root(Bodies(mass, x)), OctreeOfBodies(Bodies(mass, x)).nodes[id]),
                       x[Order(Bodies(mass, x))[s]])
    {
      MemberIsHoused(mass, x, id, s);
    }
  }

  /** The structure that is built of the particles houses them. */
  lemma StructureHouses(mass: seq<real>, x: seq<Vec>)
    requires |x| == |mass| && Populated(Bodies(mass, x))
    ensures Houses(StructureOf(Bodies(mass, x)), x)
  {
    StructureIsWhole(mass, x);
    forall id | 0 <= id < |StructureOf(Bodies(mass, x)).octree.nodes|
      ensures NodeHouses(StructureOf(Bodies(mass, x)), x, id)
    {
      NodeHousesMembers(mass, x, id);
    }
  }

  /** And it weighs them. */
  lemma StructureWeighsAll(mass: seq<real>, x: seq<Vec>)
    requires |x| == |mass| && Populated(Bodies(mass, x)) && NoNegativeMass(Bodies(mass, x))
    ensures WeighsAll(StructureOf(Bodies(mass, x)), mass, x)
  {
    OctreeIsGood(Bodies(mass, x));
    forall id | 0 <= id < |StructureOf(Bodies(mass, x)).octree.nodes|
      ensures NodeWeighs(StructureOf(Bodies(mass, x)), mass, x, id)
    {
      StructureWeighs(mass, x, id);
    }
  }

  // ----- any opening angle: pulls in groups

  const NO_GROUP := Group([], 0.0, ORIGIN, Cube(ORIGIN, 0.0), 0.0)

  function NodeGroup(w: Scene, order: seq<nat>, t: Tree, strength: real): Group
  {
    if t.id < |w.moments| && t.id < |w.cubes|
    then Group(Renamed(order, Members(t)), w.moments[t.id].mass, w.moments[t.id].center, w.cubes[t.id], strength)
    else NO_GROUP
  }

  /** What an item of the traversal takes together; the target itself is left out. */
  function GroupOf(w: Scene, order: seq<nat>, item: Item): Group
    requires w.target < |w.bodies|
  {
    match item
    case Point(s) =>
      if s < |w.bodies|
      then Group(Renamed(order, [s]), w.bodies[s].mass, w.bodies[s].position, Cube(w.bodies[s].position, 0.0),
                 StrengthOf(w.gravity, TargetPosition(w), w.bodies[s]))
      else NO_GROUP
    case Self(_) => NO_GROUP
    case Cluster(t) => NodeGroup(w, order, t, StrengthOf(w.gravity, TargetPosition(w), Source(w, item)))
    case Massless(t) => NodeGroup(w, order, t, 0.0)
  }

  /** The scene of a target over a structure that houses and weighs the particles. */
  ghost predicate GoodScene(w: Scene, y: Structure, mass: seq<real>, x: seq<Vec>)
    requires |x| == |mass|
  {
    && Houses(y, x) && WeighsAll(y, mass, x) && LeavesPartition(y.octree, |x|)
    && w.moments == y.moments && w.cubes == y.cubes && w.target < |w.bodies| && Sorts(w.bodies, y.order, mass, x)
    && IsSquareRoot(w.gravity.squareRoot) && IsInverseDistance(w.gravity.inverseDistance)
  }

  ghost predicate IsGroupIn(w: Scene, y: Structure, mass: seq<real>, x: seq<Vec>, g: Group)
    requires |x| == |mass| && w.target < |y.order| && y.order[w.target] < |x|
  {
    IsGroup(g, w.gravity.constant, w.gravity.softeningSquared, w.gravity.theta, w.gravity.squareRoot, mass, x,
            y.order[w.target])
  }

  lemma OneMember(mass: seq<real>, x: seq<Vec>, j: nat)
    requires |x| == |mass| && j < |x|
    ensures WeighsAs(mass[j], x[j], mass, x, [j])
  {
    assert [j][..0] == [];
    assert Weights(mass, x)[j] == Vec(mass[j] * x[j].x, mass[j] * x[j].y, mass[j] * x[j].z);
  }

  lemma PointIsGroup(w: Scene, y: Structure, mass: seq<real>, x: seq<Vec>, s: nat)
    requires |x| == |mass| && GoodScene(w, y, mass, x) && s < |w.bodies| && s != w.target
    requires !Singular(w.gravity, TargetPosition(w), w.bodies[s])
    ensures IsGroupIn(w, y, mass, x, GroupOf(w, y.order, Point(s)))
  {
    var j, i := y.order[s], y.order[w.target];
    assert i != j && w.bodies[s] == Body(mass[j], x[j]) && TargetPosition(w) == x[i];
    assert Renamed(y.order, [s]) == [j];
    OneMember(mass, x, j);
    StrengthIsNewtonian(w.gravity, x[i], Body(mass[j], x[j]));
  }

  /** The members of a node are particles in its cube. */
  lemma NodeMember(y: Structure, x: seq<Vec>, id: nat, j: nat) returns (s: nat)
    requires Houses(y, x) && id < |y.octree.nodes| && j in Renamed(y.order, Members(TreeAt(y.octree, id)))
    ensures s in Members(TreeAt(y.octree, id)) && s < |x| && j == y.order[s] && j < |x| && Contains(y.cubes[id], x[j])
  {
    var positions := Members(TreeAt(y.octree, id));
    var n :| 0 <= n < |positions| && Renamed(y.order, positions)[n] == j;
    s := positions[n];
    assert NodeHouses(y, x, id);
  }

  lemma NodeStandsFor(y: Structure, mass: seq<real>, x: seq<Vec>, id: nat, g: Group)
    requires |x| == |mass| && Houses(y, x) && WeighsAll(y, mass, x) && id < |y.octree.nodes|
    requires g.members == Renamed(y.order, Members(TreeAt(y.octree, id))) && g.cube == y.cubes[id]
    requires g.mass == y.moments[id].mass && g.place == y.moments[id].center
    ensures StandsFor(g, mass, x) && (g.mass == 0.0 ==> g.place == ORIGIN)
  {
    assert NodeWeighs(y, mass, x, id);
    forall j | j in g.members
      ensures j < |x| && Contains(g.cube, x[j])
    {
      var s := NodeMember(y, x, id, j);
    }
  }

  lemma MasslessIsGroup(w: Scene, y: Structure, mass: seq<real>, x: seq<Vec>, t: Tree)
    requires |x| == |mass| && GoodScene(w, y, mass, x) && IsTreeAt(y.octree, t) && w.moments[t.id].mass == 0.0
    ensures IsGroupIn(w, y, mass, x, GroupOf(w, y.order, Massless(t)))
  {
    var g, i := GroupOf(w, y.order, Massless(t)), y.order[w.target];
    NodeStandsFor(y, mass, x, t.id, g);
    NoMassNoStrength(w.gravity.constant, g.mass, SoftenedSquare(g.place, x[i], w.gravity.softeningSquared));
  }

  lemma FarIsDistance(p: Gravity, a: Vec, b: Vec)
    ensures Far(p.squareRoot, a, b) == Distance(p, a, b)
  {
    assert SoftenedSquare(a, b, 0.0) == SquaredNorm(Sub(a, b));
  }

  lemma AcceptedLooksSmall(p: Gravity, g: Group, x: seq<Vec>, i: nat)
    requires IsSquareRoot(p.squareRoot) && i < |x| && i !in g.members
    requires Accepts(p, g.cube, Moment(g.mass, g.place), x[i])
    ensures LooksSmall(g, x, i, p.theta, p.squareRoot)
  {
    AcceptedNodeAppearsSmall(p, g.cube, Moment(g.mass, g.place), x[i]);
    FarIsDistance(p, g.place, x[i]);
    FarIsDistance(p, g.cube.center, x[i]);
  }

  lemma TargetIsNoMember(y: Structure, x: seq<Vec>, id: nat, target: nat)
    requires Houses(y, x) && id < |y.octree.nodes| && target < |x| && target !in Members(TreeAt(y.octree, id))
    ensures y.order[target] !in Renamed(y.order, Members(TreeAt(y.octree, id)))
  {
    if y.order[target] in Renamed(y.order, Members(TreeAt(y.octree, id))) {
      var s := NodeMember(y, x, id, y.order[target]);
      assert false;
    }
  }

  lemma ClusterIsSmall(w: Scene, y: Structure, mass: seq<real>, x: seq<Vec>, t: Tree, g: Group, i: nat)
    requires |x| == |mass| && GoodScene(w, y, mass, x) && IsTreeAt(y.octree, t) && w.target !in Members(t)
    requires Accepts(w.gravity, w.cubes[t.id], w.moments[t.id], TargetPosition(w))
    requires g == GroupOf(w, y.order, Cluster(t)) && i == y.order[w.target]
    ensures StandsFor(g, mass, x) && i !in g.members
    ensures LooksSmall(g, x, i, w.gravity.theta, w.gravity.squareRoot)
  {
    NodeStandsFor(y, mass, x, t.id, g);
    TargetIsNoMember(y, x, t.id, w.target);
    assert TargetPosition(w) == x[i] && w.moments[t.id] == Moment(g.mass, g.place);
    AcceptedLooksSmall(w.gravity, g, x, i);
  }

  /** The group pulls as strongly as Newton's law says. */
  ghost predicate IsStrong(g: Group, p: Gravity, target: Vec)
  {
    IsStrength(g.strength, p.constant * g.mass, SoftenedSquare(g.place, target, p.softeningSquared))
  }

  lemma ClusterIsStrong(w: Scene, order: seq<nat>, t: Tree)
    requires w.target < |w.bodies| && t.id < |w.moments| == |w.cubes| && IsInverseDistance(w.gravity.inverseDistance)
    requires !Singular(w.gravity, TargetPosition(w), Source(w, Cluster(t)))
    ensures IsStrong(GroupOf(w, order, Cluster(t)), w.gravity, TargetPosition(w))
  {
    StrengthIsNewtonian(w.gravity, TargetPosition(w), Source(w, Cluster(t)));
  }

  lemma GroupOfParts(w: Scene, y: Structure, mass: seq<real>, x: seq<Vec>, g: Group, i: nat, target: Vec)
    requires |x| == |mass| && w.target < |y.order| && i == y.order[w.target] < |x| && target == x[i]
    requires StandsFor(g, mass, x) && LooksSmall(g, x, i, w.gravity.theta, w.gravity.squareRoot) && i !in g.members
    requires IsStrong(g, w.gravity, target)
    ensures IsGroupIn(w, y, mass, x, g)
  {
  }

  lemma ClusterIsGroup(w: Scene, y: Structure, mass: seq<real>, x: seq<Vec>, t: Tree, g: Group)
    requires |x| == |mass| && GoodScene(w, y, mass, x) && IsTreeAt(y.octree, t) && w.target !in Members(t)
    requires Accepts(w.gravity, w.cubes[t.id], w.moments[t.id], TargetPosition(w))
    requires !Singular(w.gravity, TargetPosition(w), Source(w, Cluster(t)))
    requires g == GroupOf(w, y.order, Cluster(t))
    ensures IsGroupIn(w, y, mass, x, g)
  {
    ClusterIsSmall(w, y, mass, x, t, g, y.order[w.target]);
    ClusterIsStrong(w, y.order, t);
    GroupOfParts(w, y, mass, x, g, y.order[w.target], TargetPosition(w));
  }

  /** An item that the traversal may produce. */
  ghost predicate Produced(w: Scene, y: Structure, item: Item)
    requires WellFormed(y.octree) && SceneCovers(w, |y.octree.nodes|)
  {
    && Sound(w, item, |y.octree.nodes|) && (item.Point? ==> item.position < |w.bodies|)
    && (item.Cluster? ==> IsTreeAt(y.octree, item.tree) && w.target !in Members(item.tree))
    && (item.Massless? ==> IsTreeAt(y.octree, item.tree))
    && !Singular(w.gravity, TargetPosition(w), Source(w, item))
  }

  ghost predicate AllProduced(w: Scene, y: Structure, items: seq<Item>)
  {
    && WellFormed(y.octree) && SceneCovers(w, |y.octree.nodes|)
    && forall n :: 0 <= n < |items| ==> Produced(w, y, items[n])
  }

  lemma ItemIsGroup(w: Scene, y: Structure, mass: seq<real>, x: seq<Vec>, item: Item)
    requires |x| == |mass| && GoodScene(w, y, mass, x) && Produced(w, y, item) && !item.Self?
    ensures IsGroupIn(w, y, mass, x, GroupOf(w, y.order, item))
  {
    match item
    case Point(s) => PointIsGroup(w, y, mass, x, s);
    case Cluster(t) => ClusterIsGroup(w, y, mass, x, t, GroupOf(w, y.order, item));
    case Massless(t) => MasslessIsGroup(w, y, mass, x, t);
    case Self(_) =>
  }

  /** The pull of a group is that of the item. */
  lemma PullOfItem(w: Scene, order: seq<nat>, item: Item)
    requires w.target < |w.bodies| && (item.Point? ==> item.position < |w.bodies|)
    requires item.Cluster? ==> item.tree.id < |w.moments| && item.tree.id < |w.cubes|
    ensures var g := GroupOf(w, order, item);
            Pull(w.gravity, TargetPosition(w), Source(w, item)) == PullTowards(g.strength, g.place, TargetPosition(w))
  {
    var source, g := Source(w, item), GroupOf(w, order, item);
    PullHasStrength(w.gravity, TargetPosition(w), source);
    if item.Self? || item.Massless? {
      NoPull(g.place, TargetPosition(w));
    }
  }

  lemma NoPull(a: Vec, b: Vec)
    ensures PullTowards(0.0, a, b) == ORIGIN
  {
  }

  lemma {:induction false} CountRenamed(order: seq<nat>, positions: seq<nat>, s: nat)
    requires IsOrder(order) && s < |order|
    ensures Count(order[s], Renamed(order, positions)) == Count(s, positions)
  {
    if positions != [] {
      var n := |positions| - 1;
      CountRenamed(order, positions[..n], s);
      RenamedSnoc(order, positions);
      CountSnoc(s, positions[..n], positions[n]);
      CountSnoc(order[s], Renamed(order, positions[..n]), Renamed(order, positions)[n]);
      assert positions[..n] + [positions[n]] == positions;
      assert Renamed(order, positions)[..n] + [Renamed(order, positions)[n]] == Renamed(order, positions);
    }
  }

  lemma MembersOfItem(w: Scene, order: seq<nat>, item: Item, s: nat)
    requires w.target < |w.bodies| && IsOrder(order) && s < |order| && s != w.target
    requires match item
             case Point(t) => t < |w.bodies|
             case Self(t) => t == w.target
             case Cluster(t) => t.id < |w.moments| && t.id < |w.cubes|
             case Massless(t) => t.id < |w.moments| && t.id < |w.cubes|
    ensures Count(order[s], GroupOf(w, order, item).members) == Count(s, Expand(item))
  {
    match item
    case Point(t) => CountRenamed(order, [t], s);
    case Self(t) =>
    case Cluster(t) => CountRenamed(order, Members(t), s);
    case Massless(t) => CountRenamed(order, Members(t), s);
  }

  /** Groups that pull together so much, with the particles at these sorted positions. */
  ghost predicate Grouped(w: Scene, y: Structure, mass: seq<real>, x: seq<Vec>, total: Vec, positions: seq<nat>,
                          groups: seq<Group>)
    requires |x| == |mass| && w.target < |y.order| && y.order[w.target] < |x| && w.target < |w.bodies|
  {
    && AllAreGroups(w, y, mass, x, groups) && PullOfGroups(groups, TargetPosition(w)) == total
    && SameCounts(y.order, w.target, Together(groups), positions)
  }

  ghost predicate AllAreGroups(w: Scene, y: Structure, mass: seq<real>, x: seq<Vec>, groups: seq<Group>)
    requires |x| == |mass| && w.target < |y.order| && y.order[w.target] < |x|
  {
    forall n :: 0 <= n < |groups| ==> IsGroupIn(w, y, mass, x, groups[n])
  }

  lemma OneGroupMore(w: Scene, y: Structure, mass: seq<real>, x: seq<Vec>, groups: seq<Group>, g: Group)
    requires |x| == |mass| && w.target < |y.order| && y.order[w.target] < |x|
    requires AllAreGroups(w, y, mass, x, groups) && IsGroupIn(w, y, mass, x, g)
    ensures AllAreGroups(w, y, mass, x, groups + [g])
  {
    forall n | 0 <= n < |groups + [g]|
      ensures IsGroupIn(w, y, mass, x, (groups + [g])[n])
    {
      assert n == |groups| || (groups + [g])[n] == groups[n];
    }
  }

  /** The same particles as at the sorted positions, but for the target. */
  ghost predicate SameCounts(order: seq<nat>, target: nat, members: seq<nat>, positions: seq<nat>)
  {
    forall s: nat :: s < |order| && s != target ==> Count(order[s], members) == Count(s, positions)
  }

  lemma CountsAdd(order: seq<nat>, target: nat, members: seq<nat>, positions: seq<nat>, more: seq<nat>, next: seq<nat>)
    requires SameCounts(order, target, members, positions) && SameCounts(order, target, more, next)
    ensures SameCounts(order, target, members + more, positions + next)
  {
    forall s: nat | s < |order| && s != target
      ensures Count(order[s], members + more) == Count(s, positions + next)
    {
      CountConcat(order[s], members, more);
      CountConcat(s, positions, next);
    }
  }

  lemma CountsOfItem(w: Scene, y: Structure, item: Item)
    requires WellFormed(y.octree) && SceneCovers(w, |y.octree.nodes|) && IsOrder(y.order) && Produced(w, y, item)
    ensures SameCounts(y.order, w.target, GroupOf(w, y.order, item).members, Expand(item))
  {
    forall s: nat | s < |y.order| && s != w.target
      ensures Count(y.order[s], GroupOf(w, y.order, item).members) == Count(s, Expand(item))
    {
      MembersOfItem(w, y.order, item, s);
    }
  }

  lemma OneMoreGrouped(w: Scene, y: Structure, mass: seq<real>, x: seq<Vec>, total: Vec, positions: seq<nat>,
                       groups: seq<Group>, g: Group, next: seq<nat>)
    requires |x| == |mass| && w.target < |y.order| && y.order[w.target] < |x| && w.target < |w.bodies|
    requires Grouped(w, y, mass, x, total, positions, groups)
    requires IsGroupIn(w, y, mass, x, g) && SameCounts(y.order, w.target, g.members, next)
    ensures Grouped(w, y, mass, x, Add(total, PullTowards(g.strength, g.place, TargetPosition(w))), positions + next,
                    groups + [g])
  {
    OneGroupMore(w, y, mass, x, groups, g);
    CountsAdd(y.order, w.target, Together(groups), positions, g.members, next);
    OneMoreGroup(groups, g, TargetPosition(w));
  }

  lemma ItemIsGrouped(w: Scene, y: Structure, mass: seq<real>, x: seq<Vec>, total: Vec, positions: seq<nat>,
                      groups: seq<Group>, item: Item)
    requires |x| == |mass| && GoodScene(w, y, mass, x) && Grouped(w, y, mass, x, total, positions, groups)
    requires Produced(w, y, item) && !item.Self?
    ensures Grouped(w, y, mass, x, Add(total, Pull(w.gravity, TargetPosition(w), Source(w, item))),
                    positions + Expand(item), groups + [GroupOf(w, y.order, item)])
  {
    ItemIsGroup(w, y, mass, x, item);
    PullOfItem(w, y.order, item);
    CountsOfItem(w, y, item);
    OneMoreGrouped(w, y, mass, x, total, positions, groups, GroupOf(w, y.order, item), Expand(item));
  }

  lemma AddNothing(total: Vec, w: Scene, s: nat)
    requires w.target < |w.bodies|
    ensures Add(total, Pull(w.gravity, TargetPosition(w), Source(w, Self(s)))) == total
  {
  }

  lemma SelfIsNoOther(order: seq<nat>, target: nat, members: seq<nat>, positions: seq<nat>)
    requires SameCounts(order, target, members, positions)
    ensures SameCounts(order, target, members, positions + [target])
  {
    forall s: nat | s < |order| && s != target
      ensures Count(order[s], members) == Count(s, positions + [target])
    {
      CountSnoc(s, positions, target);
    }
  }

  lemma SelfIsSkipped(w: Scene, y: Structure, mass: seq<real>, x: seq<Vec>, total: Vec, positions: seq<nat>,
                      groups: seq<Group>)
    requires |x| == |mass| && w.target < |y.order| && y.order[w.target] < |x| && w.target < |w.bodies|
    requires Grouped(w, y, mass, x, total, positions, groups)
    ensures Grouped(w, y, mass, x, total, positions + [w.target], groups)
  {
    SelfIsNoOther(y.order, w.target, Together(groups), positions);
  }

  lemma {:induction false} ItemsAreGrouped(w: Scene, y: Structure, mass: seq<real>, x: seq<Vec>, items: seq<Item>)
    returns (groups: seq<Group>)
    requires |x| == |mass| && GoodScene(w, y, mass, x) && AllProduced(w, y, items)
    ensures Grouped(w, y, mass, x, Total(w, items), ExpandAll(items), groups)
  {
    if items == [] {
      groups := [];
    } else {
      var front, item := items[..|items| - 1], items[|items| - 1];
      groups := ItemsAreGrouped(w, y, mass, x, front);
      if item.Self? {
        SelfIsSkipped(w, y, mass, x, Total(w, front), ExpandAll(front), groups);
        AddNothing(Total(w, front), w, item.position);
      } else {
        ItemIsGrouped(w, y, mass, x, Total(w, front), ExpandAll(front), groups, item);
        groups := groups + [GroupOf(w, y.order, item)];
      }
    }
  }

  lemma SceneIsGood(p: Gravity, mass: seq<real>, x: seq<Vec>, s: nat)
    requires |x| == |mass| && Populated(Bodies(mass, x)) && NoNegativeMass(Bodies(mass, x)) && s < |x|
    requires IsSquareRoot(p.squareRoot) && IsInverseDistance(p.inverseDistance)
    ensures GoodScene(SceneFor(p, Bodies(mass, x), s), StructureOf(Bodies(mass, x)), mass, x)
  {
    StructureHouses(mass, x);
    StructureWeighsAll(mass, x);
    SourcesAreSorted(mass, x);
    OctreeIsGood(Bodies(mass, x));
  }

  lemma ItemsAreProduced(p: Gravity, data: seq<Body>, s: nat)
    requires Populated(data) && NoNegativeMass(data) && s < |data|
    requires !AnySingular(SceneFor(p, data, s), ItemsOn(p, data, s))
    ensures AllProduced(SceneFor(p, data, s), StructureOf(data), ItemsOn(p, data, s))
  {
    var w, o, items := SceneFor(p, data, s), OctreeOfBodies(data), ItemsOn(p, data, s);
    SceneIsPhysical(p, data, s);
    PhysicalItemsAreSound(w, o);
    TargetIsNeverAbsorbed(w, o);
    TreeItemTrees(w, o, 0);
    EachParticleOnce(w, o, |data|);
    forall n | 0 <= n < |items|
      ensures Produced(w, StructureOf(data), items[n])
    {
      assert Sound(w, items[n], |o.nodes|);
      if items[n].Point? {
        PointIsPosition(items, n, |data|);
      }
    }
  }

  lemma {:induction false} ExpandsItem(items: seq<Item>, n: nat, s: nat)
    requires n < |items| && s in Expand(items[n])
    ensures Count(s, ExpandAll(items)) > 0
  {
    var front, last := items[..|items| - 1], items[|items| - 1];
    CountConcat(s, ExpandAll(front), Expand(last));
    if n < |front| {
      ExpandsItem(front, n, s);
    }
  }

  lemma PointIsPosition(items: seq<Item>, n: nat, count: nat)
    requires n < |items| && items[n].Point? && EachOnce(ExpandAll(items), count)
    ensures items[n].position < count
  {
    ExpandsItem(items, n, items[n].position);
  }

  lemma PositionIs(data: seq<Body>, s: nat)
    requires s < |data|
    ensures Order(data)[s] < |data| && PositionOf(data, Order(data)[s]) == s
  {
    SortedKeysAreKeys(data);
  }

  lemma ForceOfItems(p: Gravity, data: seq<Body>, s: nat)
    requires Populated(data) && s < |data| && !Fails(p, data)
    ensures Order(data)[s] < |data|
    ensures AccelerationOf(p, data)[Order(data)[s]] == Total(SceneFor(p, data, s), ItemsOn(p, data, s))
    ensures !AnySingular(SceneFor(p, data, s), ItemsOn(p, data, s))
  {
    StructureIsSound(data);
    PositionIs(data, s);
    assert !FailsAt(StructureOf(data), Sources(data), p, s);
  }

  lemma ItemsPullInGroups(p: Gravity, mass: seq<real>, x: seq<Vec>, s: nat, i: nat) returns (groups: seq<Group>)
    requires |x| == |mass| && Populated(Bodies(mass, x)) && NoNegativeMass(Bodies(mass, x)) && s < |x|
    requires IsSquareRoot(p.squareRoot) && IsInverseDistance(p.inverseDistance) && i == Order(Bodies(mass, x))[s]
    requires !AnySingular(SceneFor(p, Bodies(mass, x), s), ItemsOn(p, Bodies(mass, x), s))
    ensures i < |x| && AreGroups(groups, p.constant, p.softeningSquared, p.theta, p.squareRoot, mass, x, i)
    ensures PullOfGroups(groups, x[i]) == Total(SceneFor(p, Bodies(mass, x), s), ItemsOn(p, Bodies(mass, x), s))
  {
    var w, y, items := SceneFor(p, Bodies(mass, x), s), StructureOf(Bodies(mass, x)), ItemsOn(p, Bodies(mass, x), s);
    SceneIsGood(p, mass, x, s);
    ItemsAreProduced(p, Bodies(mass, x), s);
    groups := ItemsAreGrouped(w, y, mass, x, items);
    OthersAreHeld(p, Bodies(mass, x), s, Together(groups));
    GroupsOfTarget(w, y, mass, x, groups, i);
  }

  lemma GroupsOfTarget(w: Scene, y: Structure, mass: seq<real>, x: seq<Vec>, groups: seq<Group>, i: nat)
    requires |x| == |mass| && w.target < |y.order| && i == y.order[w.target] < |x|
    requires AllAreGroups(w, y, mass, x, groups)
    ensures forall n :: 0 <= n < |groups| ==>
              IsGroup(groups[n], w.gravity.constant, w.gravity.softeningSquared, w.gravity.theta,
                      w.gravity.squareRoot, mass, x, i)
  {
    forall n | 0 <= n < |groups|
      ensures IsGroup(groups[n], w.gravity.constant, w.gravity.softeningSquared, w.gravity.theta,
                      w.gravity.squareRoot, mass, x, i)
    {
      assert IsGroupIn(w, y, mass, x, groups[n]);
    }
  }

  /** Whatever the opening angle, the acceleration of every particle is the sum of the pulls of
      groups of particles that are small, or far enough away, or have no mass. */
  lemma AnyAngleIsNewtonian(p: Gravity, mass: seq<real>, x: seq<Vec>, i: nat)
    requires |x| == |mass| && i < |x| && Populated(Bodies(mass, x)) && NoNegativeMass(Bodies(mass, x))
    requires IsSquareRoot(p.squareRoot) && IsInverseDistance(p.inverseDistance) && !Fails(p, Bodies(mass, x))
    ensures PulledInGroups(AccelerationOf(p, Bodies(mass, x))[i], p.constant, p.softeningSquared, p.theta, p.squareRoot,
                           mass, x, i)
  {
    var s := PositionOf(Bodies(mass, x), i);
    ForceOfItems(p, Bodies(mass, x), s);
    var groups := ItemsPullInGroups(p, mass, x, s, i);
  }

  lemma OthersAreHeld(p: Gravity, data: seq<Body>, s: nat, members: seq<nat>)
    requires Populated(data) && NoNegativeMass(data) && s < |data|
    requires SameCounts(Order(data), s, members, ExpandAll(ItemsOn(p, data, s)))
    ensures Order(data)[s] < |data|
    ensures forall j: nat :: j < |data| && j != Order(data)[s] ==> Count(j, members) == 1
  {
    SortedKeysAreKeys(data);
    TraversalAccountsForAll(p, data, s);
    forall j: nat | j < |data| && j != Order(data)[s]
      ensures Count(j, members) == 1
    {
      var t := PositionOf(data, j);
      assert Count(t, ExpandAll(ItemsOn(p, data, s))) == 1;
    }
  }

  // ----- the law of the simulation

  /** No particle has negative mass, and the forces are softened by a square. */
  ghost predicate Physical(m: Model)
  {
    IsModel(m) && m.gravity.softeningSquared >= 0.0 && forall k :: 0 <= k < |m.mass| ==> m.mass[k] >= 0.0
  }

  /** These are the accelerations of these particles at these places. */
  ghost predicate Accelerates(p: Gravity, mass: seq<real>, x: seq<Vec>, a: seq<Vec>)
    requires |x| == |mass|
  {
    && |a| == |x|
    && (p.theta <= 0.0 && IsInverseDistance(p.inverseDistance) ==>
          forall i: nat :: i < |x| ==> PulledByAll(a[i], p.constant, p.softeningSquared, mass, x, i))
    && (IsSquareRoot(p.squareRoot) && IsInverseDistance(p.inverseDistance) ==>
          forall i: nat :: i < |x| ==>
            PulledInGroups(a[i], p.constant, p.softeningSquared, p.theta, p.squareRoot, mass, x, i))
  }

  lemma ModelIsPopulated(m: Model, x: seq<Vec>)
    requires Physical(m) && |x| == |m.mass|
    ensures Populated(Bodies(m.mass, x)) && NoNegativeMass(Bodies(m.mass, x))
  {
  }

  /** Exactly which places the law can evaluate. */
  lemma LawEvaluatesExactly(m: Model, x: seq<Vec>)
    requires Physical(m) && |x| == |m.mass|
    ensures Evaluates(m, x) <==> m.gravity.softeningSquared > 0.0 || !SharePlace(m.mass, x)
  {
    ModelIsPopulated(m, x);
    EvaluatesExactly(m.gravity, m.mass, x);
  }

  /** The field of the law is that of the particles, for every opening angle. */
  lemma FieldAccelerates(m: Model, x: seq<Vec>)
    requires Physical(m) && |x| == |m.mass| && Evaluates(m, x)
    ensures Accelerates(m.gravity, m.mass, x, Field(m, x))
  {
    var p := m.gravity;
    ModelIsPopulated(m, x);
    LawEvaluatesExactly(m, x);
    if p.theta <= 0.0 && IsInverseDistance(p.inverseDistance) {
      forall i: nat | i < |x|
        ensures PulledByAll(Field(m, x)[i], p.constant, p.softeningSquared, m.mass, x, i)
      {
        ZeroAngleIsNewtonian(p, m.mass, x, i);
      }
    }
    if IsSquareRoot(p.squareRoot) && IsInverseDistance(p.inverseDistance) {
      forall i: nat | i < |x|
        ensures PulledInGroups(Field(m, x)[i], p.constant, p.softeningSquared, p.theta, p.squareRoot, m.mass, x, i)
      {
        AnyAngleIsNewtonian(p, m.mass, x, i);
      }
    }
  }
}
