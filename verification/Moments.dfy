/** Mass and centre of mass of octree nodes: what the kernels compute from the children of a
    node, and what that means for the particles below it. */
module Moments {
  import opened OctreePlan
  import opened OctreeBuilder
  import opened Forests
  import opened Vectors
  import opened Coverage
  import opened BarnesHut
  import opened Accounting

  datatype Sums = Sums(mass: real, weighted: Vec)

  const NO_SUMS := Sums(0.0, ORIGIN)

  function AddTerm(a: Sums, mass: real, center: Vec): Sums
  {
    Sums(a.mass + mass, Add(a.weighted, Scale(mass, center)))
  }

  /** A node without mass gets the origin as its centre. */
  function MomentFrom(a: Sums): Moment
  {
    Moment(a.mass, if a.mass > 0.0 then Scale(1.0 / a.mass, a.weighted) else ORIGIN)
  }

  function LeafSums(bodies: seq<Body>, first: nat, count: nat): Sums
  {
    if count == 0 then NO_SUMS
    else
      var sums := LeafSums(bodies, first, count - 1);
      var s := first + count - 1;
      if s < |bodies| then AddTerm(sums, bodies[s].mass, bodies[s].position) else sums
  }

  function TreeMoment(bodies: seq<Body>, t: Tree): Moment
  {
    match t
    case Leaf(_, first, count) => MomentFrom(LeafSums(bodies, first, count))
    case Node(_, kids) => MomentFrom(KidSums(bodies, kids))
  }

  /** The children's moments, added up from the last of the forest to the first. */
  function KidSums(bodies: seq<Body>, f: Forest): Sums
  {
    match f
    case None => NO_SUMS
    case More(t, rest) =>
      var m := TreeMoment(bodies, t);
      AddTerm(KidSums(bodies, rest), m.mass, m.center)
  }

  // ----- mass and weighted position are those of the particles below

  function WeightedAt(bodies: seq<Body>, s: nat): Vec
  {
    if s < |bodies| then Scale(bodies[s].mass, bodies[s].position) else ORIGIN
  }

  function WeightedOf(bodies: seq<Body>, positions: seq<nat>): Vec
  {
    if positions == [] then ORIGIN
    else Add(WeightedOf(bodies, positions[..|positions| - 1]), WeightedAt(bodies, positions[|positions| - 1]))
  }

  lemma WeightedSnoc(bodies: seq<Body>, positions: seq<nat>, s: nat)
    ensures WeightedOf(bodies, positions + [s]) == Add(WeightedOf(bodies, positions), WeightedAt(bodies, s))
  {
    assert (positions + [s])[..|positions|] == positions;
  }

  lemma {:induction false} WeightedConcat(bodies: seq<Body>, a: seq<nat>, b: seq<nat>)
    ensures WeightedOf(bodies, a + b) == Add(WeightedOf(bodies, a), WeightedOf(bodies, b))
  {
    if b == [] {
      assert a + b == a;
    } else {
      var front, last := b[..|b| - 1], b[|b| - 1];
      assert a + b == a + front + [last] && b == front + [last];
      WeightedSnoc(bodies, a + front, last);
      WeightedSnoc(bodies, front, last);
      WeightedConcat(bodies, a, front);
    }
  }

  ghost predicate NoNegativeMass(bodies: seq<Body>)
  {
    forall s :: 0 <= s < |bodies| ==> bodies[s].mass >= 0.0
  }

  /** Without mass there is no weighted position either. */
  ghost predicate Weighs(mass: real, weighted: Vec)
  {
    mass >= 0.0 && (mass == 0.0 ==> weighted == ORIGIN)
  }

  lemma BodyWeighs(bodies: seq<Body>, s: nat)
    requires NoNegativeMass(bodies)
    ensures Weighs(MassAt(bodies, s), WeightedAt(bodies, s))
  {
    if s < |bodies| {
      var p := bodies[s].position;
      assert 0.0 * p.x == 0.0 && 0.0 * p.y == 0.0 && 0.0 * p.z == 0.0;
    }
  }

  lemma SumWeighs(a: real, v: Vec, b: real, w: Vec)
    requires Weighs(a, v) && Weighs(b, w)
    ensures Weighs(a + b, Add(v, w))
  {
    if a != 0.0 {
      assert a + b != 0.0;
    } else if b != 0.0 {
      assert a + b != 0.0;
    } else {
      assert v == ORIGIN && w == ORIGIN;
    }
  }

  lemma {:induction false} MassesBelow(bodies: seq<Body>, positions: seq<nat>)
    requires NoNegativeMass(bodies)
    ensures Weighs(MassOf(bodies, positions), WeightedOf(bodies, positions))
  {
    if positions != [] {
      var front, last := positions[..|positions| - 1], positions[|positions| - 1];
      MassesBelow(bodies, front);
      BodyWeighs(bodies, last);
      SumWeighs(MassOf(bodies, front), WeightedOf(bodies, front), MassAt(bodies, last), WeightedAt(bodies, last));
    }
  }

  /** The moment of a set of positions: their mass, and mass times centre is the sum of the
      weighted positions. */
  ghost predicate IsMomentOf(m: Moment, bodies: seq<Body>, positions: seq<nat>)
  {
    && m.mass == MassOf(bodies, positions)
    && Scale(m.mass, m.center) == WeightedOf(bodies, positions)
  }

  ghost predicate AreSumsOf(a: Sums, bodies: seq<Body>, positions: seq<nat>)
  {
    a.mass == MassOf(bodies, positions) && a.weighted == WeightedOf(bodies, positions)
  }

  lemma ScaleBack(mass: real, v: Vec)
    requires mass > 0.0
    ensures Scale(mass, Scale(1.0 / mass, v)) == v
  {
    var k := 1.0 / mass;
    assert mass * k == 1.0;
    assert mass * (k * v.x) == (mass * k) * v.x;
    assert mass * (k * v.y) == (mass * k) * v.y;
    assert mass * (k * v.z) == (mass * k) * v.z;
  }

  /** Dividing by the mass loses nothing, even when there is no mass. */
  lemma MomentOfSums(a: Sums, bodies: seq<Body>, positions: seq<nat>)
    requires NoNegativeMass(bodies) && AreSumsOf(a, bodies, positions)
    ensures IsMomentOf(MomentFrom(a), bodies, positions)
  {
    MassesBelow(bodies, positions);
    if a.mass > 0.0 {
      ScaleBack(a.mass, a.weighted);
    }
  }

  lemma {:induction false} LeafSumsAreSums(bodies: seq<Body>, first: nat, count: nat)
    requires NoNegativeMass(bodies)
    ensures AreSumsOf(LeafSums(bodies, first, count), bodies, Positions(first, count))
  {
    if count > 0 {
      LeafSumsAreSums(bodies, first, count - 1);
      var front, s := Positions(first, count - 1), first + count - 1;
      WeightedSnoc(bodies, front, s);
      assert (front + [s])[..|front|] == front;
    }
  }

  /** Node moments, aggregated level by level, are the moments of the particles below; massless
      nodes included. */
  lemma {:induction false} TreeMomentIsMoment(bodies: seq<Body>, t: Tree)
    requires NoNegativeMass(bodies)
    ensures IsMomentOf(TreeMoment(bodies, t), bodies, Members(t))
    decreases t, 0
  {
    match t
    case Leaf(_, first, count) =>
      LeafSumsAreSums(bodies, first, count);
      MomentOfSums(LeafSums(bodies, first, count), bodies, Members(t));
    case Node(_, kids) =>
      KidSumsAreSums(bodies, kids);
      MomentOfSums(KidSums(bodies, kids), bodies, Members(t));
  }

  lemma {:induction false} KidSumsAreSums(bodies: seq<Body>, f: Forest)
    requires NoNegativeMass(bodies)
    ensures AreSumsOf(KidSums(bodies, f), bodies, ForestMembers(f))
    decreases f, 1
  {
    if f.More? {
      TreeMomentIsMoment(bodies, f.tree);
      KidSumsAreSums(bodies, f.rest);
      MassOfConcat(bodies, Members(f.tree), ForestMembers(f.rest));
      WeightedConcat(bodies, Members(f.tree), ForestMembers(f.rest));
    }
  }

  // ----- the centre of mass lies where the mass is

  ghost predicate InBox(low: Vec, v: Vec, high: Vec)
  {
    low.x <= v.x <= high.x && low.y <= v.y <= high.y && low.z <= v.z <= high.z
  }

  lemma ScaleKeepsOrder(k: real, a: real, b: real)
    requires k >= 0.0 && a <= b
    ensures k * a <= k * b
  {
  }

  lemma ScaledBox(mass: real, low: Vec, v: Vec, high: Vec)
    requires mass >= 0.0 && InBox(low, v, high)
    ensures InBox(Scale(mass, low), Scale(mass, v), Scale(mass, high))
  {
    ScaleKeepsOrder(mass, low.x, v.x);
    ScaleKeepsOrder(mass, v.x, high.x);
    ScaleKeepsOrder(mass, low.y, v.y);
    ScaleKeepsOrder(mass, v.y, high.y);
    ScaleKeepsOrder(mass, low.z, v.z);
    ScaleKeepsOrder(mass, v.z, high.z);
  }

  lemma ScaleSum(a: real, b: real, v: Vec)
    ensures Scale(a + b, v) == Add(Scale(a, v), Scale(b, v))
  {
    assert (a + b) * v.x == a * v.x + b * v.x;
    assert (a + b) * v.y == a * v.y + b * v.y;
    assert (a + b) * v.z == a * v.z + b * v.z;
  }

  lemma SumOfBoxes(low: Vec, v: Vec, high: Vec, low': Vec, v': Vec, high': Vec)
    requires InBox(low, v, high) && InBox(low', v', high')
    ensures InBox(Add(low, low'), Add(v, v'), Add(high, high'))
  {
  }

  lemma OneMoreBody(total: real, weighted: Vec, mass: real, v: Vec, low: Vec, high: Vec)
    requires InBox(Scale(total, low), weighted, Scale(total, high)) && mass >= 0.0 && InBox(low, v, high)
    ensures InBox(Scale(total + mass, low), Add(weighted, Scale(mass, v)), Scale(total + mass, high))
  {
    ScaledBox(mass, low, v, high);
    ScaleSum(total, mass, low);
    ScaleSum(total, mass, high);
    SumOfBoxes(Scale(total, low), weighted, Scale(total, high), Scale(mass, low), Scale(mass, v), Scale(mass, high));
  }

  ghost predicate InBoxAt(bodies: seq<Body>, s: nat, low: Vec, high: Vec)
  {
    s < |bodies| ==> InBox(low, bodies[s].position, high)
  }

  lemma {:induction false} WeightedBounds(bodies: seq<Body>, positions: seq<nat>, low: Vec, high: Vec)
    requires NoNegativeMass(bodies)
    requires forall s :: s in positions ==> InBoxAt(bodies, s, low, high)
    ensures InBox(Scale(MassOf(bodies, positions), low), WeightedOf(bodies, positions),
                  Scale(MassOf(bodies, positions), high))
  {
    if positions == [] {
      assert Scale(0.0, low) == ORIGIN && Scale(0.0, high) == ORIGIN;
    } else {
      var front, last := positions[..|positions| - 1], positions[|positions| - 1];
      WeightedBounds(bodies, front, low, high);
      WeightedStep(bodies, MassOf(bodies, front), WeightedOf(bodies, front), last, low, high);
    }
  }

  lemma WeightedStep(bodies: seq<Body>, total: real, weighted: Vec, s: nat, low: Vec, high: Vec)
    requires NoNegativeMass(bodies) && InBoxAt(bodies, s, low, high)
    requires InBox(Scale(total, low), weighted, Scale(total, high))
    ensures InBox(Scale(total + MassAt(bodies, s), low), Add(weighted, WeightedAt(bodies, s)),
                  Scale(total + MassAt(bodies, s), high))
  {
    if s < |bodies| {
      OneMoreBody(total, weighted, bodies[s].mass, bodies[s].position, low, high);
    }
  }

  lemma BoxDivides(mass: real, low: Vec, v: Vec, high: Vec)
    requires mass > 0.0 && InBox(Scale(mass, low), Scale(mass, v), Scale(mass, high))
    ensures InBox(low, v, high)
  {
    StrictScale(mass, v.x, low.x);
    StrictScale(mass, high.x, v.x);
    StrictScale(mass, v.y, low.y);
    StrictScale(mass, high.y, v.y);
    StrictScale(mass, v.z, low.z);
    StrictScale(mass, high.z, v.z);
  }

  lemma StrictScale(k: real, a: real, b: real)
    requires k > 0.0
    ensures a < b ==> k * a < k * b
  {
    if a < b {
      assert k * (b - a) > 0.0;
    }
  }

  lemma BoxOfCube(c: Cube, v: Vec)
    ensures var corner := Vec(c.half, c.half, c.half);
            Contains(c, v) <==> InBox(Sub(c.center, corner), v, Add(c.center, corner))
  {
  }

  /** The centre of mass of a node that has mass lies inside the node's own cube. */
  lemma CenterOfMassInCube(bodies: seq<Body>, t: Tree, cube: Cube)
    requires NoNegativeMass(bodies) && TreeMoment(bodies, t).mass > 0.0
    requires forall s :: s in Members(t) && s < |bodies| ==> Contains(cube, bodies[s].position)
    ensures Contains(cube, TreeMoment(bodies, t).center)
  {
    var corner := Vec(cube.half, cube.half, cube.half);
    var low, high := Sub(cube.center, corner), Add(cube.center, corner);
    forall s | s in Members(t)
      ensures InBoxAt(bodies, s, low, high)
    {
      if s < |bodies| {
        BoxOfCube(cube, bodies[s].position);
      }
    }
    var m := TreeMoment(bodies, t);
    TreeMomentIsMoment(bodies, t);
    WeightedBounds(bodies, Members(t), low, high);
    BoxDivides(m.mass, low, m.center, high);
    BoxOfCube(cube, m.center);
  }
}
