/** Newton's law of gravity on masses and places alone: how strong a pull is, what the pulls of all
    particles add up to, and what it means that particles pull in groups. Nothing here depends on
    how the forces are computed. */
module Newton {
  import opened Vectors
  import opened Coverage
  import opened BarnesHut

  // ----- one pull

  /** The squared distance of two places, softened. */
  function SoftenedSquare(a: Vec, b: Vec, softeningSquared: real): real
  {
    (a.x - b.x) * (a.x - b.x) + (a.y - b.y) * (a.y - b.y) + (a.z - b.z) * (a.z - b.z) + softeningSquared
  }

  /** The factor of the vector to the source: its square times the cube of the softened squared
      distance is the squared product of mass and constant, and it has the sign of that product. */
  ghost predicate IsStrength(k: real, gm: real, r: real)
  {
    && (k * k) * (r * r * r) == gm * gm
    && (k > 0.0 <==> gm > 0.0) && (k < 0.0 <==> gm < 0.0)
  }

  /** The vector from a target to a source, times a factor. */
  function PullTowards(k: real, source: Vec, target: Vec): Vec
  {
    Vec(k * (source.x - target.x), k * (source.y - target.y), k * (source.z - target.z))
  }

  lemma CubeIsPositive(r: real, cube: real)
    requires r > 0.0 && cube == r * r * r
    ensures cube > 0.0
  {
    assert r * r > 0.0;
  }

  lemma SameSquare(a: real, b: real, c: real)
    requires c > 0.0 && (a * a) * c == (b * b) * c
    ensures a == b || a == -b
  {
    assert (a * a - b * b) * c == 0.0;
    assert a * a == b * b;
    assert (a - b) * (a + b) == 0.0;
  }

  /** Away from a distance of zero there is only one such factor. */
  lemma StrengthIsUnique(k: real, l: real, gm: real, r: real)
    requires r > 0.0 && IsStrength(k, gm, r) && IsStrength(l, gm, r)
    ensures k == l
  {
    CubeIsPositive(r, r * r * r);
    SameSquare(k, l, r * r * r);
  }

  // ----- the pulls of all particles

  /** What the first n particles add up to on particle i. */
  function PullsOn(k: seq<real>, x: seq<Vec>, i: nat, n: nat): (a: Vec)
    requires n <= |k| && n <= |x| && i < |x|
  {
    if n == 0 then Vec(0.0, 0.0, 0.0)
    else
      var a, p := PullsOn(k, x, i, n - 1), PullTowards(k[n - 1], x[n - 1], x[i]);
      Vec(a.x + p.x, a.y + p.y, a.z + p.z)
  }

  ghost predicate AreStrengths(k: seq<real>, constant: real, softeningSquared: real, mass: seq<real>, x: seq<Vec>,
                               i: nat)
    requires |x| == |mass| && i < |x|
  {
    && |k| == |x|
    && forall j :: 0 <= j < |x| && j != i ==>
         IsStrength(k[j], constant * mass[j], SoftenedSquare(x[j], x[i], softeningSquared))
  }

  /** The acceleration of particle i is the sum of Newton's pulls of all others; a particle does
      not pull itself, since it is at no distance from itself. */
  ghost predicate PulledByAll(a: Vec, constant: real, softeningSquared: real, mass: seq<real>, x: seq<Vec>, i: nat)
    requires |x| == |mass| && i < |x|
  {
    exists k :: AreStrengths(k, constant, softeningSquared, mass, x, i) && a == PullsOn(k, x, i, |x|)
  }

  lemma {:induction false} SamePulls(k: seq<real>, l: seq<real>, x: seq<Vec>, i: nat, n: nat)
    requires n <= |k| == |l| == |x| && i < |x|
    requires forall j :: 0 <= j < n && j != i ==> k[j] == l[j]
    ensures PullsOn(k, x, i, n) == PullsOn(l, x, i, n)
  {
    if n > 0 {
      SamePulls(k, l, x, i, n - 1);
      if n - 1 == i {
        assert PullTowards(k[i], x[i], x[i]) == PullTowards(l[i], x[i], x[i]);
      }
    }
  }

  /** Newton's law leaves no choice: where no two particles are at distance zero, there is only one
      acceleration. */
  lemma PullIsDetermined(a: Vec, b: Vec, constant: real, softeningSquared: real, mass: seq<real>, x: seq<Vec>, i: nat)
    requires |x| == |mass| && i < |x|
    requires PulledByAll(a, constant, softeningSquared, mass, x, i)
    requires PulledByAll(b, constant, softeningSquared, mass, x, i)
    requires forall j :: 0 <= j < |x| && j != i ==> SoftenedSquare(x[j], x[i], softeningSquared) > 0.0
    ensures a == b
  {
    var k :| AreStrengths(k, constant, softeningSquared, mass, x, i) && a == PullsOn(k, x, i, |x|);
    var l :| AreStrengths(l, constant, softeningSquared, mass, x, i) && b == PullsOn(l, x, i, |x|);
    forall j | 0 <= j < |x| && j != i
      ensures k[j] == l[j]
    {
      StrengthIsUnique(k[j], l[j], constant * mass[j], SoftenedSquare(x[j], x[i], softeningSquared));
    }
    SamePulls(k, l, x, i, |x|);
  }

  // ----- the pulls of groups

  /** Particles taken together: their numbers, the mass and the place that stand for them, a cube
      that holds them, and the strength with which they pull. */
  datatype Group = Group(members: seq<nat>, mass: real, place: Vec, cube: Cube, strength: real)

  function MassAmong(mass: seq<real>, members: seq<nat>): real
  {
    if members == [] then 0.0
    else
      var j := members[|members| - 1];
      MassAmong(mass, members[..|members| - 1]) + if j < |mass| then mass[j] else 0.0
  }

  /** Mass times place of every particle. */
  function Weights(mass: seq<real>, x: seq<Vec>): (weights: seq<Vec>)
    requires |x| == |mass|
    ensures |weights| == |x|
  {
    seq(|x|, j requires 0 <= j < |x| => Vec(mass[j] * x[j].x, mass[j] * x[j].y, mass[j] * x[j].z))
  }

  function SumAmong(weights: seq<Vec>, members: seq<nat>): Vec
  {
    if members == [] then Vec(0.0, 0.0, 0.0)
    else
      var m, j := SumAmong(weights, members[..|members| - 1]), members[|members| - 1];
      if j < |weights| then Vec(m.x + weights[j].x, m.y + weights[j].y, m.z + weights[j].z) else m
  }

  /** Mass and centre of mass are those of the members; without mass the place is the origin. */
  ghost predicate WeighsAs(m: real, place: Vec, mass: seq<real>, x: seq<Vec>, members: seq<nat>)
    requires |x| == |mass|
  {
    && m == MassAmong(mass, members)
    && Vec(m * place.x, m * place.y, m * place.z) == SumAmong(Weights(mass, x), members)
  }

  /** The group stands for its members, and they lie in its cube. */
  ghost predicate StandsFor(g: Group, mass: seq<real>, x: seq<Vec>)
    requires |x| == |mass|
  {
    && WeighsAs(g.mass, g.place, mass, x, g.members)
    && forall j :: j in g.members ==> j < |x| && Contains(g.cube, x[j])
  }

  function Far(root: real -> real, a: Vec, b: Vec): real
  {
    root(SoftenedSquare(a, b, 0.0))
  }

  /** Either the group is a single particle in its own place, or it has no mass, or it appears
      smaller than the opening angle from the target, which lies outside. */
  ghost predicate LooksSmall(g: Group, x: seq<Vec>, i: nat, theta: real, root: real -> real)
    requires i < |x|
  {
    || (|g.members| == 1 && g.members[0] < |x| && g.place == x[g.members[0]])
    || (g.mass == 0.0 && g.place == ORIGIN)
    || (&& !Contains(g.cube, x[i]) && i !in g.members
        && 2.0 * g.cube.half < theta * Far(root, g.place, x[i])
        && 2.0 * g.cube.half < theta * Far(root, g.cube.center, x[i]))
  }

  ghost predicate IsGroup(g: Group, constant: real, softeningSquared: real, theta: real, root: real -> real,
                          mass: seq<real>, x: seq<Vec>, i: nat)
    requires |x| == |mass| && i < |x|
  {
    && StandsFor(g, mass, x) && LooksSmall(g, x, i, theta, root) && (i in g.members ==> g.mass == 0.0)
    && IsStrength(g.strength, constant * g.mass, SoftenedSquare(g.place, x[i], softeningSquared))
  }

  function Together(groups: seq<Group>): seq<nat>
  {
    if groups == [] then [] else Together(groups[..|groups| - 1]) + groups[|groups| - 1].members
  }

  function PullOfGroups(groups: seq<Group>, target: Vec): Vec
  {
    if groups == [] then Vec(0.0, 0.0, 0.0)
    else
      var g := groups[|groups| - 1];
      var a, p := PullOfGroups(groups[..|groups| - 1], target), PullTowards(g.strength, g.place, target);
      Vec(a.x + p.x, a.y + p.y, a.z + p.z)
  }

  ghost predicate AreGroups(groups: seq<Group>, constant: real, softeningSquared: real, theta: real, root: real -> real,
                            mass: seq<real>, x: seq<Vec>, i: nat)
    requires |x| == |mass| && i < |x|
  {
    && (forall n :: 0 <= n < |groups| ==> IsGroup(groups[n], constant, softeningSquared, theta, root, mass, x, i))
    && (forall j: nat :: j < |x| && j != i ==> Count(j, Together(groups)) == 1)
  }

  /** The other particles fall into groups, each particle into one, every group small or far away;
      the acceleration of particle i is the sum of Newton's pulls of these groups. */
  ghost predicate PulledInGroups(a: Vec, constant: real, softeningSquared: real, theta: real, root: real -> real,
                                 mass: seq<real>, x: seq<Vec>, i: nat)
    requires |x| == |mass| && i < |x|
  {
    exists groups :: AreGroups(groups, constant, softeningSquared, theta, root, mass, x, i)
                     && a == PullOfGroups(groups, x[i])
  }

  lemma OneMoreGroup(groups: seq<Group>, g: Group, target: Vec)
    ensures Together(groups + [g]) == Together(groups) + g.members
    ensures PullOfGroups(groups + [g], target)
            == Add(PullOfGroups(groups, target), PullTowards(g.strength, g.place, target))
  {
    assert (groups + [g])[..|groups|] == groups;
  }

  // ----- places that cannot be evaluated

  /** Two particles in one place, the second one with mass. */
  ghost predicate SharePlace(mass: seq<real>, x: seq<Vec>)
    requires |x| == |mass|
  {
    exists i, j :: 0 <= i < |x| && 0 <= j < |x| && i != j && x[i] == x[j] && mass[j] != 0.0
  }
}
