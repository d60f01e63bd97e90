/** What the force law and the acceptance test mean in space: pulls follow Newton's law, and a node
    that is taken as a point mass appears small from its target. */
module FarField {
  import opened Forests
  import opened Vectors
  import opened BarnesHut
  import opened Accounting
  import opened Moments
  import opened SpatialStructure
  import opened Pipeline
  import opened Forces

  // ----- the law of gravity

  /** The pull is along the line to the source, towards it for positive constant and mass, and
      its factor squared times the cube of the softened squared distance is the constant times
      the mass squared. */
  lemma PullIsNewtonian(p: Gravity, target: Vec, source: Body, distanceSquared: real) returns (k: real)
    requires distanceSquared == SquaredNorm(Sub(source.position, target)) + p.softeningSquared
    requires p.inverseDistance(distanceSquared) > 0.0
    requires p.inverseDistance(distanceSquared) * p.inverseDistance(distanceSquared) * distanceSquared == 1.0
    ensures Pull(p, target, source) == Scale(k, Sub(source.position, target))
    ensures p.constant * source.mass > 0.0 ==> k > 0.0
    ensures (k * k) * (distanceSquared * distanceSquared * distanceSquared)
            == (p.constant * source.mass) * (p.constant * source.mass)
  {
    var inverse, strength := p.inverseDistance(distanceSquared), p.constant * source.mass;
    k := strength * (inverse * inverse * inverse);
    FactorIsNewtonian(strength, inverse, distanceSquared, k);
    if source.mass == 0.0 {
      NoStrength(p.constant, Sub(source.position, target), inverse * inverse * inverse);
    }
  }

  lemma FactorIsNewtonian(strength: real, inverse: real, r: real, k: real)
    requires inverse > 0.0 && inverse * inverse * r == 1.0 && k == strength * (inverse * inverse * inverse)
    ensures strength > 0.0 ==> k > 0.0
    ensures (k * k) * (r * r * r) == strength * strength
  {
    var square, cube := inverse * inverse, inverse * inverse * inverse;
    ProductOfPositive(inverse, inverse, square);
    ProductOfPositive(square, inverse, cube);
    if strength > 0.0 {
      ProductOfPositive(strength, cube, k);
    }
    CubeCancels(strength, inverse, r, square, k);
  }

  lemma NoStrength(g: real, d: Vec, cubed: real)
    ensures (g * 0.0) * cubed == 0.0 && Scale(0.0, d) == ORIGIN
  {
  }

  lemma CubeCancels(strength: real, inverse: real, r: real, square: real, k: real)
    requires square == inverse * inverse && square * r == 1.0 && k == strength * (square * inverse)
    ensures (k * k) * (r * r * r) == strength * strength
  {
    var one := square * r;
    Spread(strength, inverse, r, square, one);
    assert one * one * one == 1.0;
  }

  lemma Spread(s: real, i: real, r: real, q: real, qr: real)
    requires q == i * i && qr == q * r
    ensures (s * (q * i)) * (s * (q * i)) * (r * r * r) == (s * s) * (qr * qr * qr)
  {
    var c, rrr := q * i, r * r * r;
    assert (s * c) * (s * c) == (s * s) * (c * c);
    assert c * c == q * q * q;
    assert (q * q * q) * rrr == qr * qr * qr;
  }

  // ----- distances

  /** Makes the square root of a number available. */
  predicate UseRoot(x: real)
  {
    true
  }

  /** The square root is one, on all squared distances. */
  ghost predicate IsSquareRoot(root: real -> real)
  {
    forall x: real {:trigger UseRoot(x)} :: UseRoot(x) && x >= 0.0 ==> root(x) >= 0.0 && root(x) * root(x) == x
  }

  lemma SquareOfRoot(root: real -> real, x: real)
    requires IsSquareRoot(root) && x >= 0.0
    ensures root(x) >= 0.0 && root(x) * root(x) == x
  {
    assert UseRoot(x);
  }

  function Dot(a: Vec, b: Vec): real
  {
    a.x * b.x + a.y * b.y + a.z * b.z
  }

  function Cross(a: Vec, b: Vec): Vec
  {
    Vec(a.y * b.z - a.z * b.y, a.z * b.x - a.x * b.z, a.x * b.y - a.y * b.x)
  }

  lemma SquareIsNotNegative(r: real)
    ensures r * r >= 0.0
  {
    SameSigns(r, r, r * r);
  }

  lemma NormIsNotNegative(a: Vec)
    ensures SquaredNorm(a) >= 0.0
  {
    SquareIsNotNegative(a.x);
    SquareIsNotNegative(a.y);
    SquareIsNotNegative(a.z);
  }

  lemma Lagrange(a: Vec, b: Vec)
    ensures SquaredNorm(a) * SquaredNorm(b) == Dot(a, b) * Dot(a, b) + SquaredNorm(Cross(a, b))
  {
  }

  lemma SmallerSquare(a: real, b: real)
    requires b >= 0.0 && a * a <= b * b
    ensures a <= b
  {
    assert (a - b) * (a + b) == a * a - b * b;
    if a > b {
      ProductOfPositive(a - b, a + b, (a - b) * (a + b));
    }
  }

  lemma DotIsBounded(a: Vec, b: Vec, la: real, lb: real)
    requires la >= 0.0 && lb >= 0.0 && la * la == SquaredNorm(a) && lb * lb == SquaredNorm(b)
    ensures Dot(a, b) <= la * lb
  {
    Lagrange(a, b);
    NormIsNotNegative(Cross(a, b));
    assert (la * lb) * (la * lb) == (la * la) * (lb * lb);
    SmallerSquare(Dot(a, b), la * lb);
  }

  lemma NormOfSum(a: Vec, b: Vec)
    ensures SquaredNorm(Add(a, b)) == SquaredNorm(a) + 2.0 * Dot(a, b) + SquaredNorm(b)
  {
  }

  lemma TriangleInequality(a: Vec, b: Vec, la: real, lb: real, l: real)
    requires la >= 0.0 && lb >= 0.0 && la * la == SquaredNorm(a) && lb * lb == SquaredNorm(b)
    requires l * l == SquaredNorm(Add(a, b))
    ensures l <= la + lb
  {
    NormOfSum(a, b);
    DotIsBounded(a, b, la, lb);
    assert (la + lb) * (la + lb) == la * la + 2.0 * (la * lb) + lb * lb;
    SmallerSquare(l, la + lb);
  }

  /** With a true square root the distance of a sum of vectors is no more than the sum of their
      distances. */
  lemma RootOfSum(root: real -> real, a: Vec, b: Vec)
    requires IsSquareRoot(root)
    ensures root(SquaredNorm(Add(a, b))) <= root(SquaredNorm(a)) + root(SquaredNorm(b))
  {
    NormIsNotNegative(a);
    NormIsNotNegative(b);
    NormIsNotNegative(Add(a, b));
    SquareOfRoot(root, SquaredNorm(a));
    SquareOfRoot(root, SquaredNorm(b));
    SquareOfRoot(root, SquaredNorm(Add(a, b)));
    TriangleInequality(a, b, root(SquaredNorm(a)), root(SquaredNorm(b)), root(SquaredNorm(Add(a, b))));
  }

  // ----- the acceptance test

  /** The distance between two places. */
  function Distance(p: Gravity, a: Vec, b: Vec): real
  {
    p.squareRoot(SquaredNorm(Sub(a, b)))
  }

  lemma SquareOfDistance(p: Gravity, a: Vec, b: Vec)
    requires IsSquareRoot(p.squareRoot)
    ensures Distance(p, a, b) >= 0.0 && Distance(p, a, b) * Distance(p, a, b) == SquaredNorm(Sub(a, b))
  {
    NormIsNotNegative(Sub(a, b));
    SquareOfRoot(p.squareRoot, SquaredNorm(Sub(a, b)));
  }

  lemma QuotientBelow(length: real, theta: real, d: real)
    requires theta > 0.0 && length / theta < d
    ensures length < theta * d
  {
    var q := length / theta;
    assert q * theta == length;
    ProductOfPositive(d - q, theta, (d - q) * theta);
    assert (d - q) * theta == theta * d - length;
  }

  /** The acceptance test without the check that the node does not contain the target. */
  predicate FarEnough(p: Gravity, c: Cube, m: Moment, target: Vec)
  {
    && SquaredNorm(Sub(m.center, target)) > 0.0 && p.theta > 0.0
    && Distance(p, m.center, target) > 2.0 * c.half / p.theta + Distance(p, m.center, c.center)
  }

  lemma FarNodeAppearsSmall(p: Gravity, c: Cube, m: Moment, target: Vec)
    requires IsSquareRoot(p.squareRoot) && FarEnough(p, c, m, target)
    ensures 2.0 * c.half < p.theta * Distance(p, m.center, target)
    ensures 2.0 * c.half < p.theta * Distance(p, c.center, target)
  {
    var off, away := Sub(m.center, c.center), Sub(c.center, target);
    assert Add(off, away) == Sub(m.center, target);
    RootOfSum(p.squareRoot, off, away);
    SquareOfDistance(p, m.center, c.center);
    QuotientBelow(2.0 * c.half, p.theta, Distance(p, m.center, target));
    QuotientBelow(2.0 * c.half, p.theta, Distance(p, c.center, target));
  }

  /** A node that is accepted appears smaller than the opening angle, both from its centre of mass
      and from its own centre, however far these lie apart. */
  lemma AcceptedNodeAppearsSmall(p: Gravity, c: Cube, m: Moment, target: Vec)
    requires IsSquareRoot(p.squareRoot) && Accepts(p, c, m, target)
    ensures 2.0 * c.half < p.theta * Distance(p, m.center, target)
    ensures 2.0 * c.half < p.theta * Distance(p, c.center, target)
  {
    FarNodeAppearsSmall(p, c, m, target);
  }

  lemma QuotientExactly(length: real, theta: real, d: real)
    requires theta > 0.0
    ensures length / theta < d <==> length < theta * d
  {
    if length / theta < d {
      QuotientBelow(length, theta, d);
    }
    if length < theta * d {
      QuotientOver(length, theta, d);
    }
  }

  lemma FarIsApart(p: Gravity, m: Vec, c: Vec, target: Vec, length: real)
    requires IsSquareRoot(p.squareRoot) && p.theta > 0.0 && length > 0.0
    requires length / p.theta < Distance(p, m, target) - Distance(p, m, c)
    ensures SquaredNorm(Sub(m, target)) > 0.0
  {
    SquareOfDistance(p, m, target);
    SquareOfDistance(p, m, c);
    var d := Distance(p, m, target);
    Positive(1.0 / p.theta, p.theta, 1.0);
    ProductOfPositive(1.0 / p.theta, length, length / p.theta);
    ProductOfPositive(d, d, d * d);
  }

  /** For every opening angle: a node is accepted exactly if the target lies outside its cube and the
      cube appears smaller than the angle from a point as much nearer as the node's two centres
      lie apart. */
  lemma AcceptsExactly(p: Gravity, c: Cube, m: Moment, target: Vec)
    requires IsSquareRoot(p.squareRoot) && c.half > 0.0
    ensures Accepts(p, c, m, target)
            <==> && p.theta > 0.0 && !Contains(c, target)
                 && 2.0 * c.half < p.theta * (Distance(p, m.center, target) - Distance(p, m.center, c.center))
  {
    if p.theta > 0.0 {
      var d := Distance(p, m.center, target) - Distance(p, m.center, c.center);
      QuotientExactly(2.0 * c.half, p.theta, d);
      if 2.0 * c.half / p.theta < d {
        FarIsApart(p, m.center, c.center, target, 2.0 * c.half);
      }
    }
  }

  /** The same of a node that the traversal of a scene takes as a point mass. */
  ghost predicate AppearsSmall(w: Scene, t: Tree)
  {
    && t.Node? && t.id < |w.cubes| && t.id < |w.moments| && w.target < |w.bodies|
    && 2.0 * w.cubes[t.id].half < w.gravity.theta * Distance(w.gravity, w.moments[t.id].center, TargetPosition(w))
    && 2.0 * w.cubes[t.id].half < w.gravity.theta * Distance(w.gravity, w.cubes[t.id].center, TargetPosition(w))
  }

  lemma SoundClusterAppearsSmall(w: Scene, item: Item, n: nat)
    requires SceneCovers(w, n) && Sound(w, item, n) && item.Cluster? && IsSquareRoot(w.gravity.squareRoot)
    ensures AppearsSmall(w, item.tree)
  {
    var id := item.tree.id;
    AcceptedNodeAppearsSmall(w.gravity, w.cubes[id], w.moments[id], TargetPosition(w));
  }

  /** End to end: whatever node the traversal takes as a point mass appears smaller than the
      opening angle from the target, seen from both of its centres. */
  lemma PointMassesAppearSmall(gravity: Gravity, data: seq<Body>, target: nat, k: nat)
    requires Populated(data) && NoNegativeMass(data) && target < |data| && IsSquareRoot(gravity.squareRoot)
    requires k < |ItemsOn(gravity, data, target)| && ItemsOn(gravity, data, target)[k].Cluster?
    ensures AppearsSmall(SceneFor(gravity, data, target), ItemsOn(gravity, data, target)[k].tree)
  {
    var w, o, items := SceneFor(gravity, data, target), OctreeOfBodies(data), ItemsOn(gravity, data, target);
    SceneIsPhysical(gravity, data, target);
    PhysicalItemsAreSound(w, o);
    SoundClusterAppearsSmall(w, items[k], |o.nodes|);
  }

  // ----- what the containment test adds

  /** The opening angle exceeds two over the square root of three. */
  predicate Wide(theta: real)
  {
    3.0 * (theta * theta) > 4.0
  }

  ghost predicate WouldAbsorb(p: Gravity, c: Cube, m: Moment, target: Vec)
  {
    c.half > 0.0 && Contains(c, target) && FarEnough(p, c, m, target)
  }

  lemma CoordinateInCube(c: real, half: real, a: real)
    requires Abs(a - c) <= half
    ensures (c - a) * (c - a) <= half * half
  {
    SmallerOfSquares(Abs(a - c), half);
    assert Abs(a - c) * Abs(a - c) == (c - a) * (c - a);
  }

  lemma SmallerOfSquares(a: real, b: real)
    requires 0.0 <= a <= b
    ensures a * a <= b * b
  {
    assert (b - a) * (b + a) == b * b - a * a;
    if b > a {
      ProductOfPositive(b - a, b + a, (b - a) * (b + a));
    }
  }

  lemma CornersAreFarthest(c: Cube, target: Vec)
    requires Contains(c, target)
    ensures SquaredNorm(Sub(c.center, target)) <= 3.0 * (c.half * c.half)
  {
    CoordinateInCube(c.center.x, c.half, target.x);
    CoordinateInCube(c.center.y, c.half, target.y);
    CoordinateInCube(c.center.z, c.half, target.z);
  }

  lemma NearCubeAppearsLarge(theta: real, half: real, d: real, tt: real, hh: real, dd: real)
    requires tt == theta * theta && hh == half * half && dd == d * d
    requires theta > 0.0 && half > 0.0 && d >= 0.0 && 2.0 * half < theta * d && dd <= 3.0 * hh
    ensures 3.0 * tt > 4.0
  {
    var seen := theta * d;
    ProductOfPositive(seen - 2.0 * half, seen + 2.0 * half, (seen - 2.0 * half) * (seen + 2.0 * half));
    assert (seen - 2.0 * half) * (seen + 2.0 * half) == seen * seen - 4.0 * hh;
    assert seen * seen == tt * dd;
    ProductOfPositive(theta, theta, tt);
    ScaledOrder(tt, dd, 3.0 * hh, tt * dd, tt * (3.0 * hh));
    ProductOfPositive(half, half, hh);
    var excess := (3.0 * tt - 4.0) * hh;
    assert tt * (3.0 * hh) - 4.0 * hh == excess;
    Positive(3.0 * tt - 4.0, hh, excess);
  }

  lemma ScaledOrder(k: real, a: real, b: real, ka: real, kb: real)
    requires k > 0.0 && a <= b && ka == k * a && kb == k * b
    ensures ka <= kb
  {
  }

  lemma Positive(a: real, b: real, product: real)
    requires b > 0.0 && product == a * b && product > 0.0
    ensures a > 0.0
  {
  }

  /** A cube whose mass is concentrated in its middle, and a target in one of its corners. */
  ghost predicate InCorner(c: Cube, m: Moment, target: Vec)
  {
    && c.half == 1.0 && Contains(c, target)
    && SquaredNorm(Sub(m.center, target)) == 3.0 && SquaredNorm(Sub(m.center, c.center)) == 0.0
  }

  lemma UnitCorner() returns (c: Cube, m: Moment, target: Vec)
    ensures InCorner(c, m, target)
  {
    c, m, target := Cube(ORIGIN, 1.0), Moment(1.0, ORIGIN), Vec(1.0, 1.0, 1.0);
  }

  lemma RootsOfCorner(root: real -> real)
    requires IsSquareRoot(root)
    ensures root(3.0) >= 0.0 && root(3.0) * root(3.0) == 3.0 && root(0.0) == 0.0
  {
    SquareOfRoot(root, 3.0);
    SquareOfRoot(root, 0.0);
    NoRoot(root(0.0));
  }

  lemma CornerPasses(p: Gravity, c: Cube, m: Moment, target: Vec, d: real, quotient: real)
    requires InCorner(c, m, target) && d == p.squareRoot(3.0) && p.squareRoot(0.0) == 0.0
    requires p.theta > 0.0 && quotient == 2.0 / p.theta && d > quotient
    ensures WouldAbsorb(p, c, m, target)
  {
    assert Distance(p, m.center, target) == d && Distance(p, m.center, c.center) == 0.0;
    assert 2.0 * c.half == 2.0;
  }

  lemma CornerIsSeen(p: Gravity, d: real, quotient: real)
    requires IsSquareRoot(p.squareRoot) && p.theta > 0.0 && Wide(p.theta)
    requires d == p.squareRoot(3.0) && quotient == 2.0 / p.theta
    ensures d > quotient && p.squareRoot(0.0) == 0.0
  {
    RootsOfCorner(p.squareRoot);
    CornerIsFar(p.theta, d, p.theta * d, p.theta * p.theta, d * d);
    QuotientOver(2.0, p.theta, d);
  }

  lemma CornerAbsorbs(p: Gravity, d: real, quotient: real) returns (c: Cube, m: Moment, target: Vec)
    requires d == p.squareRoot(3.0) && p.squareRoot(0.0) == 0.0
    requires p.theta > 0.0 && quotient == 2.0 / p.theta && d > quotient
    ensures WouldAbsorb(p, c, m, target)
  {
    c, m, target := UnitCorner();
    CornerPasses(p, c, m, target, d, quotient);
  }

  lemma AbsorbingCorner(p: Gravity) returns (c: Cube, m: Moment, target: Vec)
    requires IsSquareRoot(p.squareRoot) && p.theta > 0.0 && Wide(p.theta)
    ensures WouldAbsorb(p, c, m, target)
  {
    var d, quotient := p.squareRoot(3.0), 2.0 / p.theta;
    CornerIsSeen(p, d, quotient);
    c, m, target := CornerAbsorbs(p, d, quotient);
  }

  lemma NoRoot(r: real)
    requires r * r == 0.0
    ensures r == 0.0
  {
    SameSigns(r, r, r * r);
  }

  lemma CornerIsFar(theta: real, d: real, seen: real, tt: real, dd: real)
    requires theta > 0.0 && d >= 0.0 && seen == theta * d && tt == theta * theta && dd == d * d
    requires dd == 3.0 && 3.0 * tt > 4.0
    ensures seen > 2.0
  {
    assert seen * seen == tt * dd == 3.0 * tt;
    ScaledOrder(theta, 0.0, d, 0.0, seen);
    if seen <= 2.0 {
      SmallerOfSquares(seen, 2.0);
    }
  }

  lemma QuotientOver(length: real, theta: real, d: real)
    requires theta > 0.0 && theta * d > length
    ensures length / theta < d
  {
    var q := length / theta;
    assert q * theta == length;
    assert (d - q) * theta == theta * d - length;
    Positive(d - q, theta, (d - q) * theta);
  }

  lemma SeenFromInside(c: Cube, target: Vec, theta: real, d: real)
    requires theta > 0.0 && c.half > 0.0 && Contains(c, target)
    requires d >= 0.0 && d * d == SquaredNorm(Sub(c.center, target)) && 2.0 * c.half < theta * d
    ensures Wide(theta)
  {
    CornersAreFarthest(c, target);
    NearCubeAppearsLarge(theta, c.half, d, theta * theta, c.half * c.half, d * d);
  }

  lemma NoneWouldBeAbsorbed(p: Gravity, c: Cube, m: Moment, target: Vec)
    requires IsSquareRoot(p.squareRoot) && WouldAbsorb(p, c, m, target)
    ensures Wide(p.theta)
  {
    FarNodeAppearsSmall(p, c, m, target);
    SquareOfDistance(p, c.center, target);
    SeenFromInside(c, target, p.theta, Distance(p, c.center, target));
  }

  /** The acceptance test needs its check for the target exactly for wide opening angles; for
      smaller ones no node that contains the target passes the distance test. */
  lemma ContainmentTestMatters(p: Gravity)
    requires IsSquareRoot(p.squareRoot) && p.theta > 0.0
    ensures (exists c, m, target :: WouldAbsorb(p, c, m, target)) <==> Wide(p.theta)
  {
    if c, m, target :| WouldAbsorb(p, c, m, target) {
      NoneWouldBeAbsorbed(p, c, m, target);
    }
    if Wide(p.theta) {
      var c, m, target := AbsorbingCorner(p);
    }
  }

  /** Up to that angle the acceptance test is the distance test alone. */
  lemma AcceptsByDistance(p: Gravity, c: Cube, m: Moment, target: Vec)
    requires IsSquareRoot(p.squareRoot) && c.half > 0.0 && !Wide(p.theta)
    ensures Accepts(p, c, m, target) <==> FarEnough(p, c, m, target)
  {
    if FarEnough(p, c, m, target) && Contains(c, target) {
      NoneWouldBeAbsorbed(p, c, m, target);
    }
  }
}
