/** The padded bounding cube of a set of points, by a reduction whose order does not matter. */
module BoundingBox {
  import opened Vectors
  import opened BarnesHut

  /** The identity of the reduction, with its six infinities, or proper bounds. */
  datatype Bounds = Nothing | Bounds(low: Vec, high: Vec)

  function Min(a: real, b: real): real
  {
    if a <= b then a else b
  }

  function Max(a: real, b: real): real
  {
    if a <= b then b else a
  }

  function Combine(a: Bounds, b: Bounds): Bounds
  {
    if a.Nothing? then b
    else if b.Nothing? then a
    else Bounds(Vec(Min(a.low.x, b.low.x), Min(a.low.y, b.low.y), Min(a.low.z, b.low.z)),
                Vec(Max(a.high.x, b.high.x), Max(a.high.y, b.high.y), Max(a.high.z, b.high.z)))
  }

  /** Some way to combine bounds of single points, in any order and grouping. */
  datatype Reduction = Identity | One(index: nat) | Both(left: Reduction, right: Reduction)

  function Evaluate(points: seq<Vec>, r: Reduction): Bounds
  {
    match r
    case Identity => Nothing
    case One(i) => if i < |points| then Bounds(points[i], points[i]) else Nothing
    case Both(a, b) => Combine(Evaluate(points, a), Evaluate(points, b))
  }

  function Reduced(r: Reduction): set<nat>
  {
    match r
    case Identity => {}
    case One(i) => {i}
    case Both(a, b) => Reduced(a) + Reduced(b)
  }

  predicate Encloses(b: Bounds, p: Vec)
  {
    b.Bounds? && b.low.x <= p.x <= b.high.x && b.low.y <= p.y <= b.high.y && b.low.z <= p.z <= b.high.z
  }

  /** Bounds inside which all the points lie, and all other such bounds reach at least as far. */
  ghost predicate IsTight(b: Bounds, points: seq<Vec>, indices: set<nat>)
  {
    && (forall i :: i in indices && i < |points| ==> Encloses(b, points[i]))
    && (forall c: Bounds :: (forall i :: i in indices && i < |points| ==> Encloses(c, points[i])) ==> Within(b, c))
  }

  ghost predicate Within(b: Bounds, c: Bounds)
  {
    b.Bounds? ==> Encloses(c, b.low) && Encloses(c, b.high)
  }

  lemma WithinCombined(a: Bounds, b: Bounds, c: Bounds)
    requires Within(a, c) && Within(b, c)
    ensures Within(Combine(a, b), c)
  {
  }

  lemma CombinedEncloses(a: Bounds, b: Bounds, p: Vec)
    requires Encloses(a, p) || Encloses(b, p)
    requires a.Bounds? ==> Ordered(a)
    requires b.Bounds? ==> Ordered(b)
    ensures Encloses(Combine(a, b), p)
  {
  }

  ghost predicate Ordered(b: Bounds)
    requires b.Bounds?
  {
    b.low.x <= b.high.x && b.low.y <= b.high.y && b.low.z <= b.high.z
  }

  lemma {:induction false} ReductionIsOrdered(points: seq<Vec>, r: Reduction)
    ensures Evaluate(points, r).Bounds? ==> Ordered(Evaluate(points, r))
  {
    if r.Both? {
      ReductionIsOrdered(points, r.left);
      ReductionIsOrdered(points, r.right);
    }
  }

  /** Every reduction yields the tight bounds of the points it combines. */
  lemma {:induction false} ReductionIsTight(points: seq<Vec>, r: Reduction)
    ensures IsTight(Evaluate(points, r), points, Reduced(r))
  {
    if r.Both? {
      ReductionIsTight(points, r.left);
      ReductionIsTight(points, r.right);
      ReductionIsOrdered(points, r.left);
      ReductionIsOrdered(points, r.right);
      var a, b := Evaluate(points, r.left), Evaluate(points, r.right);
      forall i | i in Reduced(r) && i < |points|
        ensures Encloses(Combine(a, b), points[i])
      {
        CombinedEncloses(a, b, points[i]);
      }
      forall c: Bounds | forall i :: i in Reduced(r) && i < |points| ==> Encloses(c, points[i])
        ensures Within(Combine(a, b), c)
      {
        WithinCombined(a, b, c);
      }
    }
  }

  /** All reductions of the same points agree. */
  lemma ReductionsAgree(points: seq<Vec>, r: Reduction, s: Reduction)
    requires Reduced(r) == Reduced(s)
    ensures Evaluate(points, r) == Evaluate(points, s)
  {
    ReductionIsTight(points, r);
    ReductionIsTight(points, s);
    ReductionIsOrdered(points, r);
    ReductionIsOrdered(points, s);
    var a, b := Evaluate(points, r), Evaluate(points, s);
    assert Within(a, b) && Within(b, a);
  }

  // ----- the padded cube

  function AllPoints(n: nat): Reduction
  {
    if n == 0 then Identity else Both(AllPoints(n - 1), One(n - 1))
  }

  lemma {:induction false} AllPointsReduced(n: nat)
    ensures forall i: nat :: i in Reduced(AllPoints(n)) <==> i < n
  {
    if n > 0 {
      AllPointsReduced(n - 1);
      assert Reduced(AllPoints(n)) == Reduced(AllPoints(n - 1)) + Reduced(One(n - 1));
    }
  }

  function BoundsOf(points: seq<Vec>): Bounds
  {
    Evaluate(points, AllPoints(|points|))
  }

  function Extent(b: Bounds): real
    requires b.Bounds?
  {
    Max(Max(b.high.x - b.low.x, b.high.y - b.low.y), b.high.z - b.low.z)
  }

  /** The cube around the bounds: a tenth longer than the longest extent, never of side zero. */
  function PaddedCube(b: Bounds): Cube
    requires b.Bounds?
  {
    var side := 1.1 * Extent(b);
    Cube(Vec((b.low.x + b.high.x) * 0.5, (b.low.y + b.high.y) * 0.5, (b.low.z + b.high.z) * 0.5),
         (if side == 0.0 then 1.0 else side) * 0.5)
  }

  function RootCube(points: seq<Vec>): Cube
  {
    var b := BoundsOf(points);
    if b.Nothing? then Cube(ORIGIN, 0.5) else PaddedCube(b)
  }

  /** The device-side reduction over any grouping of all points; the empty set is refused. */
  method ComputeBox(points: seq<Vec>, grouping: Reduction) returns (ok: bool, box: Cube)
    requires forall i: nat :: i in Reduced(grouping) <==> i < |points|
    ensures ok <==> |points| > 0
    ensures ok ==> FitsSnugly(box, points)
    ensures ok ==> box == RootCube(points)
  {
    if |points| == 0 {
      return false, Cube(ORIGIN, 0.0);
    }
    var result := Evaluate(points, grouping);
    AllPointsReduced(|points|);
    assert Reduced(grouping) == Reduced(AllPoints(|points|));
    ReductionsAgree(points, grouping, AllPoints(|points|));
    PointsAreEnclosed(points, 0);
    BoundsFitTightly(points);
    RootCubeIsSnug(points, result.low, result.high);
    var center := Vec((result.low.x + result.high.x) * 0.5, (result.low.y + result.high.y) * 0.5,
                      (result.low.z + result.high.z) * 0.5);
    var side := 1.1 * Extent(result);
    if side == 0.0 {
      side := 1.0;
    }
    return true, Cube(center, side * 0.5);
  }

  lemma PointsAreEnclosed(points: seq<Vec>, i: nat)
    requires i < |points|
    ensures BoundsOf(points).Bounds? && Encloses(BoundsOf(points), points[i]) && Ordered(BoundsOf(points))
  {
    ReductionIsTight(points, AllPoints(|points|));
    AllPointsReduced(|points|);
    assert i in Reduced(AllPoints(|points|));
    ReductionIsOrdered(points, AllPoints(|points|));
  }

  // ----- bounds that are met, and a cube that is no larger than the padding asks for

  function OnAxis(v: Vec, axis: nat): real
  {
    if axis == 0 then v.x else if axis == 1 then v.y else v.z
  }

  /** Some point lies on the lower face across an axis. */
  lemma {:induction false} LowIsMet(points: seq<Vec>, n: nat, axis: nat) returns (i: nat)
    requires 0 < n <= |points|
    ensures i < n && Evaluate(points, AllPoints(n)).Bounds?
    ensures OnAxis(points[i], axis) == OnAxis(Evaluate(points, AllPoints(n)).low, axis)
  {
    i := n - 1;
    if n > 1 {
      var j := LowIsMet(points, n - 1, axis);
      if OnAxis(points[j], axis) <= OnAxis(points[i], axis) {
        i := j;
      }
    }
  }

  /** Some point lies on the upper face across an axis. */
  lemma {:induction false} HighIsMet(points: seq<Vec>, n: nat, axis: nat) returns (i: nat)
    requires 0 < n <= |points|
    ensures i < n && Evaluate(points, AllPoints(n)).Bounds?
    ensures OnAxis(points[i], axis) == OnAxis(Evaluate(points, AllPoints(n)).high, axis)
  {
    i := n - 1;
    if n > 1 {
      var j := HighIsMet(points, n - 1, axis);
      if OnAxis(points[j], axis) > OnAxis(points[i], axis) {
        i := j;
      }
    }
  }

  /** Bounds that hold all the points and are met on each of their six faces. */
  ghost predicate FitTightly(low: Vec, high: Vec, points: seq<Vec>)
  {
    && (forall i :: 0 <= i < |points| ==>
          && low.x <= points[i].x <= high.x && low.y <= points[i].y <= high.y && low.z <= points[i].z <= high.z)
    && (exists i :: 0 <= i < |points| && points[i].x == low.x)
    && (exists i :: 0 <= i < |points| && points[i].y == low.y)
    && (exists i :: 0 <= i < |points| && points[i].z == low.z)
    && (exists i :: 0 <= i < |points| && points[i].x == high.x)
    && (exists i :: 0 <= i < |points| && points[i].y == high.y)
    && (exists i :: 0 <= i < |points| && points[i].z == high.z)
  }

  lemma BoundsFitTightly(points: seq<Vec>)
    requires points != []
    ensures BoundsOf(points).Bounds? && FitTightly(BoundsOf(points).low, BoundsOf(points).high, points)
  {
    forall i | 0 <= i < |points|
      ensures BoundsOf(points).Bounds? && Encloses(BoundsOf(points), points[i])
    {
      PointsAreEnclosed(points, i);
    }
    var a := LowIsMet(points, |points|, 0);
    var b := LowIsMet(points, |points|, 1);
    var c := LowIsMet(points, |points|, 2);
    var d := HighIsMet(points, |points|, 0);
    var e := HighIsMet(points, |points|, 1);
    var f := HighIsMet(points, |points|, 2);
  }

  /** The cube is the smallest one that leaves its padding: its centre lies midway between the
      outermost points on every axis, and on some axis an outermost point uses up the cube but for
      the padding. Points that all coincide get the unit cube. */
  ghost predicate IsSnug(c: Cube, low: Vec, high: Vec)
  {
    && c.center.x - low.x == high.x - c.center.x
    && c.center.y - low.y == high.y - c.center.y
    && c.center.z - low.z == high.z - c.center.z
    && 1.1 * (high.x - c.center.x) <= c.half && 1.1 * (high.y - c.center.y) <= c.half
    && 1.1 * (high.z - c.center.z) <= c.half
    && (if low == high then c.half == 0.5
        else 1.1 * (high.x - c.center.x) == c.half || 1.1 * (high.y - c.center.y) == c.half
             || 1.1 * (high.z - c.center.z) == c.half)
  }

  ghost predicate FitsSnugly(c: Cube, points: seq<Vec>)
  {
    exists low, high :: FitTightly(low, high, points) && IsSnug(c, low, high)
  }

  lemma RootCubeIsSnug(points: seq<Vec>, low: Vec, high: Vec)
    requires points != [] && FitTightly(low, high, points)
    ensures IsSnug(RootCube(points), low, high)
  {
    BoundsFitTightly(points);
    TightIsUnique(points, low, high, BoundsOf(points).low, BoundsOf(points).high);
  }

  lemma TightIsUnique(points: seq<Vec>, low: Vec, high: Vec, low': Vec, high': Vec)
    requires FitTightly(low, high, points) && FitTightly(low', high', points)
    ensures low == low' && high == high'
  {
    assert low.x == low'.x && low.y == low'.y && low.z == low'.z;
    assert high.x == high'.x && high.y == high'.y && high.z == high'.z;
  }

  /** How far inside the cube a coordinate keeps: the padding is never used up. */
  predicate WellInside(c: real, half: real, a: real)
  {
    half > 0.0 && 1.1 * (a - c) <= half && 1.1 * (c - a) <= half
  }

  /** Every point keeps clear of the faces of the root cube by the padding. */
  lemma PointsKeepClear(points: seq<Vec>, i: nat)
    requires i < |points|
    ensures var c := RootCube(points);
            && WellInside(c.center.x, c.half, points[i].x)
            && WellInside(c.center.y, c.half, points[i].y)
            && WellInside(c.center.z, c.half, points[i].z)
  {
    PointsAreEnclosed(points, i);
  }
}
