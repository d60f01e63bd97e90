/** With opening angle zero the traversal is the direct sum over all other particles, in
    Morton order or in the original order alike; and how the result depends on the angle. */
module DirectSum {
  import opened OctreeBuilder
  import opened Forests
  import opened Vectors
  import opened Coverage
  import opened BarnesHut
  import opened Accounting

  /** The pull of the body at a position on the target; none of the target on itself. */
  function PullOf(w: Scene, s: nat): Vec
    requires w.target < |w.bodies|
  {
    if s == w.target || s >= |w.bodies| then ORIGIN
    else Pull(w.gravity, TargetPosition(w), w.bodies[s])
  }

  function PullSum(w: Scene, positions: seq<nat>): Vec
    requires w.target < |w.bodies|
  {
    if positions == [] then ORIGIN
    else Add(PullSum(w, positions[..|positions| - 1]), PullOf(w, positions[|positions| - 1]))
  }

  /** The all-pairs sum for one target. */
  function AllPairs(w: Scene): Vec
    requires w.target < |w.bodies|
  {
    PullSum(w, Positions(0, |w.bodies|))
  }

  lemma PullSumSnoc(w: Scene, positions: seq<nat>, s: nat)
    requires w.target < |w.bodies|
    ensures PullSum(w, positions + [s]) == Add(PullSum(w, positions), PullOf(w, s))
  {
    assert (positions + [s])[..|positions|] == positions;
  }

  lemma {:induction false} PullSumConcat(w: Scene, a: seq<nat>, b: seq<nat>)
    requires w.target < |w.bodies|
    ensures PullSum(w, a + b) == Add(PullSum(w, a), PullSum(w, b))
  {
    if b == [] {
      assert a + b == a;
    } else {
      var front, last := b[..|b| - 1], b[|b| - 1];
      assert a + b == a + front + [last];
      PullSumSnoc(w, a + front, last);
      PullSumConcat(w, a, front);
      AddIsAssociative(PullSum(w, a), PullSum(w, front), PullOf(w, last));
      PullSumLast(w, b);
    }
  }

  lemma AddIsAssociative(a: Vec, b: Vec, c: Vec)
    ensures Add(Add(a, b), c) == Add(a, Add(b, c))
  {
  }

  lemma PullSumLast(w: Scene, positions: seq<nat>)
    requires w.target < |w.bodies| && positions != []
    ensures PullSum(w, positions)
            == Add(PullSum(w, positions[..|positions| - 1]), PullOf(w, positions[|positions| - 1]))
  {
  }

  lemma PullSumOne(w: Scene, s: nat)
    requires w.target < |w.bodies|
    ensures PullSum(w, [s]) == PullOf(w, s)
  {
    assert [s][..0] == [];
  }

  /** The order of summation does not matter. */
  lemma {:induction false} PullSumPermutes(w: Scene, a: seq<nat>, b: seq<nat>)
    requires w.target < |w.bodies| && multiset(a) == multiset(b)
    ensures PullSum(w, a) == PullSum(w, b)
    decreases |a|
  {
    if a == [] {
      assert |multiset(b)| == |b|;
    } else {
      var front, x := a[..|a| - 1], a[|a| - 1];
      assert a == front + [x];
      assert x in multiset(b);
      var j :| 0 <= j < |b| && b[j] == x;
      var left, right := b[..j], b[j + 1..];
      assert b == left + [x] + right;
      WithoutOne(front, x, left, right);
      calc {
        PullSum(w, a);
        { PullSumPermutes(w, front, left + right); }
        Add(PullSum(w, left + right), PullOf(w, x));
        { PullSumConcat(w, left, right); }
        Add(Add(PullSum(w, left), PullSum(w, right)), PullOf(w, x));
        { SwapLast(PullSum(w, left), PullSum(w, right), PullOf(w, x)); }
        Add(Add(PullSum(w, left), PullOf(w, x)), PullSum(w, right));
        { PullSumSnoc(w, left, x); }
        Add(PullSum(w, left + [x]), PullSum(w, right));
        { PullSumConcat(w, left + [x], right); }
        PullSum(w, b);
      }
    }
  }

  lemma SwapLast(a: Vec, b: Vec, c: Vec)
    ensures Add(Add(a, b), c) == Add(Add(a, c), b)
  {
  }

  lemma OnceEachIsPermutation(members: seq<nat>, n: nat)
    requires EachOnce(members, n)
    ensures multiset(members) == multiset(Positions(0, n))
  {
    forall s: nat
      ensures multiset(members)[s] == multiset(Positions(0, n))[s]
    {
      CountInRange(0, n, s);
      assert Count(s, members) == if s < n then 1 else 0;
    }
  }

  // ----- opening angle zero

  lemma {:induction false} MasslessPullNothing(w: Scene, positions: seq<nat>)
    requires w.target < |w.bodies|
    requires forall s :: s in positions ==> MassAt(w.bodies, s) == 0.0
    ensures PullSum(w, positions) == ORIGIN
  {
    if positions != [] {
      MasslessPullNothing(w, positions[..|positions| - 1]);
      assert positions[|positions| - 1] in positions;
    }
  }

  lemma {:induction false} NoMassInMassless(bodies: seq<Body>, positions: seq<nat>, s: nat)
    requires forall b :: 0 <= b < |bodies| ==> bodies[b].mass >= 0.0
    requires MassOf(bodies, positions) <= 0.0 && s in positions
    ensures MassAt(bodies, s) == 0.0
    decreases positions
  {
    var front, last := positions[..|positions| - 1], positions[|positions| - 1];
    MassNotNegative(bodies, front);
    assert positions == front + [last];
    if s in front {
      NoMassInMassless(bodies, front, s);
    }
  }

  lemma {:induction false} MassNotNegative(bodies: seq<Body>, positions: seq<nat>)
    requires forall b :: 0 <= b < |bodies| ==> bodies[b].mass >= 0.0
    ensures MassOf(bodies, positions) >= 0.0
  {
    if positions != [] {
      MassNotNegative(bodies, positions[..|positions| - 1]);
    }
  }

  lemma SourcelessPullsNothing(w: Scene, item: Item)
    requires w.target < |w.bodies| && (item.Self? || item.Massless?)
    ensures Pull(w.gravity, TargetPosition(w), Source(w, item)) == ORIGIN
  {
  }

  lemma PointPullsLikeItsPosition(w: Scene, s: nat)
    requires w.target < |w.bodies| && s != w.target
    ensures Pull(w.gravity, TargetPosition(w), Source(w, Point(s))) == PullOf(w, s)
  {
  }

  /** Without accepted nodes an item pulls like the positions it disposes of. */
  lemma PullOfItem(w: Scene, item: Item, n: nat)
    requires SceneCovers(w, n) && Sound(w, item, n) && w.gravity.theta <= 0.0
    requires forall s :: 0 <= s < |w.bodies| ==> w.bodies[s].mass >= 0.0
    requires item.Massless? ==> WeighedTree(w, item.tree)
    ensures Pull(w.gravity, TargetPosition(w), Source(w, item)) == PullSum(w, Expand(item))
  {
    match item
    case Point(s) =>
      PointPullsLikeItsPosition(w, s);
      PullSumOne(w, s);
    case Self(s) =>
      SourcelessPullsNothing(w, item);
      PullSumOne(w, s);
    case Massless(t) =>
      SourcelessPullsNothing(w, item);
      MasslessTreePullsNothing(w, t);
    case Cluster(t) => assert false;
  }

  lemma MasslessTreePullsNothing(w: Scene, t: Tree)
    requires w.target < |w.bodies| && WeighedTree(w, t) && w.moments[t.id].mass == 0.0
    requires forall s :: 0 <= s < |w.bodies| ==> w.bodies[s].mass >= 0.0
    ensures PullSum(w, Members(t)) == ORIGIN
  {
    forall s | s in Members(t)
      ensures MassAt(w.bodies, s) == 0.0
    {
      NoMassInMassless(w.bodies, Members(t), s);
    }
    MasslessPullNothing(w, Members(t));
  }

  lemma {:induction false} TotalIsPullSum(w: Scene, items: seq<Item>, n: nat)
    requires SceneCovers(w, n) && AllSound(w, items, n) && Weighed(w, items) && w.gravity.theta <= 0.0
    ensures Total(w, items) == PullSum(w, ExpandAll(items))
  {
    if items != [] {
      var front, last := items[..|items| - 1], items[|items| - 1];
      TotalIsPullSum(w, front, n);
      PullOfItem(w, last, n);
      PullSumConcat(w, ExpandAll(front), Expand(last));
    }
  }

  /** Opening angle zero: the traversal of any octree that shares out the particles gives the
      all-pairs sum. */
  lemma ZeroAngleIsAllPairs(w: Scene, o: Octree)
    requires PhysicalScene(w, o) && w.gravity.theta <= 0.0
    ensures Total(w, TreeItems(w, TreeAt(o, 0))) == AllPairs(w)
  {
    var items := TreeItems(w, TreeAt(o, 0));
    TreeIdsCovered(o, 0);
    TreeItemsSound(w, TreeAt(o, 0), |o.nodes|);
    ItemsAreWeighed(w, o);
    TotalIsPullSum(w, items, |o.nodes|);
    EachParticleOnce(w, o, |w.bodies|);
    OnceEachIsPermutation(ExpandAll(items), |w.bodies|);
    PullSumPermutes(w, ExpandAll(items), Positions(0, |w.bodies|));
  }

  // ----- Morton order and original order

  /** The bodies gathered into Morton order. */
  function Gathered(data: seq<Body>, order: seq<nat>): (bodies: seq<Body>)
    requires |order| == |data| && IsOrder(order)
    ensures |bodies| == |data|
  {
    seq(|data|, s requires 0 <= s < |data| => data[order[s]])
  }

  lemma {:induction false} OrderOnceEach(order: seq<nat>)
    requires IsOrder(order)
    ensures EachOnce(order, |order|)
  {
    forall s: nat
      ensures Count(s, order) == if s < |order| then 1 else 0
    {
      if s < |order| {
        OrderHits(order, s);
        CountDistinct(order, s);
      }
    }
  }

  lemma {:induction false} CountDistinct(order: seq<nat>, s: nat)
    requires forall i, j :: 0 <= i < j < |order| ==> order[i] != order[j]
    ensures Count(s, order) == if s in order then 1 else 0
  {
    if order != [] {
      var front, last := order[..|order| - 1], order[|order| - 1];
      assert order == front + [last];
      CountDistinct(front, s);
    }
  }

  /** n distinct indices below n leave none out. */
  lemma OrderHits(order: seq<nat>, s: nat)
    requires IsOrder(order) && s < |order|
    ensures s in order
  {
    if s !in order {
      DistinctBelow(order, |order|, s);
    }
  }

  lemma {:induction false} DistinctBelow(order: seq<nat>, n: nat, missing: nat)
    requires forall i :: 0 <= i < |order| ==> order[i] < n
    requires forall i, j :: 0 <= i < j < |order| ==> order[i] != order[j]
    requires missing < n && missing !in order
    ensures |order| < n
    decreases n
  {
    var top := n - 1;
    if top in order {
      var k :| 0 <= k < |order| && order[k] == top;
      var rest := order[..k] + order[k + 1..];
      DistinctBelow(rest, n - 1, missing);
    } else if missing < top {
      DistinctBelow(order, n - 1, missing);
    } else if order != [] {
      assert order[0] < top;
      BoundedDistinct(order, top);
    }
  }

  lemma {:induction false} BoundedDistinct(order: seq<nat>, n: nat)
    requires forall i :: 0 <= i < |order| ==> order[i] < n
    requires forall i, j :: 0 <= i < j < |order| ==> order[i] != order[j]
    ensures |order| <= n
    decreases n
  {
    assert order != [] ==> order[0] < n;
    if n > 0 && n - 1 in order {
      var k :| 0 <= k < |order| && order[k] == n - 1;
      BoundedDistinct(order[..k] + order[k + 1..], n - 1);
    } else if n > 0 {
      BoundedDistinct(order, n - 1);
    }
  }

  lemma GatheredPull(w: Scene, v: Scene, order: seq<nat>, s: nat)
    requires IsOrder(order) && |order| == |v.bodies| && s < |order|
    requires w.bodies == Gathered(v.bodies, order) && w.gravity == v.gravity
    requires w.target < |w.bodies| && v.target == order[w.target]
    ensures PullOf(w, s) == PullOf(v, order[s])
  {
  }

  lemma {:induction false} SamePulls(w: Scene, v: Scene, a: seq<nat>, b: seq<nat>)
    requires w.target < |w.bodies| && v.target < |v.bodies| && |a| == |b|
    requires forall i :: 0 <= i < |a| ==> PullOf(w, a[i]) == PullOf(v, b[i])
    ensures PullSum(w, a) == PullSum(v, b)
  {
    if a != [] {
      var n := |a| - 1;
      SamePulls(w, v, a[..n], b[..n]);
      assert PullOf(w, a[n]) == PullOf(v, b[n]);
      PullSumLast(w, a);
      PullSumLast(v, b);
    }
  }

  lemma {:induction false} PositionsAt(n: nat)
    ensures |Positions(0, n)| == n && forall i :: 0 <= i < n ==> Positions(0, n)[i] == i
  {
    if n > 0 {
      PositionsAt(n - 1);
    }
  }

  /** Gathering the bodies into Morton order does not change the all-pairs sum. */
  lemma GatheringKeepsAllPairs(w: Scene, v: Scene, order: seq<nat>)
    requires IsOrder(order) && |order| == |v.bodies|
    requires w.bodies == Gathered(v.bodies, order) && w.gravity == v.gravity
    requires w.target < |w.bodies| && v.target == order[w.target]
    ensures AllPairs(w) == AllPairs(v)
  {
    PositionsAt(|order|);
    forall s | 0 <= s < |order|
      ensures PullOf(w, Positions(0, |order|)[s]) == PullOf(v, order[s])
    {
      GatheredPull(w, v, order, s);
    }
    SamePulls(w, v, Positions(0, |order|), order);
    OrderOnceEach(order);
    OnceEachIsPermutation(order, |order|);
    PullSumPermutes(v, order, Positions(0, |order|));
  }
}
