/** Barnes-Hut evaluation: the recursive open-or-accept traversal of the octree for one target,
    and the stackless kernel that refines it. */
module BarnesHut {
  import opened Ints
  import opened OctreePlan
  import opened OctreeBuilder
  import opened OctreeTrees
  import opened Forests
  import opened Vectors

  /** Parameters of the force law. The square root and the inverse distance as a function of
      the squared distance are given, so that no rounding or approximation of them matters. */
  datatype Gravity = Gravity(theta: real, softeningSquared: real, constant: real,
                             squareRoot: real -> real, inverseDistance: real -> real)

  datatype Cube = Cube(center: Vec, half: real)
  datatype Moment = Moment(mass: real, center: Vec)

  /** What one thread sees: bodies in Morton order, node data, and the position of its target. */
  datatype Scene = Scene(gravity: Gravity, bodies: seq<Body>, moments: seq<Moment>, cubes: seq<Cube>, target: nat)

  // ----- the force law

  predicate Singular(p: Gravity, target: Vec, source: Body)
  {
    source.mass != 0.0 && SquaredNorm(Sub(source.position, target)) + p.softeningSquared <= 0.0
  }

  function Pull(p: Gravity, target: Vec, source: Body): Vec
  {
    if source.mass == 0.0 then ORIGIN
    else
      var d := Sub(source.position, target);
      var inverse := p.inverseDistance(SquaredNorm(d) + p.softeningSquared);
      Scale(p.constant * source.mass * (inverse * inverse * inverse), d)
  }

  // ----- the acceptance test

  predicate Contains(c: Cube, point: Vec)
  {
    && Abs(point.x - c.center.x) <= c.half
    && Abs(point.y - c.center.y) <= c.half
    && Abs(point.z - c.center.z) <= c.half
  }

  predicate Accepts(p: Gravity, c: Cube, m: Moment, target: Vec)
  {
    var distanceSquared := SquaredNorm(Sub(m.center, target));
    && !Contains(c, target) && distanceSquared > 0.0 && p.theta > 0.0
    && p.squareRoot(distanceSquared)
       > 2.0 * c.half / p.theta + p.squareRoot(SquaredNorm(Sub(m.center, c.center)))
  }

  // ----- the recursive traversal

  /** One thing the traversal does: evaluate a particle, leave out the target itself, evaluate a
      whole node as a point mass, or skip a node without mass. */
  datatype Item = Point(position: nat) | Self(position: nat) | Cluster(tree: Tree) | Massless(tree: Tree)

  ghost predicate Covers(w: Scene, o: Octree)
  {
    |w.moments| == |o.nodes| == |w.cubes| && w.target < |w.bodies|
  }

  function LeafItems(w: Scene, first: nat, count: nat): seq<Item>
  {
    if count == 0 then []
    else LeafItems(w, first, count - 1)
         + [if first + count - 1 == w.target then Self(first + count - 1) else Point(first + count - 1)]
  }

  function TreeItems(w: Scene, t: Tree): seq<Item>
  {
    match t
    case Leaf(_, first, count) => LeafItems(w, first, count)
    case Node(id, kids) =>
      if id >= |w.moments| || id >= |w.cubes| || w.target >= |w.bodies| then []
      else if w.moments[id].mass == 0.0 then [Massless(t)]
      else if Accepts(w.gravity, w.cubes[id], w.moments[id], w.bodies[w.target].position) then [Cluster(t)]
      else ForestItems(w, kids)
  }

  function ForestItems(w: Scene, f: Forest): seq<Item>
  {
    match f
    case None => []
    case More(t, rest) => TreeItems(w, t) + ForestItems(w, rest)
  }

  /** The nodes that the recursive traversal comes to, opened ones included, in its order. */
  function TreeVisits(w: Scene, t: Tree): (ids: seq<nat>)
    ensures ids != [] && ids[0] == t.id
  {
    match t
    case Leaf(id, _, _) => [id]
    case Node(id, kids) =>
      if id >= |w.moments| || id >= |w.cubes| || w.target >= |w.bodies| then [id]
      else if w.moments[id].mass == 0.0 then [id]
      else if Accepts(w.gravity, w.cubes[id], w.moments[id], w.bodies[w.target].position) then [id]
      else [id] + ForestVisits(w, kids)
  }

  function ForestVisits(w: Scene, f: Forest): seq<nat>
  {
    match f
    case None => []
    case More(t, rest) => TreeVisits(w, t) + ForestVisits(w, rest)
  }

  lemma {:induction false} VisitsOfAppend(w: Scene, a: Forest, b: Forest)
    ensures ForestVisits(w, Append(a, b)) == ForestVisits(w, a) + ForestVisits(w, b)
  {
    if a.More? {
      VisitsOfAppend(w, a.rest, b);
    }
  }

  lemma {:induction false} ItemsOfAppend(w: Scene, a: Forest, b: Forest)
    ensures ForestItems(w, Append(a, b)) == ForestItems(w, a) + ForestItems(w, b)
  {
    if a.More? {
      ItemsOfAppend(w, a.rest, b);
    }
  }

  // ----- evaluating items in order

  /** The source that an item evaluates; a body without mass stands for nothing evaluated. */
  function Source(w: Scene, item: Item): Body
  {
    match item
    case Point(s) => if s < |w.bodies| then w.bodies[s] else Body(0.0, ORIGIN)
    case Cluster(t) => if t.id < |w.moments| then Body(w.moments[t.id].mass, w.moments[t.id].center)
                       else Body(0.0, ORIGIN)
    case _ => Body(0.0, ORIGIN)
  }

  function TargetPosition(w: Scene): Vec
    requires w.target < |w.bodies|
  {
    w.bodies[w.target].position
  }

  predicate AnySingular(w: Scene, items: seq<Item>)
    requires w.target < |w.bodies|
  {
    exists i :: 0 <= i < |items| && Singular(w.gravity, TargetPosition(w), Source(w, items[i]))
  }

  /** The running sum in evaluation order. */
  function Total(w: Scene, items: seq<Item>): Vec
    requires w.target < |w.bodies|
  {
    if items == [] then ORIGIN
    else Add(Total(w, items[..|items| - 1]), Pull(w.gravity, TargetPosition(w), Source(w, items[|items| - 1])))
  }

  lemma TotalSnoc(w: Scene, items: seq<Item>, item: Item)
    requires w.target < |w.bodies|
    ensures Total(w, items + [item]) == Add(Total(w, items), Pull(w.gravity, TargetPosition(w), Source(w, item)))
  {
    assert (items + [item])[..|items|] == items;
  }

  lemma SingularSnoc(w: Scene, items: seq<Item>, item: Item)
    requires w.target < |w.bodies|
    ensures AnySingular(w, items + [item])
            <==> AnySingular(w, items) || Singular(w.gravity, TargetPosition(w), Source(w, item))
  {
    var all := items + [item];
    assert all[|items|] == item;
    if i :| 0 <= i < |items| && Singular(w.gravity, TargetPosition(w), Source(w, items[i])) {
      assert all[i] == items[i];
    }
  }

  lemma OneMoreItem(w: Scene, items: seq<Item>, item: Item)
    requires w.target < |w.bodies|
    ensures Total(w, items + [item]) == Add(Total(w, items), Pull(w.gravity, TargetPosition(w), Source(w, item)))
    ensures AnySingular(w, items + [item])
            <==> AnySingular(w, items) || Singular(w.gravity, TargetPosition(w), Source(w, item))
  {
    TotalSnoc(w, items, item);
    SingularSnoc(w, items, item);
  }

  /** The accumulation routine: one pull is added, or a singular interaction is reported and
      the sum left alone. */
  method AccumulatePointMass(p: Gravity, target: Vec, source: Body, acceleration: Vec) returns (ok: bool, sum: Vec)
    ensures ok <==> !Singular(p, target, source)
    ensures sum == if ok then Add(acceleration, Pull(p, target, source)) else acceleration
  {
    if source.mass == 0.0 {
      return true, acceleration;
    }
    var d := Sub(source.position, target);
    var distanceSquared := SquaredNorm(d) + p.softeningSquared;
    if distanceSquared <= 0.0 {
      return false, acceleration;
    }
    var inverse := p.inverseDistance(distanceSquared);
    var factor := p.constant * source.mass * (inverse * inverse * inverse);
    return true, Add(acceleration, Scale(factor, d));
  }

  // ----- the stackless kernel

  /** Everything a thread has done so far, and everything that is left from a node on. */
  ghost predicate Progress(w: Scene, o: Octree, seen: seq<Item>, node: int)
    requires WellFormed(o) && (node == -1 || IsId(o, node))
  {
    TreeItems(w, TreeAt(o, 0)) == seen + ForestItems(w, Walk(o, node))
  }

  /** Every node that a thread has come to so far, and every node that is left. */
  ghost predicate OnPath(w: Scene, o: Octree, path: seq<nat>, node: int)
    requires WellFormed(o) && (node == -1 || IsId(o, node))
  {
    TreeVisits(w, TreeAt(o, 0)) == path + ForestVisits(w, Walk(o, node))
  }

  /** Nothing below the node is visited. */
  lemma SkipPath(w: Scene, o: Octree, path: seq<nat>, node: nat, next: int)
    requires WellFormed(o) && IsId(o, node) && (next == -1 || IsId(o, next)) && Covers(w, o)
    requires OnPath(w, o, path, node) && Walk(o, next) == Rest(o, node)
    requires o.nodes[node].particleCount > 0 || w.moments[node].mass == 0.0
             || Accepts(w.gravity, w.cubes[node], w.moments[node], TargetPosition(w))
    ensures OnPath(w, o, path + [node], next)
  {
    assert TreeVisits(w, TreeAt(o, node)) == [node];
    assert path + ([node] + ForestVisits(w, Rest(o, node))) == path + [node] + ForestVisits(w, Rest(o, node));
  }

  /** The children of an opened node come next. */
  lemma OpenPath(w: Scene, o: Octree, path: seq<nat>, node: nat, child: int)
    requires WellFormed(o) && IsId(o, node) && IsId(o, child) && Covers(w, o)
    requires o.nodes[node].particleCount == 0 && w.moments[node].mass != 0.0
    requires !Accepts(w.gravity, w.cubes[node], w.moments[node], TargetPosition(w))
    requires OnPath(w, o, path, node) && Walk(o, child) == Append(Kids(o, node, 8), Rest(o, node))
    ensures OnPath(w, o, path + [node], child)
  {
    var kids, rest := Kids(o, node, 8), Rest(o, node);
    VisitsOfAppend(w, kids, rest);
    OpenedVisits(w, o, node);
    StepOpens(path, node, ForestVisits(w, kids), ForestVisits(w, rest));
  }

  lemma OpenedVisits(w: Scene, o: Octree, node: nat)
    requires WellFormed(o) && IsId(o, node) && Covers(w, o)
    requires o.nodes[node].particleCount == 0 && w.moments[node].mass != 0.0
    requires !Accepts(w.gravity, w.cubes[node], w.moments[node], TargetPosition(w))
    ensures TreeVisits(w, TreeAt(o, node)) == [node] + ForestVisits(w, Kids(o, node, 8))
  {
    assert TreeAt(o, node) == Node(node, Kids(o, node, 8));
  }

  lemma StepOpens(path: seq<nat>, node: nat, kids: seq<nat>, rest: seq<nat>)
    ensures path + (([node] + kids) + rest) == path + [node] + (kids + rest)
  {
  }

  /** A node whose tree has been dealt with: what follows is the rest of the walk. */
  lemma SkipNode(w: Scene, o: Octree, seen: seq<Item>, node: nat, next: int, done: seq<Item>)
    requires WellFormed(o) && IsId(o, node) && (next == -1 || IsId(o, next))
    requires Progress(w, o, seen, node) && done == TreeItems(w, TreeAt(o, node))
    requires Walk(o, next) == Rest(o, node)
    ensures Progress(w, o, seen + done, next)
    ensures ForestSize(Walk(o, next)) < ForestSize(Walk(o, node))
  {
    assert seen + (done + ForestItems(w, Rest(o, node))) == seen + done + ForestItems(w, Rest(o, node));
  }

  /** A node that is opened: what follows are its children and the rest of the walk. */
  lemma OpenNode(w: Scene, o: Octree, seen: seq<Item>, node: nat, child: int)
    requires WellFormed(o) && IsId(o, node) && IsId(o, child) && Covers(w, o)
    requires o.nodes[node].particleCount == 0 && w.moments[node].mass != 0.0
    requires !Accepts(w.gravity, w.cubes[node], w.moments[node], TargetPosition(w))
    requires Progress(w, o, seen, node) && Walk(o, child) == Append(Kids(o, node, 8), Rest(o, node))
    ensures Progress(w, o, seen, child)
    ensures ForestSize(Walk(o, child)) < ForestSize(Walk(o, node))
  {
    ItemsOfAppend(w, Kids(o, node, 8), Rest(o, node));
    assert TreeAt(o, node) == Node(node, Kids(o, node, 8));
    assert TreeItems(w, TreeAt(o, node)) == ForestItems(w, Kids(o, node, 8));
    assert ForestItems(w, Walk(o, node)) == ForestItems(w, Walk(o, child));
    SizeOfAppend(Kids(o, node, 8), Rest(o, node));
  }

  lemma {:induction false} LeafItemsPrefix(w: Scene, first: nat, few: nat, many: nat)
    requires few <= many
    ensures LeafItems(w, first, few) <= LeafItems(w, first, many)
    decreases many
  {
    if few < many {
      LeafItemsPrefix(w, first, few, many - 1);
    }
  }

  lemma SingularPrefix(w: Scene, some: seq<Item>, more: seq<Item>)
    requires w.target < |w.bodies| && some <= more && AnySingular(w, some)
    ensures AnySingular(w, more)
  {
    var i :| 0 <= i < |some| && Singular(w.gravity, TargetPosition(w), Source(w, some[i]));
    assert more[i] == some[i];
  }

  function LeafItem(w: Scene, s: nat): Item
  {
    if s == w.target then Self(s) else Point(s)
  }

  lemma LeafItemsStep(w: Scene, seen: seq<Item>, first: nat, local: nat, done: seq<Item>)
    requires done == seen + LeafItems(w, first, local)
    ensures done + [LeafItem(w, first + local)] == seen + LeafItems(w, first, local + 1)
  {
  }

  /** One particle of an opened leaf; the target itself is left out. */
  method EvaluateParticle(w: Scene, order: seq<nat>, s: nat, acceleration: Vec, ghost seen: seq<Item>)
    returns (sum: Vec, error: int, ghost after: seq<Item>)
    requires w.target < |w.bodies| == |order| && s < |w.bodies| && IsOrder(order)
    requires acceleration == Total(w, seen) && !AnySingular(w, seen)
    ensures error == 0 || error == 6
    ensures after == seen + [LeafItem(w, s)]
    ensures error == 0 <==> !AnySingular(w, after)
    ensures error == 0 ==> sum == Total(w, after)
  {
    sum, error := acceleration, 0;
    after := seen + [LeafItem(w, s)];
    if order[s] >= |order| {
      return acceleration, 3, after;
    }
    if order[s] == order[w.target] {
      assert s == w.target;
      SelfIsLeftOut(w, seen, s);
      return;
    }
    var ok;
    ok, sum := AccumulatePointMass(w.gravity, TargetPosition(w), w.bodies[s], sum);
    error := if ok then 0 else 6;
    ParticleIsAdded(w, seen, s);
  }

  lemma SelfIsLeftOut(w: Scene, seen: seq<Item>, s: nat)
    requires w.target < |w.bodies| && s == w.target && !AnySingular(w, seen)
    ensures Total(w, seen + [LeafItem(w, s)]) == Total(w, seen) && !AnySingular(w, seen + [LeafItem(w, s)])
  {
    SourcelessItem(w, seen, LeafItem(w, s));
  }

  lemma ParticleIsAdded(w: Scene, seen: seq<Item>, s: nat)
    requires w.target < |w.bodies| && s < |w.bodies| && s != w.target && !AnySingular(w, seen)
    ensures Total(w, seen + [LeafItem(w, s)]) == Add(Total(w, seen), Pull(w.gravity, TargetPosition(w), w.bodies[s]))
    ensures AnySingular(w, seen + [LeafItem(w, s)]) <==> Singular(w.gravity, TargetPosition(w), w.bodies[s])
  {
    OneMoreItem(w, seen, LeafItem(w, s));
  }

  /** The particles of one opened leaf. */
  method EvaluateLeaf(w: Scene, order: seq<nat>, first: nat, count: nat, acceleration: Vec, ghost seen: seq<Item>)
    returns (sum: Vec, error: int, ghost done: seq<Item>)
    requires w.target < |w.bodies| == |order| && first + count <= |w.bodies| && IsOrder(order)
    requires acceleration == Total(w, seen) && !AnySingular(w, seen)
    ensures error == 0 || error == 6
    ensures error == 0 <==> !AnySingular(w, seen + LeafItems(w, first, count))
    ensures error == 0 ==> done == seen + LeafItems(w, first, count) && sum == Total(w, done)
  {
    sum, error, done := acceleration, 0, seen;
    var local := 0;
    assert seen + LeafItems(w, first, 0) == seen;
    while local < count
      invariant 0 <= local <= count && error == 0
      invariant done == seen + LeafItems(w, first, local)
      invariant sum == Total(w, done) && !AnySingular(w, done)
    {
      LeafItemsStep(w, seen, first, local, done);
      sum, error, done := EvaluateParticle(w, order, first + local, sum, done);
      if error != 0 {
        LeafItemsPrefix(w, first, local + 1, count);
        SingularPrefix(w, done, seen + LeafItems(w, first, count));
        return;
      }
      local := local + 1;
    }
  }

  ghost predicate IsOrder(order: seq<nat>)
  {
    && (forall s :: 0 <= s < |order| ==> order[s] < |order|)
    && (forall s, t :: 0 <= s < t < |order| ==> order[s] != order[t])
  }

  ghost predicate SoundScene(w: Scene, o: Octree)
  {
    && WellFormed(o) && Covers(w, o)
    && (forall id :: 0 <= id < |w.cubes| ==> w.cubes[id].half > 0.0)
    && (forall id :: 0 <= id < |o.nodes| && o.nodes[id].particleCount > 0 ==>
          o.nodes[id].firstParticle + o.nodes[id].particleCount <= |w.bodies|)
  }

  /** An occupied leaf: its checks, then its particles. */
  method VisitLeaf(w: Scene, o: Octree, order: seq<nat>, node: nat, acceleration: Vec, ghost seen: seq<Item>)
    returns (sum: Vec, error: int, ghost done: seq<Item>)
    requires |o.nodes| <= MOST_NODES
    requires SoundScene(w, o) && IsOrder(order) && |order| == |w.bodies| && IsId(o, node)
    requires o.nodes[node].particleCount > 0
    requires acceleration == Total(w, seen) && !AnySingular(w, seen)
    ensures error == 0 || error == 6
    ensures error == 0 <==> !AnySingular(w, seen + TreeItems(w, TreeAt(o, node)))
    ensures error == 0 ==> done == seen + TreeItems(w, TreeAt(o, node)) && sum == Total(w, done)
  {
    var children := CountChildren(o, node);
    if children != 0 {
      return acceleration, 7, seen;
    }
    var first, count := o.nodes[node].firstParticle, o.nodes[node].particleCount;
    if first < 0 || count > |w.bodies| || first > |w.bodies| - count {
      return acceleration, 2, seen;
    }
    sum, error, done := EvaluateLeaf(w, order, first, count, acceleration, seen);
  }

  /** An undivided decision on a node: evaluated, skipped or accepted as a whole. An internal
      node that is to be opened is left to the caller. */
  method VisitWhole(w: Scene, o: Octree, order: seq<nat>, node: nat, acceleration: Vec, ghost seen: seq<Item>)
    returns (open: bool, sum: Vec, error: int, ghost done: seq<Item>)
    requires |o.nodes| <= MOST_NODES
    requires SoundScene(w, o) && IsOrder(order) && |order| == |w.bodies| && IsId(o, node)
    requires acceleration == Total(w, seen) && !AnySingular(w, seen)
    ensures open <==> o.nodes[node].particleCount == 0 && w.moments[node].mass != 0.0
                      && !Accepts(w.gravity, w.cubes[node], w.moments[node], TargetPosition(w))
    ensures open ==> error == 0 && sum == acceleration && done == seen
    ensures error == 0 || error == 6
    ensures !open ==> (error == 0 <==> !AnySingular(w, seen + TreeItems(w, TreeAt(o, node))))
    ensures !open && error == 0 ==> done == seen + TreeItems(w, TreeAt(o, node)) && sum == Total(w, done)
  {
    if w.cubes[node].half <= 0.0 {
      return false, acceleration, 8, seen;
    }
    open, sum, error, done := false, acceleration, 0, seen;
    if o.nodes[node].particleCount > 0 {
      sum, error, done := VisitLeaf(w, o, order, node, acceleration, seen);
      return;
    }
    var moment := w.moments[node];
    if moment.mass == 0.0 {
      MasslessIsSkipped(w, o, node, seen);
      done := seen + [Massless(TreeAt(o, node))];
      return;
    }
    if Accepts(w.gravity, w.cubes[node], moment, TargetPosition(w)) {
      ClusterIsAdded(w, o, node, seen, Body(moment.mass, moment.center));
      done := seen + [Cluster(TreeAt(o, node))];
      var ok;
      ok, sum := AccumulatePointMass(w.gravity, TargetPosition(w), Body(moment.mass, moment.center), acceleration);
      error := if ok then 0 else 6;
      return;
    }
    open := true;
  }

  lemma NothingAdded(v: Vec, pull: Vec)
    requires pull == ORIGIN
    ensures Add(v, pull) == v
  {
  }

  /** An item without mass changes nothing. */
  lemma SourcelessItem(w: Scene, seen: seq<Item>, item: Item)
    requires w.target < |w.bodies| && Source(w, item).mass == 0.0
    ensures Total(w, seen + [item]) == Total(w, seen)
    ensures AnySingular(w, seen + [item]) <==> AnySingular(w, seen)
  {
    OneMoreItem(w, seen, item);
    NothingAdded(Total(w, seen), Pull(w.gravity, TargetPosition(w), Source(w, item)));
  }

  lemma MasslessItems(w: Scene, t: Tree)
    requires t.Node? && t.id < |w.moments| && t.id < |w.cubes| && w.target < |w.bodies|
    requires w.moments[t.id].mass == 0.0
    ensures TreeItems(w, t) == [Massless(t)]
  {
  }

  lemma MasslessIsSkipped(w: Scene, o: Octree, node: nat, seen: seq<Item>)
    requires WellFormed(o) && Covers(w, o) && IsId(o, node) && o.nodes[node].particleCount == 0
    requires w.moments[node].mass == 0.0 && !AnySingular(w, seen)
    ensures TreeItems(w, TreeAt(o, node)) == [Massless(TreeAt(o, node))]
    ensures Total(w, seen + [Massless(TreeAt(o, node))]) == Total(w, seen)
    ensures !AnySingular(w, seen + [Massless(TreeAt(o, node))])
  {
    var t := TreeAt(o, node);
    MasslessItems(w, t);
    SourcelessItem(w, seen, Massless(t));
  }

  lemma ClusterIsAdded(w: Scene, o: Octree, node: nat, seen: seq<Item>, source: Body)
    requires WellFormed(o) && Covers(w, o) && IsId(o, node) && o.nodes[node].particleCount == 0
    requires w.moments[node].mass != 0.0 && !AnySingular(w, seen)
    requires source == Body(w.moments[node].mass, w.moments[node].center)
    requires Accepts(w.gravity, w.cubes[node], w.moments[node], TargetPosition(w))
    ensures var item := Cluster(TreeAt(o, node));
            && TreeItems(w, TreeAt(o, node)) == [item]
            && Total(w, seen + [item]) == Add(Total(w, seen), Pull(w.gravity, TargetPosition(w), source))
            && (AnySingular(w, seen + [item]) <==> Singular(w.gravity, TargetPosition(w), source))
  {
    OneMoreItem(w, seen, Cluster(TreeAt(o, node)));
  }

  /** One visit and the step to the node that the walk visits next. */
  method Visit(w: Scene, o: Octree, order: seq<nat>, node: nat, acceleration: Vec,
               ghost seen: seq<Item>, ghost path: seq<nat>)
    returns (next: int, sum: Vec, error: int, ghost after: seq<Item>, ghost further: seq<nat>)
    requires |o.nodes| <= MOST_NODES
    requires SoundScene(w, o) && IsOrder(order) && |order| == |w.bodies| && IsId(o, node)
    requires Progress(w, o, seen, node) && acceleration == Total(w, seen) && !AnySingular(w, seen)
    requires OnPath(w, o, path, node)
    ensures error == 0 || error == 6
    ensures error == 6 ==> AnySingular(w, TreeItems(w, TreeAt(o, 0)))
    ensures further == path + [node]
    ensures error == 0 ==> next == -1 || IsId(o, next)
    ensures error == 0 ==> Progress(w, o, after, next) && sum == Total(w, after) && !AnySingular(w, after)
    ensures error == 0 ==> OnPath(w, o, further, next)
    ensures error == 0 ==> ForestSize(Walk(o, next)) < ForestSize(Walk(o, node))
  {
    var open;
    further, next := path + [node], -1;
    open, sum, error, after := VisitWhole(w, o, order, node, acceleration, seen);
    if open {
      next, error := FirstTraversalChild(o, node);
      OpenNode(w, o, seen, node, next);
      OpenPath(w, o, path, node, next);
      return;
    }
    if error != 0 {
      SingularPrefix(w, seen + TreeItems(w, TreeAt(o, node)), TreeItems(w, TreeAt(o, 0)));
      return;
    }
    next, error := NextTraversalNode(o, node);
    SkipNode(w, o, seen, node, next, TreeItems(w, TreeAt(o, node)));
    SkipPath(w, o, path, node, next);
  }

  method CountChildren(o: Octree, node: nat) returns (count: nat)
    requires |o.nodes| <= MOST_NODES
    requires WellFormed(o) && IsId(o, node)
    ensures count != 0 <==> HasChild(o, node)
  {
    count := 0;
    for octant := 0 to 8
      invariant count != 0 <==> exists k :: 0 <= k < octant && Child(o, node, k) != -1
    {
      var slot: Int := node * 8 + octant;
      if o.children[slot] != -1 {
        assert Child(o, node, octant) != -1;
        count := count + 1;
      }
    }
  }

  /** One thread: the stackless walk comes to the nodes of the recursive traversal in its order,
      evaluates its items in its order, and fails exactly when one of them is singular. */
  method AccelerationOfTarget(w: Scene, o: Octree, order: seq<nat>)
    returns (acceleration: Vec, error: int, ghost seen: seq<Item>, ghost path: seq<nat>)
    requires |o.nodes| <= MOST_NODES
    requires SoundScene(w, o) && IsOrder(order) && |order| == |w.bodies|
    ensures error == 0 || error == 6
    ensures error == 6 <==> AnySingular(w, TreeItems(w, TreeAt(o, 0)))
    ensures error == 0 ==> seen == TreeItems(w, TreeAt(o, 0)) && path == TreeVisits(w, TreeAt(o, 0))
    ensures error == 0 ==> acceleration == Total(w, seen)
    ensures error != 0 ==> path <= TreeVisits(w, TreeAt(o, 0))
  {
    seen, path := [], [];
    var node := 0;
    acceleration, error := ORIGIN, 0;
    assert TreeItems(w, TreeAt(o, 0)) + [] == TreeItems(w, TreeAt(o, 0));
    assert TreeVisits(w, TreeAt(o, 0)) + [] == TreeVisits(w, TreeAt(o, 0));
    while node != -1
      invariant error == 0 && (node == -1 || IsId(o, node))
      invariant Progress(w, o, seen, node) && acceleration == Total(w, seen) && !AnySingular(w, seen)
      invariant OnPath(w, o, path, node)
      decreases ForestSize(Walk(o, node))
    {
      PathGoesOn(w, o, path, node);
      node, acceleration, error, seen, path := Visit(w, o, order, node, acceleration, seen, path);
      if error != 0 {
        return;
      }
    }
    assert seen + [] == seen && path + [] == path;
  }

  /** The node that the walk has come to is the next one of the recursive traversal. */
  lemma PathGoesOn(w: Scene, o: Octree, path: seq<nat>, node: nat)
    requires WellFormed(o) && IsId(o, node) && OnPath(w, o, path, node)
    ensures path + [node] <= TreeVisits(w, TreeAt(o, 0))
  {
    var visits := TreeVisits(w, TreeAt(o, node));
    assert visits == [node] + visits[1..];
    assert ForestVisits(w, Walk(o, node)) == visits + ForestVisits(w, Rest(o, node));
  }
}
