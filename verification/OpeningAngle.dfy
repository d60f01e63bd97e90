/** A smaller opening angle only refines the traversal: every node it accepts or skips, and
    every particle it evaluates, lies inside an item of the traversal with the larger angle. */
module OpeningAngle {
  import opened OctreeBuilder
  import opened Forests
  import opened Vectors
  import opened Coverage
  import opened BarnesHut

  /** The two scenes differ in the opening angle only. */
  ghost predicate SmallerAngle(fine: Scene, coarse: Scene)
  {
    && fine.gravity.theta <= coarse.gravity.theta
    && coarse == fine.(gravity := fine.gravity.(theta := coarse.gravity.theta))
    && fine.target < |fine.bodies| && |fine.moments| == |fine.cubes|
    && forall id :: 0 <= id < |fine.cubes| ==> fine.cubes[id].half > 0.0
  }

  lemma SmallerQuotient(length: real, small: real, large: real)
    requires length > 0.0 && 0.0 < small <= large
    ensures length / large <= length / small
  {
    var a, b := length / large, length / small;
    assert a * large == length && b * small == length;
    assert a * small <= a * large;
    CancelFactor(a, b, small);
  }

  lemma CancelFactor(a: real, b: real, k: real)
    requires k > 0.0 && a * k <= b * k
    ensures a <= b
  {
  }

  /** A node opened at the larger angle is opened at the smaller one. */
  lemma AcceptedAtLargerAngle(p: Gravity, q: Gravity, c: Cube, m: Moment, target: Vec)
    requires p.theta <= q.theta && q == p.(theta := q.theta) && c.half > 0.0
    requires Accepts(p, c, m, target)
    ensures Accepts(q, c, m, target)
  {
    SmallerQuotient(2.0 * c.half, p.theta, q.theta);
  }

  /** t' is t or a subtree of it. */
  predicate Within(t': Tree, t: Tree)
    decreases t, 0
  {
    t' == t || (t.Node? && WithinForest(t', t.kids))
  }

  predicate WithinForest(t': Tree, f: Forest)
    decreases f, 1
  {
    f.More? && (Within(t', f.tree) || WithinForest(t', f.rest))
  }

  /** The item concerns only what lies below the tree. */
  predicate ItemWithin(item: Item, t: Tree)
  {
    match item
    case Point(s) => s in Members(t)
    case Self(s) => s in Members(t)
    case Cluster(t') => Within(t', t)
    case Massless(t') => Within(t', t)
  }

  predicate ItemWithinForest(item: Item, f: Forest)
  {
    match item
    case Point(s) => s in ForestMembers(f)
    case Self(s) => s in ForestMembers(f)
    case Cluster(t') => WithinForest(t', f)
    case Massless(t') => WithinForest(t', f)
  }

  predicate InsideItem(item: Item, other: Item)
  {
    match other
    case Point(_) => item == other
    case Self(_) => item == other
    case Cluster(t) => ItemWithin(item, t)
    case Massless(t) => ItemWithin(item, t)
  }

  ghost predicate Refines(fine: seq<Item>, coarse: seq<Item>)
  {
    forall i :: 0 <= i < |fine| ==> InsideSome(fine[i], coarse)
  }

  ghost predicate InsideSome(item: Item, coarse: seq<Item>)
  {
    exists j :: 0 <= j < |coarse| && InsideItem(item, coarse[j])
  }

  lemma RefinesConcat(f1: seq<Item>, f2: seq<Item>, c1: seq<Item>, c2: seq<Item>)
    requires Refines(f1, c1) && Refines(f2, c2)
    ensures Refines(f1 + f2, c1 + c2)
  {
    forall i | 0 <= i < |f1 + f2|
      ensures InsideSome((f1 + f2)[i], c1 + c2)
    {
      if i < |f1| {
        assert InsideSome(f1[i], c1);
        var j :| 0 <= j < |c1| && InsideItem(f1[i], c1[j]);
        assert (c1 + c2)[j] == c1[j];
      } else {
        assert InsideSome(f2[i - |f1|], c2);
        var j :| 0 <= j < |c2| && InsideItem(f2[i - |f1|], c2[j]);
        assert (c1 + c2)[|c1| + j] == c2[j];
      }
    }
  }

  lemma RefinesItself(items: seq<Item>)
    ensures Refines(items, items)
  {
    forall i | 0 <= i < |items|
      ensures InsideSome(items[i], items)
    {
      assert InsideItem(items[i], items[i]);
    }
  }

  lemma {:induction false} LeafItemsWithin(w: Scene, id: nat, first: nat, count: nat, total: nat)
    requires count <= total
    ensures forall i :: 0 <= i < |LeafItems(w, first, count)| ==>
              ItemWithin(LeafItems(w, first, count)[i], Leaf(id, first, total))
  {
    if count > 0 {
      LeafItemsWithin(w, id, first, count - 1, total);
      CountInRange(first, total, first + count - 1);
    }
  }

  lemma {:induction false} TreeItemsWithin(w: Scene, t: Tree)
    ensures forall i :: 0 <= i < |TreeItems(w, t)| ==> ItemWithin(TreeItems(w, t)[i], t)
    decreases t, 0
  {
    match t
    case Leaf(id, first, count) => LeafItemsWithin(w, id, first, count, count);
    case Node(_, kids) => ForestItemsWithin(w, kids);
  }

  lemma {:induction false} ForestItemsWithin(w: Scene, f: Forest)
    ensures forall i :: 0 <= i < |ForestItems(w, f)| ==> ItemWithinForest(ForestItems(w, f)[i], f)
    decreases f, 1
  {
    if f.More? {
      TreeItemsWithin(w, f.tree);
      ForestItemsWithin(w, f.rest);
      var items := ForestItems(w, f);
      forall i | 0 <= i < |items|
        ensures ItemWithinForest(items[i], f)
      {
        if i < |TreeItems(w, f.tree)| {
          assert ItemWithin(TreeItems(w, f.tree)[i], f.tree);
        } else {
          assert ItemWithinForest(ForestItems(w, f.rest)[i - |TreeItems(w, f.tree)|], f.rest);
        }
      }
    }
  }

  /** Lowering the opening angle refines the result, below every node. */
  lemma {:induction false} SmallerAngleRefines(fine: Scene, coarse: Scene, t: Tree)
    requires SmallerAngle(fine, coarse)
    ensures Refines(TreeItems(fine, t), TreeItems(coarse, t))
    decreases t, 0
  {
    match t
    case Leaf(_, first, count) =>
      SameLeafItems(fine, coarse, first, count);
      RefinesItself(TreeItems(fine, t));
    case Node(id, kids) =>
      if TreeItems(coarse, t) == [Cluster(t)] {
        TreeItemsWithin(fine, t);
        forall i | 0 <= i < |TreeItems(fine, t)|
          ensures InsideSome(TreeItems(fine, t)[i], [Cluster(t)])
        {
          assert InsideItem(TreeItems(fine, t)[i], [Cluster(t)][0]);
        }
      } else if id < |fine.moments| && fine.moments[id].mass != 0.0
                && Accepts(fine.gravity, fine.cubes[id], fine.moments[id], TargetPosition(fine)) {
        AcceptedAtLargerAngle(fine.gravity, coarse.gravity, fine.cubes[id], fine.moments[id], TargetPosition(fine));
      } else if id < |fine.moments| && fine.moments[id].mass != 0.0 {
        SmallerAngleRefinesForest(fine, coarse, kids);
      } else {
        RefinesItself(TreeItems(fine, t));
      }
  }

  lemma {:induction false} SmallerAngleRefinesForest(fine: Scene, coarse: Scene, f: Forest)
    requires SmallerAngle(fine, coarse)
    ensures Refines(ForestItems(fine, f), ForestItems(coarse, f))
    decreases f, 1
  {
    if f.More? {
      SmallerAngleRefines(fine, coarse, f.tree);
      SmallerAngleRefinesForest(fine, coarse, f.rest);
      RefinesConcat(TreeItems(fine, f.tree), ForestItems(fine, f.rest),
                    TreeItems(coarse, f.tree), ForestItems(coarse, f.rest));
    }
  }

  lemma {:induction false} SameLeafItems(fine: Scene, coarse: Scene, first: nat, count: nat)
    requires fine.target == coarse.target
    ensures LeafItems(fine, first, count) == LeafItems(coarse, first, count)
  {
    if count > 0 {
      SameLeafItems(fine, coarse, first, count - 1);
    }
  }
}
