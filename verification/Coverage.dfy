/** Which sorted positions lie below a node, and that below the root every position lies
    exactly once. */
module Coverage {
  import opened OctreePlan
  import opened OctreeBuilder
  import opened OctreeTrees
  import opened Forests

  function Positions(first: nat, count: nat): seq<nat>
  {
    if count == 0 then [] else Positions(first, count - 1) + [first + count - 1]
  }

  function Members(t: Tree): seq<nat>
  {
    match t
    case Leaf(_, first, count) => Positions(first, count)
    case Node(_, kids) => ForestMembers(kids)
  }

  function ForestMembers(f: Forest): seq<nat>
  {
    match f
    case None => []
    case More(t, rest) => Members(t) + ForestMembers(rest)
  }

  function Count(s: nat, members: seq<nat>): nat
  {
    multiset(members)[s]
  }

  lemma {:induction false} CountInRange(first: nat, count: nat, s: nat)
    ensures Count(s, Positions(first, count)) == if first <= s < first + count then 1 else 0
  {
    if count > 0 {
      CountInRange(first, count - 1, s);
    }
  }

  /** Node `leaf` is node `id` or one of its descendants. */
  ghost predicate Under(o: Octree, leaf: nat, id: nat)
    requires WellFormed(o) && IsId(o, leaf)
    decreases o.nodes[leaf].level
  {
    leaf == id || (leaf != 0 && ParentIsHigher(o, leaf) && Under(o, o.nodes[leaf].parent, id))
  }

  ghost predicate ParentIsHigher(o: Octree, id: nat)
    requires WellFormed(o) && IsId(o, id) && id > 0
    ensures ParentIsHigher(o, id)
    ensures IsId(o, o.nodes[id].parent) && o.nodes[o.nodes[id].parent].level == o.nodes[id].level - 1
  {
    assert ChildLinked(o, o.nodes[id].parent, Seat(o, id));
    true
  }

  lemma {:induction false} EverythingUnderRoot(o: Octree, id: nat)
    requires WellFormed(o) && IsId(o, id)
    ensures Under(o, id, 0)
    decreases o.nodes[id].level
  {
    if id != 0 {
      assert ParentIsHigher(o, id);
      EverythingUnderRoot(o, o.nodes[id].parent);
    }
  }

  /** Ancestors lie no deeper, and on each level there is only one. */
  lemma {:induction false} AncestorsByLevel(o: Octree, leaf: nat, a: nat, b: nat)
    requires WellFormed(o) && IsId(o, leaf) && IsId(o, a) && IsId(o, b)
    requires Under(o, leaf, a) && Under(o, leaf, b)
    ensures o.nodes[a].level <= o.nodes[leaf].level
    ensures o.nodes[a].level == o.nodes[b].level ==> a == b
    decreases o.nodes[leaf].level
  {
    if leaf != a {
      assert ParentIsHigher(o, leaf);
      if leaf != b {
        AncestorsByLevel(o, o.nodes[leaf].parent, a, b);
      } else {
        AncestorsByLevel(o, o.nodes[leaf].parent, a, a);
      }
    } else if leaf != b {
      assert ParentIsHigher(o, leaf);
      AncestorsByLevel(o, o.nodes[leaf].parent, b, b);
    }
  }

  /** The step from a node towards one of its proper descendants goes to one of its children. */
  lemma {:induction false} StepTowards(o: Octree, leaf: nat, id: nat) returns (octant: nat)
    requires WellFormed(o) && IsId(o, leaf) && IsId(o, id) && leaf != id && Under(o, leaf, id)
    ensures octant < 8 && Child(o, id, octant) != -1
    ensures IsId(o, Child(o, id, octant)) && Under(o, leaf, Child(o, id, octant))
    decreases o.nodes[leaf].level
  {
    assert ParentIsHigher(o, leaf);
    if o.nodes[leaf].parent == id {
      octant := Seat(o, leaf);
    } else {
      octant := StepTowards(o, o.nodes[leaf].parent, id);
    }
  }

  /** The first k octants of a node lead to the leaf. */
  ghost predicate LeadsTo(o: Octree, id: nat, k: nat, leaf: nat)
    requires WellFormed(o) && IsId(o, id) && IsId(o, leaf) && k <= 8
  {
    exists octant :: 0 <= octant < k && Child(o, id, octant) >= 0 && Under(o, leaf, Child(o, id, octant))
  }

  /** Two octants never lead to the same leaf. */
  lemma OctantsDiffer(o: Octree, id: nat, a: nat, b: nat, leaf: nat)
    requires WellFormed(o) && IsId(o, id) && IsId(o, leaf) && a < b < 8
    requires Child(o, id, a) >= 0 && Child(o, id, b) >= 0
    ensures !(Under(o, leaf, Child(o, id, a)) && Under(o, leaf, Child(o, id, b)))
  {
    assert ChildLinked(o, id, a) && ChildLinked(o, id, b);
    SeatIs(o, Child(o, id, a), id, a);
    SeatIs(o, Child(o, id, b), id, b);
    if Under(o, leaf, Child(o, id, a)) && Under(o, leaf, Child(o, id, b)) {
      AncestorsByLevel(o, leaf, Child(o, id, a), Child(o, id, b));
    }
  }

  lemma OneOctantLeads(o: Octree, id: nat, k: nat, leaf: nat)
    requires WellFormed(o) && IsId(o, id) && IsId(o, leaf) && 0 < k <= 8
    requires Child(o, id, k - 1) >= 0 && Under(o, leaf, Child(o, id, k - 1))
    ensures !LeadsTo(o, id, k - 1, leaf)
  {
    forall octant | 0 <= octant < k - 1 && Child(o, id, octant) >= 0
      ensures !Under(o, leaf, Child(o, id, octant))
    {
      OctantsDiffer(o, id, octant, k - 1, leaf);
    }
  }

  lemma LeadsToOneMore(o: Octree, id: nat, k: nat, leaf: nat)
    requires WellFormed(o) && IsId(o, id) && IsId(o, leaf) && 0 < k <= 8
    ensures LeadsTo(o, id, k, leaf)
            <==> LeadsTo(o, id, k - 1, leaf)
                 || (Child(o, id, k - 1) >= 0 && Under(o, leaf, Child(o, id, k - 1)))
  {
    if LeadsTo(o, id, k, leaf) {
      var octant :| 0 <= octant < k && Child(o, id, octant) >= 0 && Under(o, leaf, Child(o, id, octant));
      assert octant < k - 1 || octant == k - 1;
    }
  }

  /** A position lies below a node exactly once if its leaf does, and not at all otherwise. */
  lemma {:induction false} CountBelow(o: Octree, n: nat, id: nat, s: nat, leaf: nat)
    requires WellFormed(o) && LeavesPartition(o, n) && IsId(o, id) && InLeaf(o, leaf, s)
    ensures Count(s, Members(TreeAt(o, id))) == if Under(o, leaf, id) then 1 else 0
    decreases MAX_LEVEL - o.nodes[id].level, 9
  {
    if o.nodes[id].particleCount > 0 {
      CountInLeaf(o, n, id, s, leaf);
    } else {
      CountInKids(o, n, id, 8, s, leaf);
      assert leaf != id;
      if Under(o, leaf, id) {
        var octant := StepTowards(o, leaf, id);
        assert LeadsTo(o, id, 8, leaf);
      } else if LeadsTo(o, id, 8, leaf) {
        var octant :| 0 <= octant < 8 && Child(o, id, octant) >= 0 && Under(o, leaf, Child(o, id, octant));
        assert ChildLinked(o, id, octant);
        UnderParent(o, leaf, Child(o, id, octant));
      }
    }
  }

  lemma CountInLeaf(o: Octree, n: nat, id: nat, s: nat, leaf: nat)
    requires WellFormed(o) && LeavesPartition(o, n) && IsId(o, id) && InLeaf(o, leaf, s)
    requires o.nodes[id].particleCount > 0
    ensures Count(s, Members(TreeAt(o, id))) == if Under(o, leaf, id) then 1 else 0
  {
    CountInRange(o.nodes[id].firstParticle, o.nodes[id].particleCount, s);
    assert InLeaf(o, id, s) ==> id == leaf;
    assert !HasChild(o, id);
    if leaf != id && Under(o, leaf, id) {
      var octant := StepTowards(o, leaf, id);
    }
  }

  lemma {:induction false} UnderParent(o: Octree, leaf: nat, id: nat)
    requires WellFormed(o) && IsId(o, leaf) && IsId(o, id) && id > 0 && Under(o, leaf, id)
    ensures ParentIsHigher(o, id) && Under(o, leaf, o.nodes[id].parent)
    decreases o.nodes[leaf].level
  {
    assert ParentIsHigher(o, id);
    if leaf != id {
      assert ParentIsHigher(o, leaf);
      UnderParent(o, o.nodes[leaf].parent, id);
    }
  }

  lemma CountConcat(s: nat, a: seq<nat>, b: seq<nat>)
    ensures Count(s, a + b) == Count(s, a) + Count(s, b)
  {
  }

  /** The next octant of a node, as it shows in the forest of its children. */
  lemma KidsStep(o: Octree, id: nat, k: nat)
    requires WellFormed(o) && IsId(o, id) && 0 < k <= 8
    ensures Child(o, id, k - 1) == -1 ==> Kids(o, id, k) == Kids(o, id, k - 1)
    ensures Child(o, id, k - 1) != -1 ==>
              && IsId(o, Child(o, id, k - 1))
              && o.nodes[id].level < o.nodes[Child(o, id, k - 1)].level <= MAX_LEVEL
              && Kids(o, id, k) == More(TreeAt(o, Child(o, id, k - 1)), Kids(o, id, k - 1))
  {
    assert ChildLinked(o, id, k - 1);
  }

  lemma KidsCount(o: Octree, id: nat, k: nat, s: nat)
    requires WellFormed(o) && IsId(o, id) && 0 < k <= 8
    ensures Child(o, id, k - 1) == -1 ==>
              Count(s, ForestMembers(Kids(o, id, k))) == Count(s, ForestMembers(Kids(o, id, k - 1)))
    ensures Child(o, id, k - 1) != -1 ==>
              && IsId(o, Child(o, id, k - 1))
              && Count(s, ForestMembers(Kids(o, id, k)))
                 == Count(s, Members(TreeAt(o, Child(o, id, k - 1)))) + Count(s, ForestMembers(Kids(o, id, k - 1)))
  {
    KidsStep(o, id, k);
    if Child(o, id, k - 1) != -1 {
      CountConcat(s, Members(TreeAt(o, Child(o, id, k - 1))), ForestMembers(Kids(o, id, k - 1)));
    }
  }

  lemma {:induction false} CountInKids(o: Octree, n: nat, id: nat, k: nat, s: nat, leaf: nat)
    requires WellFormed(o) && LeavesPartition(o, n) && IsId(o, id) && InLeaf(o, leaf, s) && k <= 8
    ensures Count(s, ForestMembers(Kids(o, id, k))) == if LeadsTo(o, id, k, leaf) then 1 else 0
    decreases MAX_LEVEL - o.nodes[id].level, k
  {
    if k > 0 {
      var c := Child(o, id, k - 1);
      KidsCount(o, id, k, s);
      LeadsToOneMore(o, id, k, leaf);
      CountInKids(o, n, id, k - 1, s, leaf);
      if c != -1 {
        KidsStep(o, id, k);
        CountBelow(o, n, c, s, leaf);
        if Under(o, leaf, c) {
          OneOctantLeads(o, id, k, leaf);
        }
      }
    }
  }

  /** Everything below a node is a position of some leaf. */
  lemma {:induction false} MembersAreInLeaves(o: Octree, id: nat, s: nat)
    requires WellFormed(o) && IsId(o, id) && s in Members(TreeAt(o, id))
    ensures Covered(o, s)
    decreases MAX_LEVEL - o.nodes[id].level, 9
  {
    if o.nodes[id].particleCount > 0 {
      CountInRange(o.nodes[id].firstParticle, o.nodes[id].particleCount, s);
      assert InLeaf(o, id, s);
    } else {
      KidsAreInLeaves(o, id, 8, s);
    }
  }

  lemma {:induction false} KidsAreInLeaves(o: Octree, id: nat, k: nat, s: nat)
    requires WellFormed(o) && IsId(o, id) && k <= 8 && s in ForestMembers(Kids(o, id, k))
    ensures Covered(o, s)
    decreases MAX_LEVEL - o.nodes[id].level, k
  {
    var c := Child(o, id, k - 1);
    assert ChildLinked(o, id, k - 1);
    if c != -1 {
      assert o.nodes[c].level <= MAX_LEVEL;
      if s in Members(TreeAt(o, c)) {
        MembersAreInLeaves(o, c, s);
      } else {
        KidsAreInLeaves(o, id, k - 1, s);
      }
    } else {
      KidsAreInLeaves(o, id, k - 1, s);
    }
  }

  /** Each of the positions 0 .. n-1 occurs exactly once. */
  ghost predicate EachOnce(members: seq<nat>, n: nat)
  {
    forall s: nat :: Count(s, members) == if s < n then 1 else 0
  }

  /** The occupied leaves below the root share out all positions. */
  lemma RootHoldsEachOnce(o: Octree, n: nat)
    requires WellFormed(o) && LeavesPartition(o, n)
    ensures EachOnce(Members(TreeAt(o, 0)), n)
  {
    forall s: nat
      ensures Count(s, Members(TreeAt(o, 0))) == if s < n then 1 else 0
    {
      if s < n {
        assert Covered(o, s);
        var leaf :| InLeaf(o, leaf, s);
        CountBelow(o, n, 0, s, leaf);
        EverythingUnderRoot(o, leaf);
      } else if s in Members(TreeAt(o, 0)) {
        MembersAreInLeaves(o, 0, s);
      }
    }
  }
}
