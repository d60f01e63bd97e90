/** The host side of the radix-to-octree plan: levels and cell counts by one thread for each
    radix node, ids by an exclusive scan. */
module PlanBuilder {
  import opened Ints
  import opened GapTrees
  import opened RadixTree
  import opened OctreePlan
  import opened OctreeIds
  import opened OctreeSize
  import opened Scan
  import opened Threads

  datatype Plan = Plan(level: seq<int>, count: seq<nat>, offset: seq<nat>, octreeNodes: nat)

  datatype PlanResult = Planned(plan: Plan) | PlanFailed(code: int) | TooManyNodes

  ghost predicate IsPlanOf(plan: Plan, g: seq<int>)
    requires SpatialGaps(g)
  {
    && plan.count == EdgeCounts(g)
    && |plan.level| == |plan.offset| == |plan.count|
    && (forall r :: 0 <= r < |plan.level| ==> plan.level[r] == Level(g, r))
    && (forall r :: 0 <= r < |plan.offset| ==> plan.offset[r] == Offset(g, r))
    && plan.octreeNodes == NodeCount(g)
  }

  /** The plan kernel: one thread for each radix node, in any order. The error cell keeps the
      first code that is reported. */
  method PlanKernel(keys: seq<nat>, tree: Tree) returns (entries: seq<Entry>, error: int)
    requires |keys| == |tree.nodes| + 1 && |tree.parent| == |keys| + |tree.nodes|
    ensures |entries| == |tree.parent|
    ensures forall r :: 0 <= r < |entries| ==> entries[r] == PlanEntry(keys, tree, r)
    ensures error == 0 <==> forall r :: 0 <= r < |entries| ==> entries[r].error == 0
    ensures error != 0 ==> exists r :: 0 <= r < |entries| && entries[r].error == error
  {
    var cells := new Entry[|tree.parent|](_ => Entry(0, 0, 0));
    error := 0;
    ghost var reporter := 0;
    var threads := ThreadIds(cells.Length);
    while threads != {}
      invariant forall r :: r in threads ==> 0 <= r < cells.Length
      invariant forall r :: 0 <= r < cells.Length && r !in threads ==> cells[r] == PlanEntry(keys, tree, r)
      invariant error == 0 ==> forall r :: 0 <= r < cells.Length && r !in threads ==> cells[r].error == 0
      invariant error != 0 ==>
                  0 <= reporter < cells.Length && reporter !in threads && cells[reporter].error == error
    {
      var r :| r in threads;
      cells[r] := PlanEntry(keys, tree, r);
      if error == 0 {
        error, reporter := cells[r].error, r;
      }
      threads := threads - {r};
    }
    entries := cells[..];
  }

  /** The plan is built exactly for unique 30-bit keys, whose octrees never outgrow the int
      node count; for any other sorted keys one of the threads' error codes comes back. */
  method BuildPlan(keys: seq<nat>, tree: Tree) returns (result: PlanResult)
    requires SortedKeys(keys) && Separated(Gaps(keys)) && IsTreeOf(tree, Gaps(keys))
    ensures result.PlanFailed? <==> !UniqueKeys(keys)
    ensures result.PlanFailed? ==>
              result.code != 0 && exists r :: 0 <= r < |tree.parent| && PlanEntry(keys, tree, r).error == result.code
    ensures UniqueKeys(keys) ==> SpatialGaps(Gaps(keys))
    ensures result.Planned? <==> UniqueKeys(keys)
    ensures result.Planned? ==> IsPlanOf(result.plan, Gaps(keys))
  {
    var entries, error := PlanKernel(keys, tree);
    PlanSucceedsForUniqueKeys(keys, tree);
    if error != 0 {
      return PlanFailed(error);
    }
    assert UniqueKeys(keys) by {
      assert forall r :: 0 <= r < |tree.parent| ==> PlanEntry(keys, tree, r) == entries[r];
    }
    UniqueKeysHaveSpatialGaps(keys);
    var level := seq(|entries|, r requires 0 <= r < |entries| => entries[r].level);
    EntriesAreCounts(keys, tree, entries);
    var count: seq<nat> := seq(|entries|, r requires 0 <= r < |entries| && entries[r].count >= 0 => entries[r].count);
    assert count == EdgeCounts(Gaps(keys));
    NodeCountFitsInt(keys, Gaps(keys));
    result := AssignIds(Gaps(keys), level, count);
  }

  /** Ids by the exclusive scan of the counts, behind the explicit root. */
  method AssignIds(ghost g: seq<int>, level: seq<int>, count: seq<nat>) returns (result: PlanResult)
    requires SpatialGaps(g) && count == EdgeCounts(g) && |level| == |count|
    requires forall r :: 0 <= r < |level| ==> level[r] == Level(g, r)
    ensures NodeCount(g) > INT_MAX ==> result.TooManyNodes?
    ensures NodeCount(g) <= INT_MAX ==> result.Planned? && IsPlanOf(result.plan, g)
  {
    var offset := ExclusiveSum(count);
    var generated := offset[|offset| - 1] + count[|count| - 1];
    if generated >= INT_MAX {
      return TooManyNodes;
    }
    result := Planned(Plan(level, count, offset, 1 + generated));
  }

  lemma EntriesAreCounts(keys: seq<nat>, tree: Tree, entries: seq<Entry>)
    requires UniqueKeys(keys) && SpatialGaps(Gaps(keys)) && IsTreeOf(tree, Gaps(keys))
    requires |entries| == |tree.parent|
    requires forall r :: 0 <= r < |entries| ==> entries[r] == PlanEntry(keys, tree, r) && entries[r].error == 0
    ensures forall r :: 0 <= r < |entries| ==> entries[r].level == Level(Gaps(keys), r)
    ensures forall r :: 0 <= r < |entries| ==> entries[r].count == EdgeCount(Gaps(keys), r)
  {
    forall r | 0 <= r < |entries|
      ensures entries[r].level == Level(Gaps(keys), r) && entries[r].count == EdgeCount(Gaps(keys), r)
    {
      EntryIsEdge(keys, tree, Gaps(keys), r);
    }
  }
}
