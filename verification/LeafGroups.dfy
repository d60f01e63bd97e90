/** Runs of equal Morton keys: one group, and later one octree leaf, for each distinct key. */
module LeafGroups {
  import opened Scan

  datatype Groups = Groups(uniqueKeys: seq<nat>, firstParticle: seq<nat>, particleCount: seq<nat>)

  ghost predicate Nondecreasing(keys: seq<nat>)
  {
    forall i, j :: 0 <= i <= j < |keys| ==> keys[i] <= keys[j]
  }

  /** The runs cover the sorted keys without gap or overlap, and no key has two runs. */
  ghost predicate IsRunLength(keys: seq<nat>, unique: seq<nat>, counts: seq<nat>)
  {
    && |unique| == |counts| && Sum(counts, |counts|) == |keys|
    && (forall k :: 0 <= k < |counts| ==> counts[k] > 0)
    && (forall j, k :: 0 <= j < k < |unique| ==> unique[j] < unique[k])
    && (forall k, s :: 0 <= k < |counts| && Sum(counts, k) <= s < Sum(counts, k) + counts[k] && s < |keys|
          ==> keys[s] == unique[k])
  }

  ghost predicate IsGrouping(keys: seq<nat>, groups: Groups)
  {
    && IsRunLength(keys, groups.uniqueKeys, groups.particleCount)
    && |groups.firstParticle| == |groups.particleCount|
    && forall k :: 0 <= k < |groups.firstParticle| ==>
         groups.firstParticle[k] == Sum(groups.particleCount, k)
  }

  lemma {:induction false} SumOfPrefix(a: seq<nat>, b: seq<nat>, n: nat)
    requires n <= |a| && n <= |b| && a[..n] == b[..n]
    ensures Sum(a, n) == Sum(b, n)
  {
    if n > 0 {
      assert a[n - 1] == a[..n][n - 1] == b[n - 1];
      assert a[..n - 1] == a[..n][..n - 1] == b[..n - 1];
      SumOfPrefix(a, b, n - 1);
    }
  }

  /** A key that differs from its predecessor opens a run. */
  lemma OpenRun(keys: seq<nat>, key: nat, unique: seq<nat>, counts: seq<nat>)
    requires IsRunLength(keys, unique, counts)
    requires Nondecreasing(keys + [key])
    requires keys == [] || (|unique| > 0 && unique[|unique| - 1] == keys[|keys| - 1] != key)
    requires keys == [] ==> unique == []
    ensures IsRunLength(keys + [key], unique + [key], counts + [1])
  {
    var unique', counts' := unique + [key], counts + [1];
    forall k | 0 <= k <= |counts|
      ensures Sum(counts', k) == Sum(counts, k)
    {
      SumOfPrefix(counts', counts, k);
    }
    if keys != [] {
      assert (keys + [key])[|keys| - 1] <= (keys + [key])[|keys|];
    }
    forall k, s | 0 <= k < |counts'| && Sum(counts', k) <= s < Sum(counts', k) + counts'[k] && s < |keys + [key]|
      ensures (keys + [key])[s] == unique'[k]
    {
      if k < |counts| {
        SumIsMonotone(counts, k + 1, |counts|);
      }
    }
  }

  /** A key equal to its predecessor extends the last run. */
  lemma ExtendRun(keys: seq<nat>, key: nat, unique: seq<nat>, counts: seq<nat>)
    requires IsRunLength(keys, unique, counts)
    requires |unique| > 0 && unique[|unique| - 1] == key
    ensures IsRunLength(keys + [key], unique, counts[|counts| - 1 := counts[|counts| - 1] + 1])
  {
    var last := |counts| - 1;
    var counts' := counts[last := counts[last] + 1];
    forall k | 0 <= k <= last
      ensures Sum(counts', k) == Sum(counts, k)
    {
      SumOfPrefix(counts', counts, k);
    }
    forall k, s | 0 <= k < |counts'| && Sum(counts', k) <= s < Sum(counts', k) + counts'[k] && s < |keys + [key]|
      ensures (keys + [key])[s] == unique[k]
    {
      if k < last {
        SumIsMonotone(counts, k + 1, |counts|);
      }
    }
  }

  /** The runs as a function of the keys. */
  datatype Runs = Runs(unique: seq<nat>, counts: seq<nat>)

  function ExtendedBy(runs: Runs, key: nat): (more: Runs)
    requires |runs.unique| == |runs.counts|
    ensures |more.unique| == |more.counts|
  {
    if runs.unique != [] && runs.unique[|runs.unique| - 1] == key
    then runs.(counts := runs.counts[|runs.counts| - 1 := runs.counts[|runs.counts| - 1] + 1])
    else Runs(runs.unique + [key], runs.counts + [1])
  }

  function RunsOf(keys: seq<nat>): (runs: Runs)
    ensures |runs.unique| == |runs.counts|
  {
    if keys == [] then Runs([], []) else ExtendedBy(RunsOf(keys[..|keys| - 1]), keys[|keys| - 1])
  }

  lemma OneMoreRun(front: seq<nat>, key: nat, runs: Runs)
    requires Nondecreasing(front + [key]) && IsRunLength(front, runs.unique, runs.counts)
    requires front == [] ==> runs.unique == []
    requires front != [] ==> runs.unique != [] && runs.unique[|runs.unique| - 1] == front[|front| - 1]
    ensures var more := ExtendedBy(runs, key);
            && IsRunLength(front + [key], more.unique, more.counts)
            && more.unique != [] && more.unique[|more.unique| - 1] == key
  {
    if runs.unique != [] && runs.unique[|runs.unique| - 1] == key {
      ExtendRun(front, key, runs.unique, runs.counts);
    } else {
      OpenRun(front, key, runs.unique, runs.counts);
    }
  }

  lemma {:induction false} RunsAreRunLength(keys: seq<nat>)
    requires Nondecreasing(keys)
    ensures IsRunLength(keys, RunsOf(keys).unique, RunsOf(keys).counts)
    ensures keys != [] ==> RunsOf(keys).unique != []
                           && RunsOf(keys).unique[|RunsOf(keys).unique| - 1] == keys[|keys| - 1]
  {
    if keys != [] {
      var front, key := keys[..|keys| - 1], keys[|keys| - 1];
      assert keys == front + [key];
      RunsAreRunLength(front);
      OneMoreRun(front, key, RunsOf(front));
    }
  }

  /** The groups as a function of the sorted keys. */
  function GroupsOfKeys(keys: seq<nat>): Groups
  {
    var runs := RunsOf(keys);
    Groups(runs.unique, Offsets(runs.counts), runs.counts)
  }

  lemma GroupsOfKeysAreGrouping(keys: seq<nat>)
    requires Nondecreasing(keys)
    ensures IsGrouping(keys, GroupsOfKeys(keys))
    ensures keys != [] ==> GroupsOfKeys(keys).uniqueKeys != []
  {
    RunsAreRunLength(keys);
  }

  method RunLengthEncode(keys: seq<nat>) returns (unique: seq<nat>, counts: seq<nat>)
    requires Nondecreasing(keys)
    ensures IsRunLength(keys, unique, counts)
    ensures keys != [] ==> unique != []
  {
    unique, counts := [], [];
    for i := 0 to |keys|
      invariant IsRunLength(keys[..i], unique, counts)
      invariant i == 0 ==> unique == []
      invariant i > 0 ==> |unique| > 0 && unique[|unique| - 1] == keys[i - 1]
    {
      assert keys[..i + 1] == keys[..i] + [keys[i]];
      if i > 0 && keys[i] == keys[i - 1] {
        ExtendRun(keys[..i], keys[i], unique, counts);
        counts := counts[|counts| - 1 := counts[|counts| - 1] + 1];
      } else {
        OpenRun(keys[..i], keys[i], unique, counts);
        unique, counts := unique + [keys[i]], counts + [1];
      }
    }
    assert keys[..|keys|] == keys;
  }

  method BuildMortonLeafGroups(sortedKeys: seq<nat>) returns (groups: Groups)
    requires Nondecreasing(sortedKeys)
    ensures IsGrouping(sortedKeys, groups)
    ensures groups == GroupsOfKeys(sortedKeys)
  {
    var unique, counts := RunLengthEncode(sortedKeys);
    var first := ExclusiveSum(counts);
    groups := Groups(unique, first, counts);
    GroupsOfKeysAreGrouping(sortedKeys);
    GroupingIsUnique(sortedKeys, groups, GroupsOfKeys(sortedKeys));
  }

  /** Every sorted position lies in the range of exactly one group: that of its key. */
  lemma GroupOfPosition(keys: seq<nat>, groups: Groups, s: nat) returns (k: nat)
    requires IsGrouping(keys, groups) && s < |keys|
    ensures k < |groups.uniqueKeys| && groups.uniqueKeys[k] == keys[s]
    ensures groups.firstParticle[k] <= s < groups.firstParticle[k] + groups.particleCount[k]
    ensures forall j :: 0 <= j < |groups.uniqueKeys|
                     && groups.firstParticle[j] <= s < groups.firstParticle[j] + groups.particleCount[j]
              ==> j == k
  {
    var counts := groups.particleCount;
    k := Segment(counts, |counts|, s);
    forall j | 0 <= j < |counts| && Sum(counts, j) <= s < Sum(counts, j) + counts[j]
      ensures j == k
    {
      SegmentIsUnique(counts, |counts|, j, s);
    }
  }

  /** The grouping of a sorted key array is unique. */
  lemma {:induction false} GroupingIsUnique(keys: seq<nat>, a: Groups, b: Groups)
    requires Nondecreasing(keys) && IsGrouping(keys, a) && IsGrouping(keys, b)
    ensures a == b
  {
    var n := if |a.uniqueKeys| <= |b.uniqueKeys| then |a.uniqueKeys| else |b.uniqueKeys|;
    for k := 0 to n
      invariant a.uniqueKeys[..k] == b.uniqueKeys[..k]
      invariant a.particleCount[..k] == b.particleCount[..k]
    {
      SumOfPrefix(a.particleCount, b.particleCount, k);
      NextGroup(keys, a, b, k);
    }
    SumOfPrefix(a.particleCount, b.particleCount, n);
    if |a.particleCount| > n {
      SumIsMonotone(a.particleCount, n + 1, |a.particleCount|);
    }
    if |b.particleCount| > n {
      SumIsMonotone(b.particleCount, n + 1, |b.particleCount|);
    }
    assert a.particleCount[..n] == a.particleCount && b.particleCount[..n] == b.particleCount;
    assert a.uniqueKeys[..n] == a.uniqueKeys && b.uniqueKeys[..n] == b.uniqueKeys;
    forall k | 0 <= k < n
      ensures a.firstParticle[k] == b.firstParticle[k]
    {
      SumOfPrefix(a.particleCount, b.particleCount, k);
    }
  }

  lemma NextGroup(keys: seq<nat>, a: Groups, b: Groups, k: nat)
    requires Nondecreasing(keys) && IsGrouping(keys, a) && IsGrouping(keys, b)
    requires k < |a.uniqueKeys| && k < |b.uniqueKeys|
    requires Sum(a.particleCount, k) == Sum(b.particleCount, k)
    ensures a.uniqueKeys[k] == b.uniqueKeys[k] && a.particleCount[k] == b.particleCount[k]
  {
    GroupIsNotLonger(keys, a, b, k);
    GroupIsNotLonger(keys, b, a, k);
  }

  lemma GroupIsNotLonger(keys: seq<nat>, a: Groups, b: Groups, k: nat)
    requires Nondecreasing(keys) && IsGrouping(keys, a) && IsGrouping(keys, b)
    requires k < |a.uniqueKeys| && k < |b.uniqueKeys|
    requires Sum(a.particleCount, k) == Sum(b.particleCount, k)
    ensures a.uniqueKeys[k] == b.uniqueKeys[k] && a.particleCount[k] <= b.particleCount[k]
  {
    var start := Sum(a.particleCount, k);
    SumIsMonotone(a.particleCount, k + 1, |a.particleCount|);
    SumIsMonotone(b.particleCount, k + 1, |b.particleCount|);
    assert keys[start] == a.uniqueKeys[k] == b.uniqueKeys[k];
    var next := start + b.particleCount[k];
    if next < |keys| {
      KeyAfterGroup(keys, b, k);
      assert keys[next] != a.uniqueKeys[k];
    }
  }

  /** The key after a run differs from the key of the run. */
  lemma KeyAfterGroup(keys: seq<nat>, groups: Groups, k: nat)
    requires IsGrouping(keys, groups) && k < |groups.uniqueKeys|
    requires Sum(groups.particleCount, k + 1) < |keys|
    ensures keys[Sum(groups.particleCount, k + 1)] != groups.uniqueKeys[k]
  {
    var j := GroupOfPosition(keys, groups, Sum(groups.particleCount, k + 1));
  }
}
