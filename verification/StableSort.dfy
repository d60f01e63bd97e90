/** Sorting particle indices by Morton key, ties left in their original order. */
module StableSort {
  import opened BarnesHut
  import opened DirectSum

  /** Index i comes before index j. */
  predicate Precedes(keys: seq<nat>, i: nat, j: nat)
    requires i < |keys| && j < |keys|
  {
    keys[i] < keys[j] || (keys[i] == keys[j] && i < j)
  }

  /** Indices below the bound, strictly ascending in the order of keys and then positions. */
  ghost predicate Ascending(keys: seq<nat>, order: seq<nat>, bound: nat)
    requires bound <= |keys|
  {
    && (forall s :: 0 <= s < |order| ==> order[s] < bound)
    && (forall s, t :: 0 <= s < t < |order| ==> Precedes(keys, order[s], order[t]))
  }

  ghost predicate IsStableOrder(keys: seq<nat>, order: seq<nat>)
  {
    |order| == |keys| && Ascending(keys, order, |keys|)
  }

  /** One index more, behind all indices with no larger key. */
  function Place(keys: seq<nat>, order: seq<nat>, i: nat): (placed: seq<nat>)
    requires i < |keys| && forall s :: 0 <= s < |order| ==> order[s] < |keys|
    ensures |placed| == |order| + 1
  {
    if order == [] then [i]
    else
      var front, last := order[..|order| - 1], order[|order| - 1];
      if keys[last] <= keys[i] then order + [i] else Place(keys, front, i) + [last]
  }

  lemma {:induction false} PlaceKeepsMembers(keys: seq<nat>, order: seq<nat>, i: nat)
    requires i < |keys| && forall s :: 0 <= s < |order| ==> order[s] < |keys|
    ensures forall j :: j in Place(keys, order, i) <==> j in order || j == i
  {
    if order != [] {
      var front, last := order[..|order| - 1], order[|order| - 1];
      assert order == front + [last];
      PlaceKeepsMembers(keys, front, i);
    }
  }

  lemma {:induction false} PlaceIsAscending(keys: seq<nat>, order: seq<nat>, i: nat)
    requires i < |keys| && Ascending(keys, order, i)
    ensures Ascending(keys, Place(keys, order, i), i + 1)
  {
    if order != [] {
      var front, last := order[..|order| - 1], order[|order| - 1];
      if keys[last] > keys[i] {
        PlaceIsAscending(keys, front, i);
        PlaceKeepsMembers(keys, front, i);
        var placed := Place(keys, front, i);
        forall s | 0 <= s < |placed|
          ensures Precedes(keys, placed[s], last)
        {
          assert placed[s] in placed;
          if placed[s] != i {
            var t :| 0 <= t < |front| && front[t] == placed[s];
            assert Precedes(keys, order[t], order[|order| - 1]);
          }
        }
      } else {
        forall s | 0 <= s < |order|
          ensures Precedes(keys, order[s], i)
        {
          if s < |order| - 1 {
            assert Precedes(keys, order[s], order[|order| - 1]);
          }
        }
      }
    }
  }

  function StableOrderOf(keys: seq<nat>, n: nat): (order: seq<nat>)
    requires n <= |keys|
    ensures |order| == n && forall s :: 0 <= s < n ==> order[s] < n
  {
    if n == 0 then []
    else
      PlaceKeepsMembers(keys, StableOrderOf(keys, n - 1), n - 1);
      var placed := Place(keys, StableOrderOf(keys, n - 1), n - 1);
      assert forall s :: 0 <= s < |placed| ==> placed[s] in placed;
      placed
  }

  lemma {:induction false} StableOrderIsAscending(keys: seq<nat>, n: nat)
    requires n <= |keys|
    ensures Ascending(keys, StableOrderOf(keys, n), n)
  {
    if n > 0 {
      StableOrderIsAscending(keys, n - 1);
      PlaceIsAscending(keys, StableOrderOf(keys, n - 1), n - 1);
    }
  }

  function StableOrder(keys: seq<nat>): (order: seq<nat>)
    ensures |order| == |keys| && forall s :: 0 <= s < |keys| ==> order[s] < |keys|
  {
    StableOrderOf(keys, |keys|)
  }

  function Sorted(keys: seq<nat>): (sorted: seq<nat>)
    ensures |sorted| == |keys|
  {
    var order := StableOrder(keys);
    seq(|keys|, s requires 0 <= s < |keys| => keys[order[s]])
  }

  /** Sorting permutes the indices, leaves the keys in ascending order, and keeps ties in
      place. */
  lemma SortingIsStable(keys: seq<nat>)
    ensures IsOrder(StableOrder(keys)) && IsStableOrder(keys, StableOrder(keys))
    ensures forall s, t :: 0 <= s <= t < |keys| ==> Sorted(keys)[s] <= Sorted(keys)[t]
  {
    StableOrderIsAscending(keys, |keys|);
    var order := StableOrder(keys);
    forall s, t | 0 <= s < t < |keys|
      ensures order[s] != order[t] && Sorted(keys)[s] <= Sorted(keys)[t]
    {
      assert Precedes(keys, order[s], order[t]);
    }
  }

  // ----- there is only one stable order

  lemma AscendingIsOrder(keys: seq<nat>, order: seq<nat>)
    requires IsStableOrder(keys, order)
    ensures IsOrder(order)
  {
    forall s, t | 0 <= s < t < |order|
      ensures order[s] != order[t]
    {
      assert Precedes(keys, order[s], order[t]);
    }
  }

  lemma NextIsNotLater(keys: seq<nat>, a: seq<nat>, b: seq<nat>, k: nat)
    requires IsStableOrder(keys, a) && IsStableOrder(keys, b) && k < |keys| && a[..k] == b[..k]
    ensures !Precedes(keys, a[k], b[k])
  {
    AscendingIsOrder(keys, a);
    AscendingIsOrder(keys, b);
    forall i | 0 <= i < k
      ensures a[i] == b[i]
    {
      assert a[..k][i] == b[..k][i];
    }
    OrderHits(b, a[k]);
    var j :| 0 <= j < |b| && b[j] == a[k];
    if j > k {
      assert Precedes(keys, b[k], b[j]);
    }
  }

  /** Any two stable sorts give the same order. */
  lemma StableOrderIsUnique(keys: seq<nat>, a: seq<nat>, b: seq<nat>)
    requires IsStableOrder(keys, a) && IsStableOrder(keys, b)
    ensures a == b
  {
    for k := 0 to |keys|
      invariant a[..k] == b[..k]
    {
      NextIsNotLater(keys, a, b, k);
      NextIsNotLater(keys, b, a, k);
      assert a[..k + 1] == a[..k] + [a[k]] && b[..k + 1] == b[..k] + [b[k]];
    }
    assert a[..|keys|] == a && b[..|keys|] == b;
  }

  method StableSortByKey(keys: seq<nat>) returns (sorted: seq<nat>, order: seq<nat>)
    ensures order == StableOrder(keys) && sorted == Sorted(keys)
  {
    order := [];
    for n := 0 to |keys|
      invariant order == StableOrderOf(keys, n)
    {
      order := Place(keys, order, n);
    }
    sorted := seq(|keys|, s requires 0 <= s < |keys| => keys[order[s]]);
  }
}
