/** The signed 32-bit integers in which kernels and host count, and how many things they can
    count: radix nodes, and the eight child slots of every octree node. */
module Ints {

  const INT_MIN := -0x8000_0000
  const INT_MAX := 0x7FFF_FFFF

  type Int = x: int | INT_MIN <= x <= INT_MAX

  const MOST_KEYS := 0x4000_0000
  const MOST_NODES := 0x1000_0000

  /** The 2n-1 nodes of a radix tree over n leaves can be counted exactly up to 2^30 leaves. */
  lemma RadixNodesFit(n: nat)
    ensures 2 * n - 1 <= INT_MAX <==> n <= MOST_KEYS
  {
  }

  /** Where the child of a node in an octant stands. */
  function SlotIndex(node: nat, octant: nat): nat
  {
    8 * node + octant
  }

  /** All child slots of an octree can be counted exactly up to 2^28 nodes. */
  lemma SlotsFit(nodes: nat)
    ensures (forall id: nat, octant: nat :: id < nodes && octant < 8 ==> SlotIndex(id, octant) <= INT_MAX)
            <==> nodes <= MOST_NODES
  {
    if nodes > MOST_NODES {
      var id: nat, octant: nat := MOST_NODES, 7;
      assert SlotIndex(id, octant) > INT_MAX;
    }
  }
}
