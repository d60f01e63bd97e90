/** The force kernel over all targets: one thread for each Morton position, results written to
    the original index of the target. */
module Accelerations {
  import opened Ints
  import opened OctreeBuilder
  import opened OctreeTrees
  import opened Forests
  import opened Vectors
  import opened BarnesHut
  import opened DirectSum
  import opened Accounting
  import opened Threads

  /** Everything the kernel reads except the particles. */
  datatype Structure = Structure(octree: Octree, order: seq<nat>, moments: seq<Moment>, cubes: seq<Cube>)

  /** The bodies by Morton position: the gathered array itself, or the original array read
      through the sorted indices. */
  function BodiesByPosition(data: seq<Body>, order: seq<nat>, mortonOrdered: bool): (bodies: seq<Body>)
    requires |order| == |data| && IsOrder(order)
    ensures |bodies| == |data|
  {
    if mortonOrdered then data else Gathered(data, order)
  }

  function SceneOf(x: Structure, bodies: seq<Body>, gravity: Gravity, target: nat): Scene
  {
    Scene(gravity, bodies, x.moments, x.cubes, target)
  }

  ghost predicate SoundStructure(x: Structure, n: nat)
  {
    && WellFormed(x.octree) && |x.order| == n && IsOrder(x.order)
    && |x.moments| == |x.octree.nodes| == |x.cubes|
    && (forall id :: 0 <= id < |x.cubes| ==> x.cubes[id].half > 0.0)
    && (forall id :: 0 <= id < |x.octree.nodes| && x.octree.nodes[id].particleCount > 0 ==>
          x.octree.nodes[id].firstParticle + x.octree.nodes[id].particleCount <= n)
  }

  ghost function ItemsFor(x: Structure, bodies: seq<Body>, gravity: Gravity, target: nat): seq<Item>
    requires WellFormed(x.octree)
  {
    TreeItems(SceneOf(x, bodies, gravity, target), TreeAt(x.octree, 0))
  }

  /** The target at this Morton position meets a singular source. */
  ghost predicate FailsAt(x: Structure, bodies: seq<Body>, gravity: Gravity, target: nat)
    requires WellFormed(x.octree) && target < |bodies|
  {
    AnySingular(SceneOf(x, bodies, gravity, target), ItemsFor(x, bodies, gravity, target))
  }

  ghost function ForceAt(x: Structure, bodies: seq<Body>, gravity: Gravity, target: nat): Vec
    requires WellFormed(x.octree) && target < |bodies|
  {
    Total(SceneOf(x, bodies, gravity, target), ItemsFor(x, bodies, gravity, target))
  }

  /** One thread: it writes the original index of its target and nothing else. */
  method AccelerationThread(x: Structure, bodies: seq<Body>, gravity: Gravity, s: nat, acceleration: array<Vec>)
    returns (error: int)
    requires |x.octree.nodes| <= MOST_NODES
    requires SoundStructure(x, |bodies|) && acceleration.Length == |bodies| && s < |bodies|
    modifies acceleration
    ensures error == 0 || error == 6
    ensures error == 6 <==> FailsAt(x, bodies, gravity, s)
    ensures error == 0 ==> acceleration[x.order[s]] == ForceAt(x, bodies, gravity, s)
    ensures forall i :: 0 <= i < acceleration.Length && i != x.order[s] ==> acceleration[i] == old(acceleration[i])
  {
    var force;
    ghost var seen, path;
    force, error, seen, path := AccelerationOfTarget(SceneOf(x, bodies, gravity, s), x.octree, x.order);
    if error == 0 {
      acceleration[x.order[s]] := force;
    }
  }

  /** What the finished threads have left. */
  ghost predicate Written(x: Structure, bodies: seq<Body>, gravity: Gravity, acceleration: seq<Vec>, s: nat)
    requires SoundStructure(x, |bodies|) && |acceleration| == |bodies| && s < |bodies|
  {
    !FailsAt(x, bodies, gravity, s) && acceleration[x.order[s]] == ForceAt(x, bodies, gravity, s)
  }

  method ComputeBarnesHutAcceleration(x: Structure, data: seq<Body>, mortonOrdered: bool, gravity: Gravity,
                                      acceleration: array<Vec>)
    returns (error: int)
    requires |x.octree.nodes| <= MOST_NODES
    requires SoundStructure(x, |data|) && acceleration.Length == |data|
    modifies acceleration
    ensures error == 0 || error == 6
    ensures var bodies := BodiesByPosition(data, x.order, mortonOrdered);
            error == 6 <==> exists s: nat :: s < |data| && FailsAt(x, bodies, gravity, s)
    ensures var bodies := BodiesByPosition(data, x.order, mortonOrdered);
            error == 0 ==> forall s: nat :: s < |data| ==> acceleration[x.order[s]] == ForceAt(x, bodies, gravity, s)
  {
    var bodies := BodiesByPosition(data, x.order, mortonOrdered);
    error := 0;
    ghost var failed := 0;
    var threads := ThreadIds(|data|);
    while threads != {}
      invariant error == 0 || error == 6
      invariant forall s :: s in threads ==> 0 <= s < |data|
      invariant error == 6 ==> 0 <= failed < |data| && FailsAt(x, bodies, gravity, failed)
      invariant error == 0 ==> forall s: nat :: s < |data| && s !in threads ==>
                  Written(x, bodies, gravity, acceleration[..], s)
    {
      var s :| s in threads;
      ghost var before := acceleration[..];
      var threadError := AccelerationThread(x, bodies, gravity, s, acceleration);
      if error == 0 {
        error, failed := threadError, s;
        forall t: nat | error == 0 && t < |data| && t !in threads - {s}
          ensures Written(x, bodies, gravity, acceleration[..], t)
        {
          if t != s {
            assert Written(x, bodies, gravity, before, t);
          }
        }
      }
      threads := threads - {s};
    }
    if error == 0 {
      forall s: nat | s < |data|
        ensures !FailsAt(x, bodies, gravity, s) && acceleration[x.order[s]] == ForceAt(x, bodies, gravity, s)
      {
        assert Written(x, bodies, gravity, acceleration[..], s);
      }
    }
  }

  /** Every original index is written by exactly one thread. */
  lemma EveryOutputWrittenOnce(x: Structure, n: nat, i: nat)
    requires SoundStructure(x, n) && i < n
    ensures exists s: nat :: s < n && x.order[s] == i && forall t: nat :: t < n && x.order[t] == i ==> t == s
  {
    OrderHits(x.order, i);
    var s :| 0 <= s < n && x.order[s] == i;
    assert forall t: nat :: t < n && x.order[t] == i ==> t == s;
  }

  /** Opening angle zero: the force on the target at a Morton position is the all-pairs sum over
      the original data. */
  lemma ZeroAngleForce(x: Structure, data: seq<Body>, gravity: Gravity, target: nat)
    requires SoundStructure(x, |data|) && target < |data| && gravity.theta <= 0.0
    requires PhysicalScene(SceneOf(x, Gathered(data, x.order), gravity, target), x.octree)
    ensures ForceAt(x, Gathered(data, x.order), gravity, target)
            == AllPairs(Scene(gravity, data, x.moments, x.cubes, x.order[target]))
  {
    var w := SceneOf(x, Gathered(data, x.order), gravity, target);
    ZeroAngleIsAllPairs(w, x.octree);
    GatheringKeepsAllPairs(w, Scene(gravity, data, x.moments, x.cubes, x.order[target]), x.order);
  }
}
