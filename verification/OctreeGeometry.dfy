/** Cubes of octree nodes, rebuilt from the Morton prefix of each node alone. */
module OctreeGeometry {
  import opened Prefixes
  import opened MortonBits
  import opened OctreePlan
  import opened OctreeBuilder
  import opened OctreeShape
  import opened Vectors
  import opened BarnesHut
  import opened BoundingBox
  import opened MortonKeys
  import opened Threads

  // ----- valid prefixes

  /** Only spatial bits, and none below the level. */
  predicate PrefixIsValidForLevel(prefix: nat, level: nat)
    requires level <= MAX_LEVEL
  {
    FitsIn(prefix, SPATIAL_BITS)
    && if level == 0 then prefix == 0 else Low(prefix, SPATIAL_BITS - level * DIMENSIONS) == 0
  }

  lemma {:induction false} ShiftLeftIsTimes(a: nat, bits: nat)
    ensures ShiftLeft(a, bits) == Pow2(bits) * a
    decreases bits
  {
    if bits > 0 {
      ShiftLeftIsTimes(2 * a, bits - 1);
    }
  }

  lemma DoubledProduct(p: nat, h: nat, x: nat)
    requires x == p * h
    ensures (2 * p) * h == 2 * x
  {
  }

  /** A number is its high part times the weight of the low part, plus the low part. */
  lemma {:induction false} SplitAtBits(q: nat, bits: nat)
    ensures q == Pow2(bits) * ShiftRight(q, bits) + Low(q, bits)
    decreases bits
  {
    if bits > 0 {
      var p, h := Pow2(bits - 1), ShiftRight(q / 2, bits - 1);
      SplitAtBits(q / 2, bits - 1);
      DoubledProduct(p, h, p * h);
    }
  }

  /** The valid prefixes of a level are exactly those of its cells. */
  lemma ValidPrefixesAreCells(prefix: nat, level: nat)
    requires level <= MAX_LEVEL
    ensures PrefixIsValidForLevel(prefix, level)
            <==> FitsIn(CellAt(prefix, level), level * DIMENSIONS) && prefix == PrefixOf(level, CellAt(prefix, level))
  {
    var rest := SPATIAL_BITS - level * DIMENSIONS;
    ShiftRightTwice(prefix, rest, level * DIMENSIONS);
    SplitAtBits(prefix, rest);
    ShiftLeftIsTimes(CellAt(prefix, level), rest);
  }

  lemma CellPrefixIsValid(level: nat, index: nat)
    requires level <= MAX_LEVEL && FitsIn(index, level * DIMENSIONS)
    ensures PrefixIsValidForLevel(PrefixOf(level, index), level)
    ensures CellAt(PrefixOf(level, index), level) == index
  {
    var rest := SPATIAL_BITS - level * DIMENSIONS;
    if level == 0 {
      ShiftRightOfZero(SPATIAL_BITS);
    } else {
      ShiftRightUndoesShiftLeft(index, rest);
    }
    ValidPrefixesAreCells(PrefixOf(level, index), level);
  }

  // ----- the walk of the centre

  function Octant(up: Cube, octant: nat): Cube
  {
    var h := up.half * 0.5;
    Cube(Vec(if octant / 4 % 2 == 1 then up.center.x + h else up.center.x - h,
             if octant / 2 % 2 == 1 then up.center.y + h else up.center.y - h,
             if octant % 2 == 1 then up.center.z + h else up.center.z - h), h)
  }

  /** The cube reached along the first octal digits of a prefix. */
  function CubeAt(root: Cube, prefix: nat, depth: nat): Cube
    requires depth <= MAX_LEVEL
  {
    if depth == 0 then root else Octant(CubeAt(root, prefix, depth - 1), CellAt(prefix, depth) % 8)
  }

  lemma {:induction false} CubesAreProper(root: Cube, prefix: nat, depth: nat)
    requires depth <= MAX_LEVEL && root.half > 0.0
    ensures CubeAt(root, prefix, depth).half > 0.0
  {
    if depth > 0 {
      CubesAreProper(root, prefix, depth - 1);
    }
  }

  /** Only the digits down to the depth matter. */
  lemma {:induction false} SameCellSameCube(root: Cube, a: nat, b: nat, depth: nat)
    requires depth <= MAX_LEVEL && CellAt(a, depth) == CellAt(b, depth)
    ensures CubeAt(root, a, depth) == CubeAt(root, b, depth)
  {
    if depth > 0 {
      CellIsCoarser(a, b, depth - 1, depth);
      SameCellSameCube(root, a, b, depth - 1);
    }
  }

  lemma BitsOfDigit(x: nat, y: nat, z: nat, digit: nat)
    requires x < 2 && y < 2 && z < 2 && digit == 4 * x + 2 * y + z
    ensures digit / 4 % 2 == x && digit / 2 % 2 == y && digit % 2 == z
  {
  }

  lemma DigitOfShifts(x: nat, y: nat, z: nat, bits: nat, depth: nat)
    requires 1 <= depth <= bits == GRID_BITS
    ensures CellAt(Interleave(x, y, z, bits), depth) % 8
            == 4 * (ShiftRight(x, bits - depth) % 2) + 2 * (ShiftRight(y, bits - depth) % 2)
               + ShiftRight(z, bits - depth) % 2
  {
    var rest := bits - depth;
    ShiftOfInterleave(x, y, z, bits, rest);
    LastDigit(ShiftRight(x, rest), ShiftRight(y, rest), ShiftRight(z, rest), depth);
  }

  lemma DigitOfKey(x: nat, y: nat, z: nat, bits: nat, depth: nat)
    requires 1 <= depth <= bits == GRID_BITS
    ensures var digit := CellAt(Interleave(x, y, z, bits), depth) % 8;
            && digit / 4 % 2 == ShiftRight(x, bits - depth) % 2
            && digit / 2 % 2 == ShiftRight(y, bits - depth) % 2
            && digit % 2 == ShiftRight(z, bits - depth) % 2
  {
    DigitOfShifts(x, y, z, bits, depth);
    BitsOfDigit(ShiftRight(x, bits - depth) % 2, ShiftRight(y, bits - depth) % 2, ShiftRight(z, bits - depth) % 2,
                CellAt(Interleave(x, y, z, bits), depth) % 8);
  }

  ghost predicate IsCubeOfAxes(c: Cube, x: Axis, y: Axis, z: Axis)
  {
    c.center == Vec(x.center, y.center, z.center) && c.half == x.half == y.half == z.half
  }

  lemma OctantOfAxes(up: Cube, digit: nat, x: Axis, y: Axis, z: Axis, dx: nat, dy: nat, dz: nat)
    requires IsCubeOfAxes(up, x, y, z) && digit / 4 % 2 == dx && digit / 2 % 2 == dy && digit % 2 == dz
    ensures IsCubeOfAxes(Octant(up, digit), Towards(x, dx), Towards(y, dy), Towards(z, dz))
  {
  }

  /** One more level of the cube and of the three axes, whose bits make up the octal digit. */
  lemma AxesGoOn(root: Cube, key: nat, x: nat, y: nat, z: nat, depth: nat, digit: nat, dx: nat, dy: nat, dz: nat)
    requires 0 < depth <= MAX_LEVEL && digit == CellAt(key, depth) % 8
    requires dx == ShiftRight(x, GRID_BITS - depth) % 2 == digit / 4 % 2
    requires dy == ShiftRight(y, GRID_BITS - depth) % 2 == digit / 2 % 2
    requires dz == ShiftRight(z, GRID_BITS - depth) % 2 == digit % 2
    requires FollowsAxes(root, key, x, y, z, depth - 1)
    ensures FollowsAxes(root, key, x, y, z, depth)
  {
    OctantOfAxes(CubeAt(root, key, depth - 1), digit,
                 AxisAt(root.center.x, root.half, x, depth - 1),
                 AxisAt(root.center.y, root.half, y, depth - 1),
                 AxisAt(root.center.z, root.half, z, depth - 1), dx, dy, dz);
  }

  ghost predicate FollowsAxes(root: Cube, key: nat, x: nat, y: nat, z: nat, depth: nat)
    requires depth <= MAX_LEVEL
  {
    IsCubeOfAxes(CubeAt(root, key, depth), AxisAt(root.center.x, root.half, x, depth),
                 AxisAt(root.center.y, root.half, y, depth), AxisAt(root.center.z, root.half, z, depth))
  }

  /** The walk along the octal digits is the three walks along the bits of the coordinates. */
  lemma {:induction false} CubeOfAxes(root: Cube, x: nat, y: nat, z: nat, bits: nat, depth: nat)
    requires depth <= MAX_LEVEL && bits == GRID_BITS
    ensures FollowsAxes(root, Interleave(x, y, z, bits), x, y, z, depth)
    decreases depth
  {
    if depth > 0 {
      var key, rest := Interleave(x, y, z, bits), bits - depth;
      CubeOfAxes(root, x, y, z, bits, depth - 1);
      DigitOfKey(x, y, z, bits, depth);
      AxesGoOn(root, key, x, y, z, depth, CellAt(key, depth) % 8,
               ShiftRight(x, rest) % 2, ShiftRight(y, rest) % 2, ShiftRight(z, rest) % 2);
    }
  }

  lemma SmallFits(q: nat)
    requires q < GRID_SIZE
    ensures FitsIn(q, GRID_BITS)
  {
    assert ShiftRight(1023, 10) == 0;
    ShiftRightMonotone(q, 1023, 10);
  }

  lemma AxisOfPoint(c: real, half: real, a: real, depth: nat)
    requires WellInside(c, half, a) && depth <= GRID_BITS
    ensures var cell := AxisAt(c, half, Quantised(c, half, a), depth);
            Abs(a - cell.center) <= cell.half
  {
    SmallFits(Quantised(c, half, a));
    QuantisedInStep(c, half, a);
    AxisHolds(c, half, Quantised(c, half, a), depth, a);
  }

  ghost predicate KeepsClear(root: Cube, p: Vec)
  {
    && WellInside(root.center.x, root.half, p.x)
    && WellInside(root.center.y, root.half, p.y)
    && WellInside(root.center.z, root.half, p.z)
  }

  lemma AxesContain(c: Cube, x: Axis, y: Axis, z: Axis, p: Vec)
    requires IsCubeOfAxes(c, x, y, z)
    requires Abs(p.x - x.center) <= x.half && Abs(p.y - y.center) <= y.half && Abs(p.z - z.center) <= z.half
    ensures Contains(c, p)
  {
  }

  /** On every level a point lies in the cube of its key. */
  lemma PointInItsCube(root: Cube, p: Vec, depth: nat)
    requires KeepsClear(root, p) && depth <= MAX_LEVEL
    ensures Contains(CubeAt(root, KeyOf(root, p), depth), p)
  {
    var x := Quantised(root.center.x, root.half, p.x);
    var y := Quantised(root.center.y, root.half, p.y);
    var z := Quantised(root.center.z, root.half, p.z);
    CubeOfAxes(root, x, y, z, GRID_BITS, depth);
    AxisOfPoint(root.center.x, root.half, p.x, depth);
    AxisOfPoint(root.center.y, root.half, p.y, depth);
    AxisOfPoint(root.center.z, root.half, p.z, depth);
    AxesContain(CubeAt(root, KeyOf(root, p), depth), AxisAt(root.center.x, root.half, x, depth),
                AxisAt(root.center.y, root.half, y, depth), AxisAt(root.center.z, root.half, z, depth), p);
  }

  lemma KeyFits(root: Cube, p: Vec)
    requires root.half > 0.0
    ensures FitsIn(KeyOf(root, p), SPATIAL_BITS)
  {
    InterleaveFits(Quantised(root.center.x, root.half, p.x), Quantised(root.center.y, root.half, p.y),
                   Quantised(root.center.z, root.half, p.z), GRID_BITS);
  }

  /** The prefix of the cell of a key leads to the same cube as the key. */
  lemma CubeOfPrefix(root: Cube, key: nat, level: nat, index: nat)
    requires FitsIn(key, SPATIAL_BITS) && level <= MAX_LEVEL && CellAt(key, level) == index
    ensures CubeAt(root, PrefixOf(level, index), level) == CubeAt(root, key, level)
  {
    ShiftRightTwice(key, SPATIAL_BITS - level * DIMENSIONS, level * DIMENSIONS);
    CellPrefixIsValid(level, index);
    SameCellSameCube(root, key, PrefixOf(level, index), level);
  }

  /** A point lies in the cube of every node whose prefix its key extends. */
  lemma PointInCubeOfCell(root: Cube, p: Vec, level: nat, index: nat)
    requires KeepsClear(root, p) && level <= MAX_LEVEL && CellAt(KeyOf(root, p), level) == index
    ensures Contains(CubeAt(root, PrefixOf(level, index), level), p)
  {
    KeyFits(root, p);
    CubeOfPrefix(root, KeyOf(root, p), level, index);
    PointInItsCube(root, p, level);
  }

  // ----- the kernel

  function NodeError(node: OctNode): int
  {
    if node.level < 0 || node.level > MAX_LEVEL then 1
    else if !PrefixIsValidForLevel(node.prefix, node.level) then 2
    else 0
  }

  function NodeCube(root: Cube, node: OctNode): Cube
  {
    if 0 <= node.level <= MAX_LEVEL then CubeAt(root, node.prefix, node.level) else root
  }

  method GeometryThread(root: Cube, node: OctNode) returns (cube: Cube, error: int)
    ensures error == NodeError(node)
    ensures error == 0 ==> cube == NodeCube(root, node)
  {
    cube, error := root, 0;
    var level := node.level;
    if level < 0 || level > MAX_LEVEL {
      return root, 1;
    }
    if !PrefixIsValidForLevel(node.prefix, level) {
      return root, 2;
    }
    for depth: int := 1 to level + 1
      invariant cube == CubeAt(root, node.prefix, depth - 1)
    {
      var octant := CellAt(node.prefix, depth) % 8;
      cube := Octant(cube, octant);
    }
  }

  /** All nodes in any order of threads; the first error is kept. */
  method ComputeOctreeGeometry(o: Octree, root: Cube) returns (cubes: seq<Cube>, error: int)
    ensures |cubes| == |o.nodes|
    ensures error == 0 <==> forall id :: 0 <= id < |o.nodes| ==> NodeError(o.nodes[id]) == 0
    ensures error != 0 ==> exists id :: 0 <= id < |o.nodes| && NodeError(o.nodes[id]) == error
    ensures error == 0 ==> forall id :: 0 <= id < |o.nodes| ==> cubes[id] == NodeCube(root, o.nodes[id])
  {
    var cells := new Cube[|o.nodes|](_ => root);
    error := 0;
    ghost var reporter := 0;
    var threads := ThreadIds(|o.nodes|);
    while threads != {}
      invariant forall t :: t in threads ==> 0 <= t < |o.nodes|
      invariant error == 0 ==> forall id :: 0 <= id < |o.nodes| && id !in threads ==>
                  NodeError(o.nodes[id]) == 0 && cells[id] == NodeCube(root, o.nodes[id])
      invariant error != 0 ==> 0 <= reporter < |o.nodes| && NodeError(o.nodes[reporter]) == error
    {
      var t :| t in threads;
      var cube, threadError := GeometryThread(root, o.nodes[t]);
      if threadError == 0 {
        cells[t] := cube;
      } else if error == 0 {
        error, reporter := threadError, t;
      }
      threads := threads - {t};
    }
    cubes := cells[..];
  }
}
