/** The octree of 30-bit keys always fits a 32-bit node count: its nodes are distinct cells,
    and levels 1 to 10 have only 8 + 8^2 + ... + 8^10 cells. */
module OctreeSize {
  import opened Prefixes
  import opened RadixTree
  import opened OctreePlan
  import opened OctreeIds
  import opened Threads

  function PowerOfEight(n: nat): nat
  {
    if n == 0 then 1 else 8 * PowerOfEight(n - 1)
  }

  /** Number of cells on levels 1 to n. */
  function CellsUpTo(n: nat): nat
  {
    if n == 0 then 0 else CellsUpTo(n - 1) + PowerOfEight(n)
  }

  lemma {:induction false} DigitsBound(a: nat, digits: nat)
    requires FitsIn(a, digits * DIMENSIONS)
    ensures a < PowerOfEight(digits)
    decreases digits
  {
    if digits > 0 {
      var rest := (digits - 1) * DIMENSIONS;
      assert ShiftRight(a, rest + 3) == ShiftRight(a / 2, rest + 2)
          == ShiftRight(a / 2 / 2, rest + 1) == ShiftRight(a / 2 / 2 / 2, rest);
      DigitsBound(a / 2 / 2 / 2, digits - 1);
    }
  }

  lemma CellIndexBound(key: nat, level: nat)
    requires FitsIn(key, SPATIAL_BITS) && level <= MAX_LEVEL
    ensures CellAt(key, level) < PowerOfEight(level)
  {
    ShiftRightTwice(key, SPATIAL_BITS - level * DIMENSIONS, level * DIMENSIONS);
    DigitsBound(CellAt(key, level), level);
  }

  lemma {:induction false} CellsGrow(m: nat, n: nat)
    requires m <= n
    ensures CellsUpTo(m) <= CellsUpTo(n)
    decreases n
  {
    if m < n {
      CellsGrow(m, n - 1);
    }
  }

  /** A number for every cell, level by level. */
  function CellNumber(level: nat, index: nat): nat
    requires level > 0
  {
    CellsUpTo(level - 1) + index
  }

  /** Cells of a coarser level have smaller numbers. */
  lemma CoarserIsSmaller(level: nat, index: nat, level': nat, index': nat)
    requires 0 < level < level' && index < PowerOfEight(level)
    ensures CellNumber(level, index) < CellNumber(level', index')
  {
    CellsGrow(level, level' - 1);
  }

  lemma CellNumberNamesCell(level: nat, index: nat, level': nat, index': nat)
    requires level > 0 && index < PowerOfEight(level) && level' > 0 && index' < PowerOfEight(level')
    requires CellNumber(level, index) == CellNumber(level', index')
    ensures level == level' && index == index'
  {
    if level < level' {
      CoarserIsSmaller(level, index, level', index');
    } else if level' < level {
      CoarserIsSmaller(level', index', level, index);
    }
  }

  function Elements(s: seq<nat>): (r: set<int>)
    ensures forall x :: x in r <==> x in s
  {
    if s == [] then {} else Elements(s[..|s| - 1]) + {s[|s| - 1]}
  }

  lemma {:induction false} DistinctElements(s: seq<nat>)
    requires forall i, j :: 0 <= i < j < |s| ==> s[i] != s[j]
    ensures |Elements(s)| == |s|
  {
    if s != [] {
      DistinctElements(s[..|s| - 1]);
    }
  }

  lemma {:induction false} ThreadIdsSize(n: nat)
    ensures |ThreadIds(n)| == n
  {
    if n > 0 {
      ThreadIdsSize(n - 1);
    }
  }

  lemma Pigeonhole(s: seq<nat>, bound: nat)
    requires forall i, j :: 0 <= i < j < |s| ==> s[i] != s[j]
    requires forall i :: 0 <= i < |s| ==> s[i] < bound
    ensures |s| <= bound
  {
    DistinctElements(s);
    ThreadIdsSize(bound);
    assert ThreadIds(bound) == Elements(s) + (ThreadIds(bound) - Elements(s));
  }

  function NumberOf(c: Cell): nat
  {
    if c.depth == 0 then 0 else CellNumber(c.depth, c.index)
  }

  /** The numbers of all nodes but the root, in id order. */
  function Numbers(cells: seq<Cell>): (numbers: seq<nat>)
    requires 0 < |cells|
    ensures |numbers| == |cells| - 1
    ensures forall i :: 0 <= i < |numbers| ==> numbers[i] == NumberOf(cells[i + 1])
  {
    seq(|cells| - 1, i requires 0 <= i < |cells| - 1 => NumberOf(cells[i + 1]))
  }

  lemma CellBound(keys: seq<nat>, cells: seq<Cell>, id: nat, levels: nat)
    requires GoodCells(keys, cells) && 0 < id < |cells| && levels == MAX_LEVEL
    requires forall k :: 0 <= k < |keys| ==> FitsIn(keys[k], SPATIAL_BITS)
    ensures cells[id].depth > 0 && cells[id].index < PowerOfEight(cells[id].depth)
    ensures NumberOf(cells[id]) < CellsUpTo(levels)
  {
    assert LinkedToParent(cells, id) && HoldsItsKeys(keys, cells[id]);
    CellIndexBound(keys[cells[id].first], cells[id].depth);
    CellsGrow(cells[id].depth, levels);
  }

  lemma NumbersDiffer(keys: seq<nat>, cells: seq<Cell>, a: nat, b: nat)
    requires GoodCells(keys, cells) && 0 < a < b < |cells|
    requires forall k :: 0 <= k < |keys| ==> FitsIn(keys[k], SPATIAL_BITS)
    ensures NumberOf(cells[a]) != NumberOf(cells[b])
  {
    CellBound(keys, cells, a, MAX_LEVEL);
    CellBound(keys, cells, b, MAX_LEVEL);
    if NumberOf(cells[a]) == NumberOf(cells[b]) {
      CellNumberNamesCell(cells[a].depth, cells[a].index, cells[b].depth, cells[b].index);
    }
  }

  lemma NumbersAreBounded(keys: seq<nat>, cells: seq<Cell>, levels: nat, numbers: seq<nat>, bound: nat)
    requires GoodCells(keys, cells) && levels == MAX_LEVEL && numbers == Numbers(cells) && bound == CellsUpTo(levels)
    requires forall k :: 0 <= k < |keys| ==> FitsIn(keys[k], SPATIAL_BITS)
    ensures forall i :: 0 <= i < |numbers| ==> numbers[i] < bound
  {
    forall i | 0 <= i < |numbers|
      ensures numbers[i] < bound
    {
      CellBound(keys, cells, i + 1, levels);
    }
  }

  lemma NumbersAreDistinct(keys: seq<nat>, cells: seq<Cell>)
    requires GoodCells(keys, cells)
    requires forall k :: 0 <= k < |keys| ==> FitsIn(keys[k], SPATIAL_BITS)
    ensures forall i, j :: 0 <= i < j < |Numbers(cells)| ==> Numbers(cells)[i] != Numbers(cells)[j]
  {
    forall i, j | 0 <= i < j < |Numbers(cells)|
      ensures Numbers(cells)[i] != Numbers(cells)[j]
    {
      NumbersDiffer(keys, cells, i + 1, j + 1);
    }
  }

  lemma NodesAreCells(keys: seq<nat>, cells: seq<Cell>, levels: nat)
    requires GoodCells(keys, cells) && levels == MAX_LEVEL
    requires forall k :: 0 <= k < |keys| ==> FitsIn(keys[k], SPATIAL_BITS)
    ensures |cells| <= 1 + CellsUpTo(levels)
  {
    NumbersAreBounded(keys, cells, levels, Numbers(cells), CellsUpTo(levels));
    NumbersAreDistinct(keys, cells);
    Pigeonhole(Numbers(cells), CellsUpTo(levels));
  }

  /** The node count of the octree, its root included, is far below the int limit. */
  lemma NodeCountFitsInt(keys: seq<nat>, g: seq<int>)
    requires UniqueKeys(keys) && g == Gaps(keys) && SpatialGaps(g)
    ensures NodeCount(g) <= 1_227_133_513
  {
    CellTableIsGood(keys, g);
    NodesAreCells(keys, CellTable(keys, g), MAX_LEVEL);
    AllCells();
  }

  lemma AllCells()
    ensures CellsUpTo(MAX_LEVEL) == 1_227_133_512
  {
    assert PowerOfEight(5) == 32768;
    assert PowerOfEight(10) == 32768 * 32768;
    assert CellsUpTo(5) == 37448;
  }
}
