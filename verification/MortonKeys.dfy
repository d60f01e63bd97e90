/** From positions to Morton keys, and why a particle lies in the cube of every cell that its
    key extends: normalisation, clamping, truncation, interleaving and the walk of the centre
    along the octal digits all speak of the same interval on every axis. */
module MortonKeys {
  import opened Prefixes
  import opened MortonBits
  import opened Vectors
  import opened BarnesHut
  import opened BoundingBox

  const GRID_BITS := 10
  const GRID_SIZE := 1024

  function Normalised(c: real, half: real, a: real): real
    requires half > 0.0
  {
    (a - (c - half)) / (2.0 * half)
  }

  /** Scaled to the grid, clamped into it, and truncated. */
  function GridCell(normalised: real): (q: nat)
    ensures q < GRID_SIZE
  {
    var clamped := Min(Max(normalised * 1024.0, 0.0), 1023.0);
    clamped.Floor
  }

  function Quantised(c: real, half: real, a: real): (q: nat)
    requires half > 0.0
    ensures q < GRID_SIZE
  {
    GridCell(Normalised(c, half, a))
  }

  function KeyOf(box: Cube, p: Vec): nat
    requires box.half > 0.0
  {
    Interleave(Quantised(box.center.x, box.half, p.x), Quantised(box.center.y, box.half, p.y),
               Quantised(box.center.z, box.half, p.z), GRID_BITS)
  }

  /** The width of one grid step. */
  function Unit(half: real): real
  {
    half / 512.0
  }

  /** The grid step of this number holds the coordinate. */
  ghost predicate InStep(c: real, half: real, q: nat, a: real)
  {
    c - half + q as real * Unit(half) <= a <= c - half + (q + 1) as real * Unit(half)
  }

  lemma Normalises(c: real, half: real, a: real)
    requires WellInside(c, half, a)
    ensures Normalised(c, half, a) * (2.0 * half) == a - (c - half)
    ensures 0.0 <= Normalised(c, half, a) * 1024.0 <= 1023.0
  {
    var t := Normalised(c, half, a);
    assert t * (2.0 * half) == a - (c - half);
    Cancels(2.0 * half, 0.0, t);
    Cancels(2.0 * half, t, 0.99);
  }

  lemma Cancels(k: real, a: real, b: real)
    requires k > 0.0 && a * k <= b * k
    ensures a <= b
  {
    ScalesUp(k, b, a);
  }

  lemma ScalesUp(k: real, a: real, b: real)
    requires k > 0.0
    ensures a < b ==> a * k < b * k
  {
    if a < b {
      assert (b - a) * k > 0.0;
    }
  }

  lemma Scales(k: real, a: real, b: real, ak: real, bk: real)
    requires k >= 0.0 && a <= b && ak == a * k && bk == b * k
    ensures ak <= bk
  {
  }

  /** Inside the padded cube the clamp never acts. */
  lemma ClampIsIdle(c: real, half: real, a: real)
    requires WellInside(c, half, a)
    ensures Quantised(c, half, a) == (Normalised(c, half, a) * 1024.0).Floor
  {
    Normalises(c, half, a);
  }

  lemma UnitOfScaled(t: real, half: real)
    ensures (t * 1024.0) * Unit(half) == t * (2.0 * half)
  {
    var u := Unit(half);
    assert 2.0 * half == 1024.0 * u;
    assert (t * 1024.0) * u == t * (1024.0 * u);
  }

  lemma StepOfScaled(u: real, q: int, scaled: real, offset: real)
    requires u >= 0.0 && q as real <= scaled <= (q + 1) as real && scaled * u == offset
    ensures q as real * u <= offset <= (q + 1) as real * u
  {
    var low, high := q as real, (q + 1) as real;
    Scales(u, low, scaled, low * u, offset);
    Scales(u, scaled, high, offset, high * u);
  }

  lemma QuantisedInStep(c: real, half: real, a: real)
    requires WellInside(c, half, a)
    ensures InStep(c, half, Quantised(c, half, a), a)
  {
    Normalises(c, half, a);
    ClampIsIdle(c, half, a);
    UnitOfScaled(Normalised(c, half, a), half);
    StepOfScaled(Unit(half), Quantised(c, half, a), Normalised(c, half, a) * 1024.0, a - (c - half));
  }

  // ----- the walk along one axis

  /** The low bits of a number. */
  function Low(q: nat, bits: nat): nat
    decreases bits
  {
    if bits == 0 then 0 else 2 * Low(q / 2, bits - 1) + q % 2
  }

  lemma {:induction false} LowIsSmall(q: nat, bits: nat)
    ensures Low(q, bits) < Pow2(bits)
    decreases bits
  {
    if bits > 0 {
      LowIsSmall(q / 2, bits - 1);
    }
  }

  lemma {:induction false} LowOfAll(q: nat, bits: nat)
    requires FitsIn(q, bits)
    ensures Low(q, bits) == q
    decreases bits
  {
    if bits > 0 {
      LowOfAll(q / 2, bits - 1);
    }
  }

  /** One more low bit adds the next bit of the number at its weight. */
  lemma {:induction false} OneMoreBit(q: nat, bits: nat)
    ensures Low(q, bits + 1) == Low(q, bits) + (ShiftRight(q, bits) % 2) * Pow2(bits)
    decreases bits
  {
    if bits > 0 {
      OneMoreBit(q / 2, bits - 1);
      DoubledBit(ShiftRight(q, bits) % 2, Pow2(bits - 1), Pow2(bits));
    }
  }

  lemma DoubledBit(bit: nat, power: nat, double: nat)
    requires bit < 2 && double == 2 * power
    ensures 2 * (bit * power) == bit * double
  {
    BitTimes(bit, power);
    BitTimes(bit, double);
  }

  datatype Axis = Axis(center: real, half: real)

  function Towards(up: Axis, bit: nat): Axis
  {
    var h := up.half * 0.5;
    Axis(if bit == 1 then up.center + h else up.center - h, h)
  }

  /** The centre and half size of the cell of a coordinate after so many levels. */
  function AxisAt(c: real, half: real, q: nat, depth: nat): Axis
    requires depth <= GRID_BITS
  {
    if depth == 0 then Axis(c, half)
    else Towards(AxisAt(c, half, q, depth - 1), ShiftRight(q, GRID_BITS - depth) % 2)
  }

  /** A cell that starts so many steps behind the origin and is so many steps wide. */
  ghost predicate Spans(origin: real, u: real, edge: int, width: int, cell: Axis)
  {
    cell.center - cell.half == origin + edge as real * u && 2.0 * cell.half == width as real * u
  }

  /** A cell starts where its leading bits say and is as wide as its remaining bits allow. */
  ghost predicate SpansBits(c: real, half: real, q: nat, rest: nat, cell: Axis)
  {
    Spans(c - half, Unit(half), q - Low(q, rest), Pow2(rest), cell)
  }

  lemma Distributes(a: int, b: int, u: real)
    ensures (a + b) as real * u == a as real * u + b as real * u
  {
  }

  /** Half of a span of 2 * width steps that starts at an edge. */
  lemma HalfSpan(origin: real, u: real, edge: int, width: int, bit: nat, up: Axis)
    requires Spans(origin, u, edge, 2 * width, up)
    ensures Spans(origin, u, edge + if bit == 1 then width else 0, width, Towards(up, bit))
  {
    Distributes(width, width, u);
    Distributes(edge, width, u);
  }

  /** The part of a number above its low bits grows by the weight of the bit that is set free. */
  lemma EdgeGrows(q: nat, rest: nat)
    ensures q - Low(q, rest) == q - Low(q, rest + 1) + if ShiftRight(q, rest) % 2 == 1 then Pow2(rest) else 0
  {
    OneMoreBit(q, rest);
    BitTimes(ShiftRight(q, rest) % 2, Pow2(rest));
  }

  lemma BitTimes(b: nat, width: nat)
    requires b < 2
    ensures b * width == if b == 1 then width else 0
  {
  }

  lemma StepSpansBits(c: real, half: real, q: nat, rest: nat, up: Axis)
    requires SpansBits(c, half, q, rest + 1, up)
    ensures SpansBits(c, half, q, rest, Towards(up, ShiftRight(q, rest) % 2))
  {
    EdgeGrows(q, rest);
    HalfSpan(c - half, Unit(half), q - Low(q, rest + 1), Pow2(rest), ShiftRight(q, rest) % 2, up);
  }

  lemma WholeSpansBits(c: real, half: real, q: nat, bits: nat)
    requires FitsIn(q, bits) && bits == GRID_BITS
    ensures SpansBits(c, half, q, bits, Axis(c, half))
  {
    LowOfAll(q, bits);
    GridSteps();
    WholeSpan(c, half, Unit(half), q - Low(q, bits), Pow2(bits));
  }

  lemma GridSteps()
    ensures Pow2(GRID_BITS) == GRID_SIZE
  {
    assert Pow2(5) == 32;
    assert Pow2(10) == 32 * 32;
  }

  lemma WholeSpan(c: real, half: real, u: real, edge: int, width: int)
    requires u == half / 512.0 && edge == 0 && width == 1024
    ensures Spans(c - half, u, edge, width, Axis(c, half))
  {
    assert 1024.0 * u == 2.0 * half;
    assert 0.0 * u == 0.0;
  }

  lemma {:induction false} AxisSpansBits(c: real, half: real, q: nat, bits: nat, depth: nat)
    requires FitsIn(q, bits) && depth <= bits == GRID_BITS
    ensures SpansBits(c, half, q, bits - depth, AxisAt(c, half, q, depth))
    decreases depth
  {
    if depth == 0 {
      WholeSpansBits(c, half, q, bits);
    } else {
      AxisSpansBits(c, half, q, bits, depth - 1);
      StepSpansBits(c, half, q, bits - depth, AxisAt(c, half, q, depth - 1));
    }
  }

  lemma AboveEdge(origin: real, u: real, edge: int, q: int, a: real)
    requires u >= 0.0 && edge <= q && origin + q as real * u <= a
    ensures origin + edge as real * u <= a
  {
    var low, high := edge as real, q as real;
    Scales(u, low, high, low * u, high * u);
  }

  lemma BelowEdge(origin: real, u: real, edge: int, q: int, a: real)
    requires u >= 0.0 && q + 1 <= edge && a <= origin + (q + 1) as real * u
    ensures a <= origin + edge as real * u
  {
    var low, high := (q + 1) as real, edge as real;
    Scales(u, low, high, low * u, high * u);
  }

  lemma SpanHolds(c: real, half: real, q: nat, rest: nat, a: real, cell: Axis)
    requires half > 0.0 && InStep(c, half, q, a) && SpansBits(c, half, q, rest, cell)
    ensures cell.center - cell.half <= a <= cell.center + cell.half
  {
    var edge, width, u := q - Low(q, rest), Pow2(rest), Unit(half);
    LowIsSmall(q, rest);
    AboveEdge(c - half, u, edge, q, a);
    BelowEdge(c - half, u, edge + width, q, a);
    Distributes(edge, width, u);
  }

  /** On every level the coordinate lies in the cell of its quantised value. */
  lemma AxisHolds(c: real, half: real, q: nat, depth: nat, a: real)
    requires half > 0.0 && FitsIn(q, GRID_BITS) && depth <= GRID_BITS && InStep(c, half, q, a)
    ensures Abs(a - AxisAt(c, half, q, depth).center) <= AxisAt(c, half, q, depth).half
  {
    AxisSpansBits(c, half, q, GRID_BITS, depth);
    SpanHolds(c, half, q, GRID_BITS - depth, a, AxisAt(c, half, q, depth));
  }
}
