/** The kernels that turn positions into Morton keys: normalise, quantise, and spread and combine
    the bits of the quantised coordinates on 32-bit words. */
module MortonKernels {
  import opened MortonBits
  import opened Vectors
  import opened BarnesHut
  import opened MortonKeys
  import opened OctreeGeometry
  import opened Threads

  method NormaliseKernel(a: seq<real>, centre: real, side: real) returns (normalised: seq<real>)
    requires side > 0.0
    ensures |normalised| == |a|
    ensures forall i :: 0 <= i < |a| ==> normalised[i] == Normalised(centre, side / 2.0, a[i])
  {
    var out := new real[|a|](_ => 0.0);
    var threads := ThreadIds(|a|);
    while threads != {}
      invariant forall t :: t in threads ==> 0 <= t < |a|
      invariant forall i :: 0 <= i < |a| && i !in threads ==> out[i] == Normalised(centre, side / 2.0, a[i])
    {
      var t :| t in threads;
      out[t] := (a[t] - (centre - side / 2.0)) / side;
      threads := threads - {t};
    }
    normalised := out[..];
  }

  method QuantiseKernel(normalised: seq<real>) returns (quantised: seq<Word>)
    ensures |quantised| == |normalised|
    ensures forall i :: 0 <= i < |normalised| ==> quantised[i] == WordOf(GridCell(normalised[i]), AXIS_BITS)
  {
    var out := new Word[|normalised|](_ => 0);
    var threads := ThreadIds(|normalised|);
    while threads != {}
      invariant forall t :: t in threads ==> 0 <= t < |normalised|
      invariant forall i :: 0 <= i < |normalised| && i !in threads ==>
                  out[i] == WordOf(GridCell(normalised[i]), AXIS_BITS)
    {
      var t :| t in threads;
      out[t] := WordOf(GridCell(normalised[t]), AXIS_BITS);
      threads := threads - {t};
    }
    quantised := out[..];
  }

  /** The kernel combines words; what they hold is the interleaved key. */
  method InterleaveBits(x: seq<Word>, y: seq<Word>, z: seq<Word>) returns (keys: seq<Word>)
    requires |x| == |y| == |z|
    ensures |keys| == |x|
    ensures forall i :: 0 <= i < |x| ==> keys[i] == KeyWord(x[i], y[i], z[i])
  {
    var out := new Word[|x|](_ => 0);
    var threads := ThreadIds(|x|);
    while threads != {}
      invariant forall t :: t in threads ==> 0 <= t < |x|
      invariant forall i :: 0 <= i < |x| && i !in threads ==> out[i] == KeyWord(x[i], y[i], z[i])
    {
      var t :| t in threads;
      out[t] := (ExpandBits(x[t]) << 2) | (ExpandBits(y[t]) << 1) | ExpandBits(z[t]);
      threads := threads - {t};
    }
    keys := out[..];
  }

  /** One axis of all particles. */
  method QuantiseAxis(a: seq<real>, centre: real, half: real) returns (quantised: seq<Word>)
    requires half > 0.0
    ensures |quantised| == |a|
    ensures forall i :: 0 <= i < |a| ==> quantised[i] == WordOf(Quantised(centre, half, a[i]), AXIS_BITS)
  {
    var normalised := NormaliseKernel(a, centre, 2.0 * half);
    quantised := QuantiseKernel(normalised);
    assert 2.0 * half / 2.0 == half;
  }

  /** The key word of a particle holds its key. */
  lemma KeyWordOfPoint(box: Cube, p: Vec, x: Word, y: Word, z: Word)
    requires box.half > 0.0
    requires x == WordOf(Quantised(box.center.x, box.half, p.x), AXIS_BITS)
    requires y == WordOf(Quantised(box.center.y, box.half, p.y), AXIS_BITS)
    requires z == WordOf(Quantised(box.center.z, box.half, p.z), AXIS_BITS)
    ensures Value(KeyWord(x, y, z), WORD_BITS) == KeyOf(box, p)
  {
    var a, b, c := Quantised(box.center.x, box.half, p.x), Quantised(box.center.y, box.half, p.y),
                   Quantised(box.center.z, box.half, p.z);
    SmallFits(a);
    SmallFits(b);
    SmallFits(c);
    KeyOfWords(a, b, c, AXIS_BITS);
  }

  /** Three axes, one after the other, and their interleaved bits. */
  method CreateKeys(box: Cube, points: seq<Vec>) returns (keys: seq<nat>)
    requires box.half > 0.0
    ensures |keys| == |points| && forall i :: 0 <= i < |points| ==> keys[i] == KeyOf(box, points[i])
  {
    var n := |points|;
    var x := QuantiseAxis(seq(n, i requires 0 <= i < n => points[i].x), box.center.x, box.half);
    var y := QuantiseAxis(seq(n, i requires 0 <= i < n => points[i].y), box.center.y, box.half);
    var z := QuantiseAxis(seq(n, i requires 0 <= i < n => points[i].z), box.center.z, box.half);
    var words := InterleaveBits(x, y, z);
    keys := seq(n, i requires 0 <= i < n => Value(words[i], WORD_BITS));
    forall i | 0 <= i < n
      ensures keys[i] == KeyOf(box, points[i])
    {
      KeyWordOfPoint(box, points[i], x[i], y[i], z[i]);
    }
  }
}
