/** Capturing a frame: the bounds of the sampled positions by block-wise reductions and a pass
    over the blocks on the host, then the quantised coordinates, chunk by chunk. */
module DeviceCapture {
  import opened Vectors
  import opened BoundingBox
  import opened Sampling
  import opened Threads
  import R = RadixTree

  // ----- combining bounds in any grouping

  lemma CombineAssociates(a: Bounds, b: Bounds, c: Bounds)
    ensures Combine(Combine(a, b), c) == Combine(a, Combine(b, c))
  {
  }

  lemma CombineCommutes(a: Bounds, b: Bounds)
    ensures Combine(a, b) == Combine(b, a)
  {
  }

  function CombineAll(entries: seq<Bounds>): Bounds
  {
    if entries == [] then Nothing
    else Combine(CombineAll(entries[..|entries| - 1]), entries[|entries| - 1])
  }

  lemma {:induction false} CombineConcat(a: seq<Bounds>, b: seq<Bounds>)
    ensures CombineAll(a + b) == Combine(CombineAll(a), CombineAll(b))
  {
    if b == [] {
      assert a + b == a;
    } else {
      var front, last := b[..|b| - 1], b[|b| - 1];
      assert (a + b)[..|a + b| - 1] == a + front;
      CombineConcat(a, front);
      CombineAssociates(CombineAll(a), CombineAll(front), last);
    }
  }

  function Paired(a: seq<Bounds>, b: seq<Bounds>): (c: seq<Bounds>)
    requires |a| == |b|
    ensures |c| == |a|
  {
    seq(|a|, i requires 0 <= i < |a| => Combine(a[i], b[i]))
  }

  lemma ChangePartners(w: Bounds, x: Bounds, y: Bounds, z: Bounds)
    ensures Combine(Combine(w, x), Combine(y, z)) == Combine(Combine(w, y), Combine(x, z))
  {
    CombineAssociates(w, x, Combine(y, z));
    CombineAssociates(x, y, z);
    CombineCommutes(x, y);
    CombineAssociates(y, x, z);
    CombineAssociates(w, y, Combine(x, z));
  }

  /** One round of the reduction keeps the combination of everything. */
  lemma {:induction false} PairingKeeps(a: seq<Bounds>, b: seq<Bounds>)
    requires |a| == |b|
    ensures CombineAll(Paired(a, b)) == CombineAll(a + b)
  {
    CombineConcat(a, b);
    if a != [] {
      var n := |a| - 1;
      assert Paired(a, b)[..n] == Paired(a[..n], b[..n]);
      PairingKeeps(a[..n], b[..n]);
      CombineConcat(a[..n], b[..n]);
      ChangePartners(CombineAll(a[..n]), CombineAll(b[..n]), a[n], b[n]);
    }
  }

  /** What a round leaves in the lower half combines to what both halves held. */
  lemma RoundKeeps(before: seq<Bounds>, after: seq<Bounds>, stride: nat)
    requires 2 * stride <= |before| == |after|
    requires forall t :: 0 <= t < stride ==> after[t] == Combine(before[t], before[t + stride])
    ensures CombineAll(after[..stride]) == CombineAll(before[..2 * stride])
  {
    var low, high := before[..stride], before[stride..2 * stride];
    assert before[..2 * stride] == low + high;
    PairingKeeps(low, high);
    assert after[..stride] == Paired(low, high);
  }

  /** The tree reduction of a block in shared memory: in every round each thread of the lower
      half takes up its partner, in any order of threads, until one entry is left. */
  method BlockReduce(shared: array<Bounds>)
    requires shared.Length > 0 && R.PowerOfTwo(shared.Length)
    modifies shared
    ensures shared[0] == CombineAll(old(shared[..]))
  {
    ghost var all := CombineAll(shared[..]);
    var stride := shared.Length / 2;
    ghost var live := shared.Length;
    assert shared[..live] == shared[..];
    while stride > 0
      invariant 0 < live <= shared.Length && R.PowerOfTwo(live) && stride == live / 2
      invariant CombineAll(shared[..live]) == all
      decreases stride
    {
      ghost var before := shared[..];
      ReduceRound(shared, stride);
      assert live == 2 * stride;
      RoundKeeps(before, shared[..], stride);
      live := stride;
      stride := stride / 2;
    }
    assert live == 1;
    assert shared[..1] == [shared[0]];
  }

  method ReduceRound(shared: array<Bounds>, stride: nat)
    requires 0 < stride && 2 * stride <= shared.Length
    modifies shared
    ensures forall t :: 0 <= t < stride ==> shared[t] == Combine(old(shared[t]), old(shared[t + stride]))
    ensures forall t :: stride <= t < shared.Length ==> shared[t] == old(shared[t])
  {
    var threads := ThreadIds(stride);
    while threads != {}
      invariant forall t :: t in threads ==> 0 <= t < stride
      invariant forall t :: 0 <= t < stride ==>
                  shared[t] == if t in threads then old(shared[t]) else Combine(old(shared[t]), old(shared[t + stride]))
      invariant forall t :: stride <= t < shared.Length ==> shared[t] == old(shared[t])
    {
      var t :| t in threads;
      shared[t] := Combine(shared[t], shared[t + stride]);
      threads := threads - {t};
    }
  }

  // ----- the sample

  function Sampled(source: seq<Vec>, samples: nat): (points: seq<Vec>)
    requires 0 < samples <= |source|
    ensures |points| == samples
  {
    seq(samples, i requires 0 <= i < samples => PickSample(source, samples, i))
  }

  function PickSample(source: seq<Vec>, samples: nat, i: nat): Vec
    requires i < samples <= |source|
  {
    SampleInRange(i, |source|, samples);
    source[SourceIndex(i, |source|, samples)]
  }

  /** Every sample is the particle that its number stands for. */
  ghost predicate Shows(points: seq<Vec>, source: seq<Vec>, picks: seq<nat>)
  {
    && |points| == |picks|
    && forall i :: 0 <= i < |picks| ==> picks[i] < |source| && points[i] == source[picks[i]]
  }

  lemma SampleIsSpread(source: seq<Vec>, samples: nat) returns (picks: seq<nat>)
    requires 0 < samples <= |source|
    ensures Spread(picks, |source|, samples) && Shows(Sampled(source, samples), source, picks)
  {
    picks := Picks(|source|, samples);
    PicksAreSpread(|source|, samples);
  }

  function Boxes(points: seq<Vec>): (boxes: seq<Bounds>)
    ensures |boxes| == |points|
  {
    seq(|points|, i requires 0 <= i < |points| => Bounds(points[i], points[i]))
  }

  /** The entries of one block: a degenerate box for each sample of the chunk, nothing beyond. */
  function BlockEntry(points: seq<Vec>, first: nat, t: nat): Bounds
  {
    if first + t < |points| then Bounds(points[first + t], points[first + t]) else Nothing
  }

  function BlockEntries(points: seq<Vec>, first: nat, n: nat): (entries: seq<Bounds>)
    ensures |entries| == n
  {
    seq(n, t requires 0 <= t < n => BlockEntry(points, first, t))
  }

  /** Where the samples of a block end. */
  function BlockEnd(points: seq<Vec>, first: nat, threads: nat): (last: nat)
    requires first <= |points|
    ensures first <= last <= |points|
  {
    if first + threads <= |points| then first + threads else |points|
  }

  lemma {:induction false} OneMoreEntry(points: seq<Vec>, first: nat, n: nat)
    ensures CombineAll(BlockEntries(points, first, n + 1))
            == Combine(CombineAll(BlockEntries(points, first, n)), BlockEntry(points, first, n))
  {
    assert BlockEntries(points, first, n + 1)[..n] == BlockEntries(points, first, n);
  }

  lemma FullBlock(points: seq<Vec>, first: nat, n: nat)
    requires first + n <= |points|
    ensures BlockEntries(points, first, n) == Boxes(points)[first..first + n]
  {
  }

  lemma CombineNothing(b: Bounds)
    ensures Combine(b, Nothing) == b
  {
  }

  /** The idle threads at the end of the last block do not change the bounds. */
  lemma {:induction false} PaddingAddsNothing(points: seq<Vec>, first: nat, n: nat)
    requires first <= |points|
    ensures CombineAll(BlockEntries(points, first, n))
            == CombineAll(Boxes(points)[first..BlockEnd(points, first, n)])
    decreases n
  {
    if first + n <= |points| {
      FullBlock(points, first, n);
    } else {
      PaddingAddsNothing(points, first, n - 1);
      OneMoreEntry(points, first, n - 1);
      CombineNothing(CombineAll(BlockEntries(points, first, n - 1)));
    }
  }

  /** The bounds of one block. */
  method BlockBounds(points: seq<Vec>, first: nat, threads: nat) returns (bounds: Bounds)
    requires first <= |points| && 0 < threads && R.PowerOfTwo(threads)
    ensures bounds == CombineAll(Boxes(points)[first..BlockEnd(points, first, threads)])
  {
    var shared := new Bounds[threads](t requires 0 <= t < threads => BlockEntry(points, first, t));
    assert shared[..] == BlockEntries(points, first, threads);
    PaddingAddsNothing(points, first, threads);
    BlockReduce(shared);
    bounds := shared[0];
  }

  lemma BoxesExtend(boxes: seq<Bounds>, middle: nat, last: nat)
    requires middle <= last <= |boxes|
    ensures CombineAll(boxes[..last]) == Combine(CombineAll(boxes[..middle]), CombineAll(boxes[middle..last]))
  {
    assert boxes[..last] == boxes[..middle] + boxes[middle..last];
    CombineConcat(boxes[..middle], boxes[middle..last]);
  }

  /** All blocks of one chunk of samples, combined on the host. */
  method ChunkBounds(points: seq<Vec>, threads: nat) returns (bounds: Bounds)
    requires 0 < threads && R.PowerOfTwo(threads)
    ensures bounds == CombineAll(Boxes(points))
  {
    bounds := Nothing;
    var first := 0;
    while first < |points|
      invariant first <= |points| && bounds == CombineAll(Boxes(points)[..first])
    {
      var last := BlockEnd(points, first, threads);
      var block := BlockBounds(points, first, threads);
      BoxesExtend(Boxes(points), first, last);
      bounds := Combine(bounds, block);
      first := last;
    }
    assert Boxes(points)[..|points|] == Boxes(points);
  }

  lemma {:induction false} CombinedBoxesAreBounds(points: seq<Vec>, n: nat)
    requires n <= |points|
    ensures CombineAll(Boxes(points)[..n]) == Evaluate(points, AllPoints(n))
  {
    if n > 0 {
      CombinedBoxesAreBounds(points, n - 1);
      assert Boxes(points)[..n][..n - 1] == Boxes(points)[..n - 1];
      assert Evaluate(points, One(n - 1)) == Boxes(points)[n - 1];
    }
  }

  /** The bounds of the whole sample, whatever the sizes of chunks and blocks. */
  method CaptureBounds(source: seq<Vec>, samples: nat, chunk: nat, threads: nat)
    returns (bounds: Bounds, ghost picks: seq<nat>)
    requires 0 < samples <= |source| && 0 < chunk && 0 < threads && R.PowerOfTwo(threads)
    ensures Spread(picks, |source|, samples) && Shows(Sampled(source, samples), source, picks)
    ensures bounds.Bounds? && FitTightly(bounds.low, bounds.high, Sampled(source, samples))
    ensures bounds == BoundsOf(Sampled(source, samples))
  {
    ghost var points := Sampled(source, samples);
    bounds := Nothing;
    var offset := 0;
    while offset < samples
      invariant offset <= samples && bounds == CombineAll(Boxes(points)[..offset])
    {
      var last := if offset + chunk <= samples then offset + chunk else samples;
      var part := seq(last - offset, i requires 0 <= i < last - offset => PickSample(source, samples, offset + i));
      var partBounds := ChunkBounds(part, threads);
      assert Boxes(part) == Boxes(points)[offset..last];
      BoxesExtend(Boxes(points), offset, last);
      bounds := Combine(bounds, partBounds);
      offset := last;
    }
    CombinedBoxesAreBounds(points, samples);
    picks := SampleIsSpread(source, samples);
    BoundsFitTightly(points);
  }

  // ----- the frame

  /** Codes of one position within the bounds. */
  datatype Code = Code(x: nat, y: nat, z: nat)

  function CodeFor(p: Vec, b: Bounds): Code
    requires b.Bounds?
  {
    Code(Quantize(p.x, b.low.x, b.high.x), Quantize(p.y, b.low.y, b.high.y), Quantize(p.z, b.low.z, b.high.z))
  }

  /** The code stands for the point, to within half a step of the bounds on every axis. */
  ghost predicate Encodes(code: Code, b: Bounds, p: Vec)
    requires b.Bounds?
  {
    && Abs(Dequantize(code.x, b.low.x, b.high.x) - p.x) <= (b.high.x - b.low.x) / (2.0 * 65535.0)
    && Abs(Dequantize(code.y, b.low.y, b.high.y) - p.y) <= (b.high.y - b.low.y) / (2.0 * 65535.0)
    && Abs(Dequantize(code.z, b.low.z, b.high.z) - p.z) <= (b.high.z - b.low.z) / (2.0 * 65535.0)
  }

  /** The codes of all samples, chunk by chunk. */
  method EncodeSamples(source: seq<Vec>, samples: nat, chunk: nat, bounds: Bounds) returns (codes: seq<Code>)
    requires 0 < samples <= |source| && 0 < chunk && bounds.Bounds?
    ensures |codes| == samples
    ensures forall i :: 0 <= i < samples ==> codes[i] == CodeFor(Sampled(source, samples)[i], bounds)
  {
    codes := [];
    while |codes| < samples
      invariant |codes| <= samples
      invariant forall i :: 0 <= i < |codes| ==> codes[i] == CodeFor(Sampled(source, samples)[i], bounds)
    {
      var offset := |codes|;
      var count := if offset + chunk <= samples then chunk else samples - offset;
      codes := codes
        + seq(count, i requires 0 <= i < count => CodeFor(PickSample(source, samples, offset + i), bounds));
    }
  }

  /** Bounds first, then the codes of all samples chunk by chunk: the particles at evenly spread
      places of the source, their tight bounds, and for each the code nearest to it. */
  method Capture(source: seq<Vec>, samples: nat, chunk: nat, threads: nat)
    returns (bounds: Bounds, codes: seq<Code>, ghost picks: seq<nat>)
    requires 0 < samples <= |source| && 0 < chunk && 0 < threads && R.PowerOfTwo(threads)
    ensures Spread(picks, |source|, samples) && Shows(Sampled(source, samples), source, picks)
    ensures bounds.Bounds? && FitTightly(bounds.low, bounds.high, Sampled(source, samples))
    ensures |codes| == samples
    ensures forall i :: 0 <= i < samples ==> picks[i] < |source| && Encodes(codes[i], bounds, source[picks[i]])
    ensures bounds == BoundsOf(Sampled(source, samples))
    ensures forall i :: 0 <= i < samples ==> codes[i] == CodeFor(Sampled(source, samples)[i], bounds)
  {
    bounds, picks := CaptureBounds(source, samples, chunk, threads);
    codes := EncodeSamples(source, samples, chunk, bounds);
    CodesEncode(source, samples, picks, bounds, codes);
  }

  lemma CodesEncode(source: seq<Vec>, samples: nat, picks: seq<nat>, b: Bounds, codes: seq<Code>)
    requires 0 < samples <= |source| && |codes| == samples && Shows(Sampled(source, samples), source, picks)
    requires b.Bounds? && b == BoundsOf(Sampled(source, samples))
    requires forall i :: 0 <= i < samples ==> codes[i] == CodeFor(Sampled(source, samples)[i], b)
    ensures forall i :: 0 <= i < samples ==> picks[i] < |source| && Encodes(codes[i], b, source[picks[i]])
  {
    forall i | 0 <= i < samples
      ensures picks[i] < |source| && Encodes(codes[i], b, source[picks[i]])
    {
      CapturedError(source, samples, i);
    }
  }

  /** Every captured coordinate is decoded to within half a step of the range of the sample. */
  lemma CapturedError(source: seq<Vec>, samples: nat, i: nat)
    requires 0 < samples <= |source| && i < samples
    ensures var b, p := BoundsOf(Sampled(source, samples)), Sampled(source, samples)[i];
            b.Bounds? && Encodes(CodeFor(p, b), b, p)
  {
    var b, p := BoundsOf(Sampled(source, samples)), Sampled(source, samples)[i];
    PointsAreEnclosed(Sampled(source, samples), i);
    QuantizationError(p.x, b.low.x, b.high.x);
    QuantizationError(p.y, b.low.y, b.high.y);
    QuantizationError(p.z, b.low.z, b.high.z);
  }
}
