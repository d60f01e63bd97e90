/** From the particles on the device to the frame that a client reads: capture, writer, transfer
    and reader put together. */
module Delivery {
  import opened Ints
  import opened Options
  import opened Vectors
  import opened BoundingBox
  import opened Sampling
  import opened DeviceCapture
  import opened ByteFields
  import opened FrameFormat
  import opened FrameCodec
  import opened Transfer
  import R = RadixTree

  function CodeOnAxis(code: Code, c: nat): nat
  {
    if c == 0 then code.x else if c == 1 then code.y else code.z
  }

  /** The codes of all samples, x, y and z of each in turn. */
  function Flattened(codes: seq<Code>): (values: seq<nat>)
    ensures |values| == |codes| * COMPONENTS
  {
    seq(|codes| * COMPONENTS, k requires 0 <= k < |codes| * COMPONENTS => CodeOnAxis(codes[k / 3], k % 3))
  }

  /** A coordinate is stored exactly by its 64-bit pattern. */
  predicate StoredBy(d: Doubles, encode: real -> nat, r: real)
  {
    encode(r) <= U64_MAX && d.value(encode(r)) == r
  }

  ghost predicate AllStored(d: Doubles, encode: real -> nat, points: seq<Vec>)
  {
    forall i :: 0 <= i < |points| ==>
      StoredBy(d, encode, points[i].x) && StoredBy(d, encode, points[i].y) && StoredBy(d, encode, points[i].z)
  }

  function Patterns(encode: real -> nat, p: Vec): (patterns: seq<nat>)
    ensures |patterns| == COMPONENTS
  {
    [encode(p.x), encode(p.y), encode(p.z)]
  }

  /** Bounds are coordinates of the points, so what holds of all of these holds of the bounds. */
  lemma {:induction false} BoundsAreStored(d: Doubles, encode: real -> nat, points: seq<Vec>, r: Reduction)
    requires AllStored(d, encode, points)
    ensures var b := Evaluate(points, r);
            b.Bounds? ==>
              && StoredBy(d, encode, b.low.x) && StoredBy(d, encode, b.low.y) && StoredBy(d, encode, b.low.z)
              && StoredBy(d, encode, b.high.x) && StoredBy(d, encode, b.high.y) && StoredBy(d, encode, b.high.z)
  {
    if r.Both? {
      BoundsAreStored(d, encode, points, r.left);
      BoundsAreStored(d, encode, points, r.right);
    }
  }

  // ----- what a capture hands to the writer

  function CodesOf(source: seq<Vec>, samples: nat): (codes: seq<Code>)
    requires 0 < samples <= |source|
    ensures |codes| == samples
  {
    var points := Sampled(source, samples);
    PointsAreEnclosed(points, 0);
    seq(samples, i requires 0 <= i < samples => CodeFor(points[i], BoundsOf(points)))
  }

  /** The frame that a capture hands to the writer. */
  function CapturedFrame(source: seq<Vec>, samples: nat, sequence: nat, step: nat, time: nat,
                         types: Option<seq<Byte>>): Frame
    requires 0 < samples <= |source|
  {
    Frame(sequence, step, time, 0, |source|, samples, Flattened(CodesOf(source, samples)), types)
  }

  lemma CodesFit(source: seq<Vec>, samples: nat, sequence: nat, step: nat, time: nat, types: Option<seq<Byte>>)
    requires 0 < samples <= |source| <= INT_MAX
    requires sequence <= U64_MAX && step <= U64_MAX && time <= U64_MAX
    requires types.Some? ==> |types.value| == samples
    ensures WellTyped(CapturedFrame(source, samples, sequence, step, time, types), 2)
  {
    var values := Flattened(CodesOf(source, samples));
    assert Limit(2) == 65536;
    forall k | 0 <= k < |values|
      ensures values[k] < Limit(2)
    {
      assert values[k] == CodeOnAxis(CodesOf(source, samples)[k / 3], k % 3);
    }
  }

  // ----- reader

  /** A read coordinate is within half a step of the bounds. */
  ghost predicate ReadsNear(read: Coordinate, a: real, low: real, high: real)
  {
    read.Decoded? && Abs(read.value - a) <= (high - low) / (2.0 * 65535.0)
  }

  ghost predicate AllReadNear(d: Doubles, read: seq<Coordinate>, points: seq<Vec>, h: Header)
    requires |h.minimum| == |h.maximum| == COMPONENTS
  {
    && |read| == |points| * COMPONENTS
    && forall k :: 0 <= k < |read| ==>
         ReadsNear(read[k], OnAxis(points[k / 3], k % 3), d.value(h.minimum[k % 3]), d.value(h.maximum[k % 3]))
  }

  /** What the readers report of a file: a snapshot of these points out of so many particles, with
      their tight bounds, and every coordinate to within half a step of these. */
  ghost predicate Shown(d: Doubles, file: seq<Byte>, points: seq<Vec>, sources: nat,
                        sequence: nat, step: nat, time: nat, types: Option<seq<Byte>>)
  {
    && ReadFrameHeader(d, file).Some? && ReadFramePositions(d, file).Some?
    && var h := ReadFrameHeader(d, file).value;
    && |h.minimum| == |h.maximum| == COMPONENTS
    && h.sequence == sequence && h.step == step && h.time == time && h.sources == sources && h.count == |points|
    && FitTightly(Vec(d.value(h.minimum[0]), d.value(h.minimum[1]), d.value(h.minimum[2])),
                  Vec(d.value(h.maximum[0]), d.value(h.maximum[1]), d.value(h.maximum[2])), points)
    && AllReadNear(d, ReadFramePositions(d, file).value, points, h)
    && ReadFrameParticleTypes(d, file) == Some(if types.Some? then types.value else seq(|points|, _ => 0))
  }

  lemma CoordinateReadsNear(source: seq<Vec>, samples: nat, k: nat, i: nat, c: nat)
    requires 0 < samples <= |source| && i < samples && c < COMPONENTS && k == 3 * i + c
    ensures BoundsOf(Sampled(source, samples)).Bounds?
    ensures var b, p := BoundsOf(Sampled(source, samples)), Sampled(source, samples)[i];
            var code := Flattened(CodesOf(source, samples))[k];
            ReadsNear(Decoded(Dequantize(code, OnAxis(b.low, c), OnAxis(b.high, c))), OnAxis(p, c),
                      OnAxis(b.low, c), OnAxis(b.high, c))
  {
    CapturedError(source, samples, i);
    assert k / 3 == i && k % 3 == c;
  }

  lemma PatternsAreBounds(d: Doubles, encode: real -> nat, b: Bounds, c: nat)
    requires b.Bounds? && c < COMPONENTS
    requires StoredBy(d, encode, b.low.x) && StoredBy(d, encode, b.low.y) && StoredBy(d, encode, b.low.z)
    requires StoredBy(d, encode, b.high.x) && StoredBy(d, encode, b.high.y) && StoredBy(d, encode, b.high.z)
    ensures d.value(Patterns(encode, b.low)[c]) == OnAxis(b.low, c)
    ensures d.value(Patterns(encode, b.high)[c]) == OnAxis(b.high, c)
  {
  }

  lemma SamplesReadNear(d: Doubles, encode: real -> nat, source: seq<Vec>, samples: nat, b: Bounds,
                        values: seq<nat>, read: seq<Coordinate>, h: Header)
    requires 0 < samples <= |source| && AllStored(d, encode, Sampled(source, samples))
    requires b == BoundsOf(Sampled(source, samples)) && b.Bounds? && values == Flattened(CodesOf(source, samples))
    requires h.minimum == Patterns(encode, b.low) && h.maximum == Patterns(encode, b.high) && |read| == |values|
    requires forall k :: 0 <= k < |read| ==>
               read[k] == Decoded(Dequantize(values[k], d.value(h.minimum[k % 3]), d.value(h.maximum[k % 3])))
    ensures AllReadNear(d, read, Sampled(source, samples), h)
  {
    BoundsAreStored(d, encode, Sampled(source, samples), AllPoints(samples));
    var points := Sampled(source, samples);
    forall k | 0 <= k < |read|
      ensures ReadsNear(read[k], OnAxis(points[k / 3], k % 3), d.value(h.minimum[k % 3]), d.value(h.maximum[k % 3]))
    {
      CoordinateReadsNear(source, samples, k, k / 3, k % 3);
      PatternsAreBounds(d, encode, b, k % 3);
    }
  }

  lemma PatternsFit(d: Doubles, encode: real -> nat, points: seq<Vec>, b: Bounds)
    requires AllStored(d, encode, points) && b == BoundsOf(points) && b.Bounds?
    ensures AllBelow(Patterns(encode, b.low), U64_MAX + 1) && AllBelow(Patterns(encode, b.high), U64_MAX + 1)
  {
    BoundsAreStored(d, encode, points, AllPoints(|points|));
  }

  lemma BoundsComeBack(d: Doubles, encode: real -> nat, points: seq<Vec>, b: Bounds,
                       minimum: seq<nat>, maximum: seq<nat>)
    requires points != [] && AllStored(d, encode, points) && b == BoundsOf(points) && b.Bounds?
    requires minimum == Patterns(encode, b.low) && maximum == Patterns(encode, b.high)
    ensures FitTightly(Vec(d.value(minimum[0]), d.value(minimum[1]), d.value(minimum[2])),
                       Vec(d.value(maximum[0]), d.value(maximum[1]), d.value(maximum[2])), points)
  {
    BoundsAreStored(d, encode, points, AllPoints(|points|));
    BoundsFitTightly(points);
  }

  /** Every captured frame that the writer accepts is read back: header and types exactly, and
      each coordinate to within half a step of the particle that it stands for. */
  lemma CaptureIsReadBack(d: Doubles, encode: real -> nat, source: seq<Vec>, samples: nat, b: Bounds,
                          f: Frame, minimum: seq<nat>, maximum: seq<nat>, file: seq<Byte>)
    returns (picks: seq<nat>)
    requires 0 < samples <= |source| <= INT_MAX && AllStored(d, encode, Sampled(source, samples))
    requires b == BoundsOf(Sampled(source, samples)) && b.Bounds?
    requires minimum == Patterns(encode, b.low) && maximum == Patterns(encode, b.high)
    requires WellTyped(f, 2) && f == CapturedFrame(source, samples, f.sequence, f.step, f.time, f.types)
    requires QuantizedAccepts(d, f, minimum, maximum)
    requires file == FrameBytes(QuantizedHeader(f, minimum, maximum), f, 2)
    ensures Spread(picks, |source|, samples) && Shows(Sampled(source, samples), source, picks)
    ensures Shown(d, file, Sampled(source, samples), |source|, f.sequence, f.step, f.time, f.types)
    ensures ReadFrameHeader(d, file) == Some(QuantizedHeader(f, minimum, maximum))
  {
    picks := SampleIsSpread(source, samples);
    PatternsFit(d, encode, Sampled(source, samples), b);
    QuantizedRoundTrip(d, f, minimum, maximum);
    var h := ReadFrameHeader(d, file).value;
    SamplesReadNear(d, encode, source, samples, b, f.positions, ReadFramePositions(d, file).value, h);
    BoundsComeBack(d, encode, Sampled(source, samples), b, minimum, maximum);
  }

  /** One snapshot: bounds and codes from the device, and the frame of both. Whoever reads the file
      sees the particles at evenly spread places of the source. */
  method WriteCapture(d: Doubles, encode: real -> nat, source: seq<Vec>, samples: nat, chunk: nat, threads: nat,
                      sequence: nat, step: nat, time: nat, types: Option<seq<Byte>>)
    returns (file: Option<seq<Byte>>, ghost f: Frame, ghost minimum: seq<nat>, ghost maximum: seq<nat>,
             ghost picks: seq<nat>)
    requires 0 < samples <= |source| <= INT_MAX && 0 < chunk && 0 < threads && R.PowerOfTwo(threads)
    requires sequence <= U64_MAX && step <= U64_MAX && time <= U64_MAX
    requires types.Some? ==> |types.value| == samples
    ensures Spread(picks, |source|, samples) && Shows(Sampled(source, samples), source, picks)
    ensures file.Some? && AllStored(d, encode, Sampled(source, samples)) ==>
              Shown(d, file.value, Sampled(source, samples), |source|, sequence, step, time, types)
    ensures f == CapturedFrame(source, samples, sequence, step, time, types)
    ensures BoundsOf(Sampled(source, samples)).Bounds?
    ensures minimum == Patterns(encode, BoundsOf(Sampled(source, samples)).low)
    ensures maximum == Patterns(encode, BoundsOf(Sampled(source, samples)).high)
    ensures file.Some? <==> QuantizedAccepts(d, f, minimum, maximum)
    ensures file.Some? ==> file.value == FrameBytes(QuantizedHeader(f, minimum, maximum), f, 2)
  {
    var bounds, codes;
    bounds, codes, picks := Capture(source, samples, chunk, threads);
    assert codes == CodesOf(source, samples);
    CodesFit(source, samples, sequence, step, time, types);
    var frame := Frame(sequence, step, time, 0, |source|, samples, Flattened(codes), types);
    var low, high := Patterns(encode, bounds.low), Patterns(encode, bounds.high);
    f, minimum, maximum := frame, low, high;
    file := WriteQuantizedPositions(d, frame, low, high, chunk);
    if file.Some? && AllStored(d, encode, Sampled(source, samples)) {
      picks := CaptureIsReadBack(d, encode, source, samples, bounds, f, low, high, file.value);
    }
  }

  // ----- transfer

  /** What a client checks before it acknowledges. */
  function Validates(d: Doubles): Content -> bool
  {
    file => ReadFrameHeader(d, file).Some?
  }

  /** A client acknowledges only what it holds in full and can read. */
  lemma AcknowledgedIsReadable(d: Doubles, run: seq<State>, events: seq<Event>, k: nat)
    requires IsRun(Validates(d), run, events) && k < |events| && events[k] == Acknowledge
    ensures run[k].link.Up? && !run[k].link.stage.Choosing? && run[k + 1].acked == run[k].acked + [run[k].link.stage.id]
    ensures var id, client := run[k].link.stage.id, run[k].link.client;
            && id in run[k].spool && (client, id) in run[k + 1].stores
            && run[k + 1].stores[(client, id)] == run[k].spool[id]
            && ReadFrameHeader(d, run[k + 1].stores[(client, id)]).Some?
  {
    assert Enabled(run[k], events[k]) && run[k + 1] == Apply(Validates(d), run[k], events[k]);
    EveryRunIsKept(Validates(d), run, events, k);
  }

  /** The writers' frames pass the client's check, so they can be published and acknowledged. */
  lemma CapturesAreValid(d: Doubles, encode: real -> nat, source: seq<Vec>, samples: nat, b: Bounds,
                         f: Frame, minimum: seq<nat>, maximum: seq<nat>, id: FrameId)
    requires 0 < samples <= |source| <= INT_MAX && AllStored(d, encode, Sampled(source, samples))
    requires b == BoundsOf(Sampled(source, samples)) && b.Bounds?
    requires minimum == Patterns(encode, b.low) && maximum == Patterns(encode, b.high)
    requires WellTyped(f, 2) && f == CapturedFrame(source, samples, f.sequence, f.step, f.time, f.types)
    requires QuantizedAccepts(d, f, minimum, maximum) && id == FrameId(id.session, f.sequence)
    ensures Publishable(Validates(d), [Publication(id, FrameBytes(QuantizedHeader(f, minimum, maximum), f, 2))])
  {
    var file := FrameBytes(QuantizedHeader(f, minimum, maximum), f, 2);
    var picks := CaptureIsReadBack(d, encode, source, samples, b, f, minimum, maximum, file);
  }

  /** End to end: at every moment of every run, a captured frame whose name was not used again for
      other content is queued or on a client's disk, and whoever reads it there gets every
      coordinate to within half a step of the sampled particle. */
  lemma CapturesSurvive(d: Doubles, encode: real -> nat, source: seq<Vec>, samples: nat, b: Bounds,
                        f: Frame, minimum: seq<nat>, maximum: seq<nat>,
                        run: seq<State>, events: seq<Event>, k: nat, i: nat)
    returns (client: Option<nat>, picks: seq<nat>)
    requires 0 < samples <= |source| <= INT_MAX && AllStored(d, encode, Sampled(source, samples))
    requires b == BoundsOf(Sampled(source, samples)) && b.Bounds?
    requires minimum == Patterns(encode, b.low) && maximum == Patterns(encode, b.high)
    requires WellTyped(f, 2) && f == CapturedFrame(source, samples, f.sequence, f.step, f.time, f.types)
    requires QuantizedAccepts(d, f, minimum, maximum)
    requires IsRun(Validates(d), run, events) && k < |run| && i < |run[k].published|
    requires !Replaced(run[k].published, i)
    requires run[k].published[i].content == FrameBytes(QuantizedHeader(f, minimum, maximum), f, 2)
    ensures Spread(picks, |source|, samples) && Shows(Sampled(source, samples), source, picks)
    ensures var id := run[k].published[i].id;
            if client.None?
            then id in run[k].spool && Shown(d, run[k].spool[id], Sampled(source, samples), |source|,
                                             f.sequence, f.step, f.time, f.types)
            else (client.value, id) in run[k].stores
                 && Shown(d, run[k].stores[(client.value, id)], Sampled(source, samples), |source|,
                          f.sequence, f.step, f.time, f.types)
  {
    var p := run[k].published[i];
    picks := CaptureIsReadBack(d, encode, source, samples, b, f, minimum, maximum, p.content);
    NothingIsLost(Validates(d), run, events, k, i);
    if Queued(run[k], p) {
      client := None;
    } else {
      var holder :| HeldBy(Validates(d), run[k], holder, p);
      client := Some(holder);
    }
  }
}
