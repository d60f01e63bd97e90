/** Whole frames: the two writers, the reader of positions and types, and the browser's reader of
    the same files. */
module FrameCodec {
  import opened ByteFields
  import opened FrameFormat
  import opened Options
  import opened Sampling

  // ----- writing

  /** What a writer is asked to store. Positions are 32-bit patterns or 16-bit codes, x, y and z
      of each particle in turn. */
  datatype Frame = Frame(sequence: nat, step: nat, time: nat, totalSteps: nat, sources: nat, count: nat,
                         positions: seq<nat>, types: Option<seq<Byte>>)

  /** Arguments in the range of their C++ types, and readers that deliver what they are asked
      for. */
  ghost predicate WellTyped(f: Frame, width: nat)
  {
    && f.sequence <= U64_MAX && f.step <= U64_MAX && f.time <= U64_MAX && f.totalSteps <= U64_MAX
    && f.sources <= U64_MAX && f.count <= U64_MAX
    && |f.positions| == f.count * COMPONENTS && AllBelow(f.positions, Limit(width))
    && (f.types.Some? ==> |f.types.value| == f.count)
  }

  function SourceCount(f: Frame): nat
  {
    if f.sources == 0 then f.count else f.sources
  }

  function TypeBytes(f: Frame): nat
  {
    if f.types.Some? then f.count else 0
  }

  function TypesOf(f: Frame): seq<Byte>
  {
    if f.types.Some? then f.types.value else []
  }

  predicate KnownTypes(types: seq<nat>)
  {
    forall i :: 0 <= i < |types| ==> types[i] <= LAST_TYPE
  }

  predicate ValidTypes(f: Frame)
  {
    f.types.Some? ==> KnownTypes(f.types.value)
  }

  /** What both writers demand. */
  predicate Acceptable(d: Doubles, f: Frame)
  {
    d.finite(f.time) && d.value(f.time) >= 0.0 && f.count > 0 && SourceCount(f) >= f.count && ValidTypes(f)
  }

  predicate TypedAccepts(d: Doubles, f: Frame)
  {
    && Acceptable(d, f) && (f.types.Some? ==> f.totalSteps >= f.step)
    && f.count <= U64_MAX / (COMPONENTS * 4)
  }

  predicate QuantizedAccepts(d: Doubles, f: Frame, minimum: seq<nat>, maximum: seq<nat>)
    requires |minimum| == |maximum|
  {
    && Acceptable(d, f) && ValidBounds(d, minimum, maximum)
    && f.count <= U64_MAX / (COMPONENTS * 2)
    && f.count * COMPONENTS * 2 <= U64_MAX - TypeBytes(f)
  }

  /** The sum of both payload sections is not checked by this writer and wraps around. */
  function TypedHeader(f: Frame): Header
  {
    var typed := f.types.Some?;
    Header(if typed then 2 else 1, if typed then 80 else 72, f.sequence, f.step, f.time, SourceCount(f), f.count,
           4, COMPONENTS, (f.count * COMPONENTS * 4 + TypeBytes(f)) % (U64_MAX + 1),
           if typed then f.totalSteps else 0, NO_BOUNDS, NO_BOUNDS, TypeBytes(f))
  }

  function QuantizedHeader(f: Frame, minimum: seq<nat>, maximum: seq<nat>): Header
  {
    var typed := f.types.Some?;
    Header(if typed then 3 else 2, if typed then 128 else 120, f.sequence, f.step, f.time, SourceCount(f), f.count,
           2, COMPONENTS, f.count * COMPONENTS * 2 + TypeBytes(f), 0, minimum, maximum, TypeBytes(f))
  }

  function FrameBytes(h: Header, f: Frame, width: nat): seq<Byte>
    requires |h.minimum| == |h.maximum| == COMPONENTS
  {
    HeaderBytes(h) + (Payload(f.positions, width) + TypesOf(f))
  }

  // ----- what a file says, in the words of the caller

  /** The bytes that all layouts start with, by the weight of each byte. */
  ghost predicate Opens(file: seq<Byte>, f: Frame, version: nat, headerBytes: nat, scalarBytes: nat, payload: nat)
  {
    && |file| >= headerBytes >= 72
    && (forall k :: 0 <= k < 8 ==> file[k] == "NBSNAP01"[k] as nat)
    && Weight4(file, 8) == version && Weight4(file, 12) == headerBytes
    && Weight8(file, 16) == f.sequence && Weight8(file, 24) == f.step && Weight8(file, 32) == f.time
    && Weight8(file, 40) == (if f.sources == 0 then f.count else f.sources) && Weight8(file, 48) == f.count
    && Weight4(file, 56) == scalarBytes && Weight4(file, 60) == 3 && Weight8(file, 64) == payload
  }

  /** Values of four bytes each, by weight. */
  ghost predicate Weighs4(file: seq<Byte>, first: nat, values: seq<nat>)
  {
    && |file| >= first + 4 * |values|
    && forall i :: 0 <= i < |values| ==> Weight4(file, first + 4 * i) == values[i]
  }

  ghost predicate Weighs2(file: seq<Byte>, first: nat, values: seq<nat>)
  {
    && |file| >= first + 2 * |values|
    && forall i :: 0 <= i < |values| ==> Weight2(file, first + 2 * i) == values[i]
  }

  ghost predicate BoundsStand(file: seq<Byte>, minimum: seq<nat>, maximum: seq<nat>)
    requires |minimum| == |maximum| == COMPONENTS
  {
    && |file| >= 120
    && Weight8(file, 72) == minimum[0] && Weight8(file, 80) == minimum[1] && Weight8(file, 88) == minimum[2]
    && Weight8(file, 96) == maximum[0] && Weight8(file, 104) == maximum[1] && Weight8(file, 112) == maximum[2]
  }

  /** The last bytes of the file are the types, one byte each. */
  ghost predicate EndsWithTypes(file: seq<Byte>, f: Frame, first: nat)
  {
    if f.types.None? then |file| == first
    else
      && |file| == first + |f.types.value|
      && forall i :: 0 <= i < |f.types.value| ==> file[first + i] == f.types.value[i]
  }

  ghost predicate FloatParts(file: seq<Byte>, f: Frame, version: nat, first: nat, payload: nat)
  {
    && Opens(file, f, version, first, 4, payload)
    && (f.types.Some? ==> first >= 80 && Weight8(file, 72) == f.totalSteps)
    && Weighs4(file, first, f.positions) && EndsWithTypes(file, f, first + 4 * |f.positions|)
  }

  /** A float frame: 72 bytes of header, or 80 with the total steps of a typed one, four bytes for
      each coordinate, and the types. */
  ghost predicate IsFloatFile(file: seq<Byte>, f: Frame)
  {
    if f.types.Some? then FloatParts(file, f, 2, 80, (12 * f.count + f.count) % 0x1_0000_0000_0000_0000)
    else FloatParts(file, f, 1, 72, 12 * f.count % 0x1_0000_0000_0000_0000)
  }

  ghost predicate QuantizedParts(file: seq<Byte>, f: Frame, minimum: seq<nat>, maximum: seq<nat>,
                                 version: nat, first: nat, payload: nat)
    requires |minimum| == |maximum| == COMPONENTS
  {
    && Opens(file, f, version, first, 2, payload)
    && BoundsStand(file, minimum, maximum)
    && (f.types.Some? ==> first >= 128 && Weight8(file, 120) == f.count)
    && Weighs2(file, first, f.positions) && EndsWithTypes(file, f, first + 2 * |f.positions|)
  }

  /** A quantised frame: 120 bytes of header with both bounds, or 128 with the number of types,
      two bytes for each coordinate, and the types. */
  ghost predicate IsQuantizedFile(file: seq<Byte>, f: Frame, minimum: seq<nat>, maximum: seq<nat>)
    requires |minimum| == |maximum| == COMPONENTS
  {
    if f.types.Some? then QuantizedParts(file, f, minimum, maximum, 3, 128, 6 * f.count + f.count)
    else QuantizedParts(file, f, minimum, maximum, 2, 120, 6 * f.count)
  }

  /** A header that tells what the frame is. */
  ghost predicate TellsOf(h: Header, f: Frame)
  {
    && h.sequence == f.sequence && h.step == f.step && h.time == f.time
    && h.count == f.count && h.sources == (if f.sources == 0 then f.count else f.sources)
    && h.typeBytes == if f.types.Some? then f.count else 0
  }

  // ----- the writers

  /** The chunk loop over the types stops at the first unsupported value. */
  method WriteTypes(types: seq<Byte>, chunk: nat) returns (ok: bool, bytes: seq<Byte>)
    requires chunk > 0
    ensures ok <==> forall i :: 0 <= i < |types| ==> types[i] <= 4
    ensures ok <==> KnownTypes(types)
    ensures ok ==> bytes == types
  {
    ok, bytes := true, [];
    var offset := 0;
    while offset < |types|
      invariant offset <= |types| && ok && bytes == types[..offset]
      invariant forall i :: 0 <= i < offset ==> types[i] <= LAST_TYPE
    {
      var count := if offset + chunk <= |types| then chunk else |types| - offset;
      var index := 0;
      while index < count
        invariant index <= count && forall i :: 0 <= i < offset + index ==> types[i] <= LAST_TYPE
      {
        if types[offset + index] > LAST_TYPE {
          return false, bytes;
        }
        index := index + 1;
      }
      bytes := bytes + types[offset..offset + count];
      offset := offset + count;
    }
  }

  method WriteFrame(h: Header, f: Frame, width: nat, chunk: nat) returns (file: Option<seq<Byte>>)
    requires |h.minimum| == |h.maximum| == COMPONENTS && chunk > 0
    ensures file.Some? <==> ValidTypes(f)
    ensures file.Some? ==> file.value == FrameBytes(h, f, width)
  {
    var bytes := WriteChunks(f.positions, width, chunk);
    var types := [];
    if f.types.Some? {
      var ok;
      ok, types := WriteTypes(f.types.value, chunk);
      if !ok {
        return None;
      }
    }
    file := Some(HeaderBytes(h) + (bytes + types));
  }

  method WriteTypedPositions(d: Doubles, f: Frame, chunk: nat) returns (file: Option<seq<Byte>>)
    requires WellTyped(f, 4) && chunk > 0
    ensures file.Some? <==> TypedAccepts(d, f)
    ensures file.Some? ==> IsFloatFile(file.value, f)
    ensures file.Some? ==> file.value == FrameBytes(TypedHeader(f), f, 4)
  {
    if !d.finite(f.time) || d.value(f.time) < 0.0 {
      return None;
    }
    if f.types.Some? && f.totalSteps < f.step {
      return None;
    }
    if f.count == 0 || SourceCount(f) < f.count || f.count > U64_MAX / (COMPONENTS * 4) {
      return None;
    }
    file := WriteFrame(TypedHeader(f), f, 4, chunk);
    if file.Some? {
      TypedIsFloatFile(d, f);
    }
  }

  method WriteQuantizedPositions(d: Doubles, f: Frame, minimum: seq<nat>, maximum: seq<nat>, chunk: nat)
    returns (file: Option<seq<Byte>>)
    requires WellTyped(f, 2) && |minimum| == |maximum| == COMPONENTS && chunk > 0
    ensures file.Some? <==> QuantizedAccepts(d, f, minimum, maximum)
    ensures file.Some? && AllBelow(minimum, U64_MAX + 1) && AllBelow(maximum, U64_MAX + 1) ==>
              IsQuantizedFile(file.value, f, minimum, maximum)
    ensures file.Some? ==> file.value == FrameBytes(QuantizedHeader(f, minimum, maximum), f, 2)
  {
    if !d.finite(f.time) || d.value(f.time) < 0.0 {
      return None;
    }
    if f.count == 0 || !ValidBounds(d, minimum, maximum) {
      return None;
    }
    if SourceCount(f) < f.count || f.count > U64_MAX / (COMPONENTS * 2)
       || f.count * COMPONENTS * 2 > U64_MAX - TypeBytes(f) {
      return None;
    }
    file := WriteFrame(QuantizedHeader(f, minimum, maximum), f, 2, chunk);
    if file.Some? {
      QuantizedIsQuantizedFile(d, f, minimum, maximum);
    }
  }

  // ----- reading

  /** A coordinate that was stored as a float, or one that was rebuilt from its code. */
  datatype Coordinate = Float(bits: nat) | Decoded(value: real)

  /** The coordinate at one place of the payload. */
  function CoordinateAt(d: Doubles, file: seq<Byte>, h: Header, i: nat): Coordinate
    requires |h.minimum| == |h.maximum| == COMPONENTS
             && h.headerBytes + PlaceOf(i, h.scalarBytes) + h.scalarBytes <= |file|
  {
    var raw := FieldAt(file, h.headerBytes + PlaceOf(i, h.scalarBytes), h.scalarBytes);
    if h.scalarBytes == 4 then Float(raw)
    else Decoded(Dequantize(raw, d.value(h.minimum[i % 3]), d.value(h.maximum[i % 3])))
  }

  lemma PlacesFit(count: nat, width: nat, i: nat)
    requires i < count * COMPONENTS
    ensures PlaceOf(i, width) + width <= count * COMPONENTS * width
  {
    assert (i + 1) * width <= count * COMPONENTS * width;
  }

  lemma AcceptedSizes(d: Doubles, file: seq<Byte>)
    requires ReadFrameHeader(d, file).Some?
    ensures var h := ReadFrameHeader(d, file).value;
            && |h.minimum| == |h.maximum| == COMPONENTS && Consistent(d, h)
            && |file| == h.headerBytes + PositionBytes(h) + h.typeBytes
  {
  }

  function ReadFramePositions(d: Doubles, file: seq<Byte>): Option<seq<Coordinate>>
  {
    var header := ReadFrameHeader(d, file);
    if header.None? then None
    else
      AcceptedSizes(d, file);
      var h := header.value;
      Some(seq(h.count * COMPONENTS, i requires 0 <= i < h.count * COMPONENTS =>
        PlacesFit(h.count, h.scalarBytes, i);
        CoordinateAt(d, file, h, i)))
  }

  lemma PositionRead(d: Doubles, file: seq<Byte>, h: Header, i: nat)
    requires ReadFrameHeader(d, file) == Some(h) && i < h.count * COMPONENTS
    ensures |h.minimum| == |h.maximum| == COMPONENTS
    ensures h.headerBytes + PlaceOf(i, h.scalarBytes) + h.scalarBytes <= |file|
    ensures ReadFramePositions(d, file).Some? && |ReadFramePositions(d, file).value| == h.count * COMPONENTS
    ensures ReadFramePositions(d, file).value[i] == CoordinateAt(d, file, h, i)
  {
    AcceptedSizes(d, file);
    PlacesFit(h.count, h.scalarBytes, i);
  }

  lemma NextPosition(d: Doubles, file: seq<Byte>, h: Header, all: seq<Coordinate>, n: nat)
    requires ReadFrameHeader(d, file) == Some(h) && n < h.count * COMPONENTS && ReadFramePositions(d, file) == Some(all)
    ensures |h.minimum| == |h.maximum| == COMPONENTS
    ensures h.headerBytes + PlaceOf(n, h.scalarBytes) + h.scalarBytes <= |file|
    ensures n < |all| && all[..n + 1] == all[..n] + [CoordinateAt(d, file, h, n)]
  {
    PositionRead(d, file, h, n);
  }

  /** The decoding loop, one chunk of values after the other, whatever the size of the chunks. */
  method DecodePositions(d: Doubles, file: seq<Byte>, chunk: nat) returns (positions: Option<seq<Coordinate>>)
    requires chunk > 0
    ensures positions == ReadFramePositions(d, file)
  {
    var header := ReadFrameHeader(d, file);
    if header.None? {
      return None;
    }
    AcceptedSizes(d, file);
    var h := header.value;
    ghost var all := ReadFramePositions(d, file).value;
    var decoded: seq<Coordinate> := [];
    var total := h.count * COMPONENTS;
    while |decoded| < total
      invariant |decoded| <= total && decoded == all[..|decoded|]
    {
      var offset := |decoded|;
      var count := if offset + chunk <= total then chunk else total - offset;
      for index := 0 to count
        invariant |decoded| == offset + index && decoded == all[..offset + index]
      {
        NextPosition(d, file, h, all, offset + index);
        decoded := decoded + [CoordinateAt(d, file, h, offset + index)];
      }
    }
    assert all[..total] == all;
    positions := Some(decoded);
  }

  /** One type for each particle; frames without types get type 0. */
  function ReadFrameParticleTypes(d: Doubles, file: seq<Byte>): Option<seq<Byte>>
  {
    var header := ReadFrameHeader(d, file);
    if header.None? then None
    else
      AcceptedSizes(d, file);
      var h := header.value;
      if h.typeBytes == 0 then Some(seq(h.count, _ => 0))
      else
        var first := h.headerBytes + PositionBytes(h);
        var types := file[first..first + h.typeBytes];
        if KnownTypes(types) then Some(types) else None
  }

  // ----- what was written is read

  /** A header that describes the frame behind it. */
  ghost predicate Describes(h: Header, f: Frame, width: nat)
  {
    && Writable(h) && h.scalarBytes == width && h.count == f.count && h.typeBytes == TypeBytes(f)
    && WellTyped(f, width)
  }

  lemma FrameLength(h: Header, f: Frame, width: nat)
    requires Describes(h, f, width)
    ensures |FrameBytes(h, f, width)| == h.headerBytes + PositionBytes(h) + h.typeBytes
  {
    HeaderHasItsLength(h);
    PayloadLength(f.positions, width);
  }

  /** The header of a described frame comes back exactly when it is consistent. */
  lemma HeaderComesBack(d: Doubles, h: Header, f: Frame, width: nat)
    requires Describes(h, f, width)
    ensures ReadFrameHeader(d, FrameBytes(h, f, width)) == if Consistent(d, h) then Some(h) else None
  {
    HeaderIsParsed(h, Payload(f.positions, width) + TypesOf(f));
    FrameLength(h, f, width);
  }

  /** The values stand one behind the other from an offset on. */
  ghost predicate Stored(file: seq<Byte>, first: nat, width: nat, values: seq<nat>)
  {
    forall i :: 0 <= i < |values| ==> ReadsAt(file, first + PlaceOf(i, width), width, values[i])
  }

  lemma StoredBehind(front: seq<Byte>, values: seq<nat>, width: nat, rest: seq<Byte>, file: seq<Byte>)
    requires AllBelow(values, Limit(width)) && file == front + (Payload(values, width) + rest)
    ensures Stored(file, |front|, width, values)
  {
    forall i | 0 <= i < |values|
      ensures ReadsAt(file, |front| + PlaceOf(i, width), width, values[i])
    {
      ScalarBehindBytes(front, values, width, i, rest, file);
    }
  }

  lemma LastPart(front: seq<Byte>, middle: seq<Byte>, last: seq<Byte>, file: seq<Byte>)
    requires file == front + (middle + last)
    ensures |front| + |middle| + |last| == |file|
    ensures file[|front| + |middle|..|front| + |middle| + |last|] == last
  {
    assert file == front + middle + last;
  }

  lemma PositionBytesOf(h: Header, f: Frame, width: nat)
    requires Describes(h, f, width)
    ensures |Payload(f.positions, width)| == PositionBytes(h)
  {
    PayloadLength(f.positions, width);
  }

  lemma TypesAreStored(h: Header, f: Frame, width: nat, file: seq<Byte>)
    requires Describes(h, f, width) && f.types.Some? && file == FrameBytes(h, f, width)
    ensures var first := h.headerBytes + PositionBytes(h);
            first + f.count == |file| && file[first..first + f.count] == f.types.value
  {
    HeaderHasItsLength(h);
    PositionBytesOf(h, f, width);
    LastPart(HeaderBytes(h), Payload(f.positions, width), f.types.value, file);
  }

  /** The coordinate that a stored value stands for. */
  function Meaning(d: Doubles, h: Header, raw: nat, i: nat): Coordinate
    requires |h.minimum| == |h.maximum| == COMPONENTS
  {
    if h.scalarBytes == 4 then Float(raw)
    else Decoded(Dequantize(raw, d.value(h.minimum[i % 3]), d.value(h.maximum[i % 3])))
  }

  function Meanings(d: Doubles, h: Header, values: seq<nat>): (coordinates: seq<Coordinate>)
    requires |h.minimum| == |h.maximum| == COMPONENTS
    ensures |coordinates| == |values|
  {
    seq(|values|, i requires 0 <= i < |values| => Meaning(d, h, values[i], i))
  }

  lemma PositionsFromHeader(d: Doubles, file: seq<Byte>, h: Header, values: seq<nat>)
    requires |h.minimum| == |h.maximum| == COMPONENTS
    requires ReadFrameHeader(d, file) == Some(h) && |values| == h.count * COMPONENTS
    requires Stored(file, h.headerBytes, h.scalarBytes, values)
    ensures ReadFramePositions(d, file)
            == Some(Meanings(d, h, values))
  {
    var positions := ReadFramePositions(d, file).value;
    forall i | 0 <= i < |values|
      ensures positions[i] == Meaning(d, h, values[i], i)
    {
      assert ReadsAt(file, h.headerBytes + PlaceOf(i, h.scalarBytes), h.scalarBytes, values[i]);
    }
    assert positions == Meanings(d, h, values);
  }

  lemma CoordinatesComeBack(h: Header, f: Frame, width: nat, file: seq<Byte>)
    requires |h.minimum| == |h.maximum| == COMPONENTS && Writable(h)
    requires AllBelow(f.positions, Limit(width)) && file == FrameBytes(h, f, width)
    ensures Stored(file, h.headerBytes, width, f.positions)
  {
    HeaderHasItsLength(h);
    StoredBehind(HeaderBytes(h), f.positions, width, TypesOf(f), file);
  }

  lemma TypesFromHeader(d: Doubles, file: seq<Byte>, h: Header, types: Option<seq<Byte>>)
    requires ReadFrameHeader(d, file) == Some(h) && h.count > 0
    requires h.typeBytes == if types.Some? then h.count else 0
    requires types.Some? ==>
               var first := h.headerBytes + PositionBytes(h);
               first + h.count == |file| && file[first..first + h.count] == types.value
    ensures ReadFrameParticleTypes(d, file)
            == if types.None? then Some(seq(h.count, _ => 0))
               else if KnownTypes(types.value) then types else None
  {
  }

  lemma TypesComeBack(d: Doubles, h: Header, f: Frame, width: nat)
    requires Describes(h, f, width) && Consistent(d, h)
    ensures ReadFrameParticleTypes(d, FrameBytes(h, f, width))
            == if ValidTypes(f) then Some(if f.types.Some? then f.types.value else seq(f.count, _ => 0)) else None
  {
    var file := FrameBytes(h, f, width);
    HeaderComesBack(d, h, f, width);
    if f.types.Some? {
      TypesAreStored(h, f, width, file);
    }
    TypesFromHeader(d, file, h, f.types);
  }

  lemma TypedIsDescribed(d: Doubles, f: Frame)
    requires WellTyped(f, 4) && TypedAccepts(d, f)
    ensures Describes(TypedHeader(f), f, 4)
    ensures Consistent(d, TypedHeader(f))
            <==> TypedHeader(f).headerBytes + f.count * 12 + TypeBytes(f) <= U64_MAX
  {
  }

  lemma QuantizedIsDescribed(d: Doubles, f: Frame, minimum: seq<nat>, maximum: seq<nat>)
    requires WellTyped(f, 2) && |minimum| == |maximum| == COMPONENTS && QuantizedAccepts(d, f, minimum, maximum)
    requires AllBelow(minimum, U64_MAX + 1) && AllBelow(maximum, U64_MAX + 1)
    ensures Describes(QuantizedHeader(f, minimum, maximum), f, 2)
    ensures Consistent(d, QuantizedHeader(f, minimum, maximum))
            <==> QuantizedHeader(f, minimum, maximum).headerBytes + f.count * 6 + TypeBytes(f) <= U64_MAX
  {
  }

  /** A float frame that was written is read back, header, bit patterns and types, exactly when
      its size fits 64 bits; larger ones the writer does not refuse. */
  lemma TypedRoundTrip(d: Doubles, f: Frame)
    requires WellTyped(f, 4) && TypedAccepts(d, f)
    ensures var file, h := FrameBytes(TypedHeader(f), f, 4), TypedHeader(f);
            && (ReadFrameHeader(d, file).Some? <==> h.headerBytes + f.count * 12 + TypeBytes(f) <= U64_MAX)
            && (ReadFrameHeader(d, file).Some? ==>
                  && ReadFrameHeader(d, file).value == h
                  && TellsOf(ReadFrameHeader(d, file).value, f)
                  && (f.types.Some? ==> ReadFrameHeader(d, file).value.totalSteps == f.totalSteps)
                  && ReadFramePositions(d, file)
                       == Some(seq(|f.positions|, i requires 0 <= i < |f.positions| => Float(f.positions[i])))
                  && ReadFrameParticleTypes(d, file)
                       == Some(if f.types.Some? then f.types.value else seq(f.count, _ => 0)))
  {
    var h := TypedHeader(f);
    TypedIsDescribed(d, f);
    HeaderComesBack(d, h, f, 4);
    if Consistent(d, h) {
      CoordinatesComeBack(h, f, 4, FrameBytes(h, f, 4));
      PositionsFromHeader(d, FrameBytes(h, f, 4), h, f.positions);
      TypesComeBack(d, h, f, 4);
      assert ReadFramePositions(d, FrameBytes(h, f, 4)).value
             == seq(|f.positions|, i requires 0 <= i < |f.positions| => Float(f.positions[i]));
    }
  }

  /** The same for quantised frames: every code is decoded within the bounds of its component. */
  lemma QuantizedRoundTrip(d: Doubles, f: Frame, minimum: seq<nat>, maximum: seq<nat>)
    requires WellTyped(f, 2) && |minimum| == |maximum| == COMPONENTS && QuantizedAccepts(d, f, minimum, maximum)
    requires AllBelow(minimum, U64_MAX + 1) && AllBelow(maximum, U64_MAX + 1)
    ensures var h := QuantizedHeader(f, minimum, maximum);
            var file := FrameBytes(h, f, 2);
            && (ReadFrameHeader(d, file).Some? <==> h.headerBytes + f.count * 6 + TypeBytes(f) <= U64_MAX)
            && (ReadFrameHeader(d, file).Some? ==>
                  && ReadFrameHeader(d, file).value == h
                  && TellsOf(ReadFrameHeader(d, file).value, f)
                  && ReadFrameHeader(d, file).value.minimum == minimum
                  && ReadFrameHeader(d, file).value.maximum == maximum
                  && ReadFramePositions(d, file).Some?
                  && |ReadFramePositions(d, file).value| == |f.positions|
                  && (forall i :: 0 <= i < |f.positions| ==>
                        ReadFramePositions(d, file).value[i]
                        == Decoded(Dequantize(f.positions[i], d.value(minimum[i % 3]), d.value(maximum[i % 3]))))
                  && ReadFrameParticleTypes(d, file)
                       == Some(if f.types.Some? then f.types.value else seq(f.count, _ => 0)))
  {
    var h := QuantizedHeader(f, minimum, maximum);
    QuantizedIsDescribed(d, f, minimum, maximum);
    HeaderComesBack(d, h, f, 2);
    if Consistent(d, h) {
      CoordinatesComeBack(h, f, 2, FrameBytes(h, f, 2));
      PositionsFromHeader(d, FrameBytes(h, f, 2), h, f.positions);
      TypesComeBack(d, h, f, 2);
    }
  }

  // ----- the writers accept what can be read

  lemma FloatHeaderDescribes(d: Doubles, f: Frame)
    requires WellTyped(f, 4)
    ensures Describes(TypedHeader(f), f, 4)
    ensures Consistent(d, TypedHeader(f)) && ValidTypes(f)
            <==> TypedAccepts(d, f) && TypedHeader(f).headerBytes + f.count * 12 + TypeBytes(f) <= U64_MAX
  {
  }

  lemma DescribedIsReadable(d: Doubles, h: Header, f: Frame, width: nat)
    requires Describes(h, f, width)
    ensures var file := FrameBytes(h, f, width);
            ReadFrameHeader(d, file).Some? && ReadFrameParticleTypes(d, file).Some?
            <==> Consistent(d, h) && ValidTypes(f)
  {
    HeaderComesBack(d, h, f, width);
    if Consistent(d, h) {
      TypesComeBack(d, h, f, width);
    }
  }

  /** The writer of float frames accepts exactly the frames whose files the reader would accept,
      but for enormous ones. */
  lemma FloatsWrittenIfReadable(d: Doubles, f: Frame)
    requires WellTyped(f, 4)
    ensures var file := FrameBytes(TypedHeader(f), f, 4);
            TypedAccepts(d, f) && TypedHeader(f).headerBytes + f.count * 12 + TypeBytes(f) <= U64_MAX
            <==> ReadFrameHeader(d, file).Some? && ReadFrameParticleTypes(d, file).Some?
  {
    FloatHeaderDescribes(d, f);
    DescribedIsReadable(d, TypedHeader(f), f, 4);
  }

  lemma QuantizedHeaderDescribes(d: Doubles, f: Frame, minimum: seq<nat>, maximum: seq<nat>)
    requires WellTyped(f, 2) && |minimum| == |maximum| == COMPONENTS && f.count * 6 + TypeBytes(f) <= U64_MAX
    requires AllBelow(minimum, U64_MAX + 1) && AllBelow(maximum, U64_MAX + 1)
    ensures Describes(QuantizedHeader(f, minimum, maximum), f, 2)
    ensures Consistent(d, QuantizedHeader(f, minimum, maximum)) && ValidTypes(f)
            <==> QuantizedAccepts(d, f, minimum, maximum)
                 && QuantizedHeader(f, minimum, maximum).headerBytes + f.count * 6 + TypeBytes(f) <= U64_MAX
  {
  }

  /** The same of the writer of quantised frames. */
  lemma CodesWrittenIfReadable(d: Doubles, f: Frame, minimum: seq<nat>, maximum: seq<nat>)
    requires WellTyped(f, 2) && |minimum| == |maximum| == COMPONENTS && f.count * 6 + TypeBytes(f) <= U64_MAX
    requires AllBelow(minimum, U64_MAX + 1) && AllBelow(maximum, U64_MAX + 1)
    ensures var h := QuantizedHeader(f, minimum, maximum);
            var file := FrameBytes(h, f, 2);
            QuantizedAccepts(d, f, minimum, maximum) && h.headerBytes + f.count * 6 + TypeBytes(f) <= U64_MAX
            <==> ReadFrameHeader(d, file).Some? && ReadFrameParticleTypes(d, file).Some?
  {
    QuantizedHeaderDescribes(d, f, minimum, maximum);
    DescribedIsReadable(d, QuantizedHeader(f, minimum, maximum), f, 2);
  }

  // ----- the bytes of a written file

  lemma Reads4(file: seq<Byte>, offset: nat, value: nat)
    requires ReadsAt(file, offset, 4, value)
    ensures offset + 4 <= |file| && Weight4(file, offset) == value
  {
    FourBytes(file, offset);
  }

  lemma Reads8(file: seq<Byte>, offset: nat, value: nat)
    requires ReadsAt(file, offset, 8, value)
    ensures offset + 8 <= |file| && Weight8(file, offset) == value
  {
    EightBytes(file, offset);
  }

  lemma HeadOpens(h: Header, rest: seq<Byte>, file: seq<Byte>)
    requires Writable(h) && file == HeaderBytes(h) + rest
    ensures |file| >= h.headerBytes >= 72 && forall k :: 0 <= k < 8 ==> file[k] == "NBSNAP01"[k] as nat
    ensures Weight4(file, 8) == h.version && Weight4(file, 12) == h.headerBytes
  {
    HeaderHasItsLength(h);
    assert file[..8] == MAGIC;
    HeadIsRead(h, rest, file);
    Reads4(file, 8, h.version);
    Reads4(file, 12, h.headerBytes);
  }

  lemma ProgressIsWeighed(h: Header, rest: seq<Byte>, file: seq<Byte>)
    requires Writable(h) && file == HeaderBytes(h) + rest
    ensures |file| >= 72 && Weight8(file, 16) == h.sequence
    ensures Weight8(file, 24) == h.step && Weight8(file, 32) == h.time
  {
    HeaderHasItsLength(h);
    ProgressIsRead(h, rest, file);
    Reads8(file, 16, h.sequence);
    Reads8(file, 24, h.step);
    Reads8(file, 32, h.time);
  }

  lemma CountsAreWeighed(h: Header, rest: seq<Byte>, file: seq<Byte>)
    requires Writable(h) && file == HeaderBytes(h) + rest
    ensures |file| >= 72 && Weight8(file, 40) == h.sources && Weight8(file, 48) == h.count
    ensures Weight4(file, 56) == h.scalarBytes && Weight4(file, 60) == h.components
    ensures Weight8(file, 64) == h.payloadBytes
  {
    HeaderHasItsLength(h);
    CountsAreRead(h, rest, file);
    Reads8(file, 40, h.sources);
    Reads8(file, 48, h.count);
    Reads4(file, 56, h.scalarBytes);
    Reads4(file, 60, h.components);
    Reads8(file, 64, h.payloadBytes);
  }

  lemma DescribedOpens(h: Header, f: Frame, width: nat, file: seq<Byte>)
    requires Describes(h, f, width) && TellsOf(h, f) && h.components == COMPONENTS && file == FrameBytes(h, f, width)
    ensures Opens(file, f, h.version, h.headerBytes, width, h.payloadBytes)
  {
    var rest := Payload(f.positions, width) + TypesOf(f);
    HeadOpens(h, rest, file);
    ProgressIsWeighed(h, rest, file);
    CountsAreWeighed(h, rest, file);
  }

  lemma DescribedEnds(h: Header, f: Frame, width: nat, file: seq<Byte>, first: nat)
    requires Describes(h, f, width) && file == FrameBytes(h, f, width)
    requires first == h.headerBytes + width * |f.positions|
    ensures EndsWithTypes(file, f, first)
  {
    FrameLength(h, f, width);
    Rearranged(h, f, width);
    if f.types.Some? {
      TypesAreStored(h, f, width, file);
      var types := file[first..first + f.count];
      forall i | 0 <= i < |f.types.value|
        ensures file[first + i] == f.types.value[i]
      {
        assert types[i] == file[first + i];
      }
    }
  }

  lemma Rearranged(h: Header, f: Frame, width: nat)
    requires Describes(h, f, width)
    ensures PositionBytes(h) == width * |f.positions|
  {
  }

  lemma StoredWeighs4(file: seq<Byte>, first: nat, values: seq<nat>)
    requires Stored(file, first, 4, values) && |file| >= first + 4 * |values|
    ensures Weighs4(file, first, values)
  {
    forall i | 0 <= i < |values|
      ensures Weight4(file, first + 4 * i) == values[i]
    {
      Reads4(file, first + PlaceOf(i, 4), values[i]);
    }
  }

  lemma StoredWeighs2(file: seq<Byte>, first: nat, values: seq<nat>)
    requires Stored(file, first, 2, values) && |file| >= first + 2 * |values|
    ensures Weighs2(file, first, values)
  {
    forall i | 0 <= i < |values|
      ensures Weight2(file, first + 2 * i) == values[i]
    {
      assert ReadsAt(file, first + PlaceOf(i, 2), 2, values[i]);
      TwoBytes(file, first + 2 * i);
    }
  }

  lemma PositionsFit(h: Header, f: Frame, width: nat, file: seq<Byte>)
    requires Describes(h, f, width) && file == FrameBytes(h, f, width)
    ensures Stored(file, h.headerBytes, width, f.positions) && |file| >= h.headerBytes + width * |f.positions|
  {
    FrameLength(h, f, width);
    Rearranged(h, f, width);
    CoordinatesComeBack(h, f, width, file);
  }

  lemma TotalStepsAreWeighed(h: Header, f: Frame, file: seq<Byte>)
    requires Describes(h, f, 4) && file == FrameBytes(h, f, 4) && h.headerBytes == 80
    ensures |file| >= 80 && Weight8(file, 72) == h.totalSteps
  {
    var rest := Payload(f.positions, 4) + TypesOf(f);
    HeaderHasItsLength(h);
    TailIsRead(h, rest, 0, file, 72, h.totalSteps);
    Reads8(file, 72, h.totalSteps);
  }

  lemma DescribedFloats(h: Header, f: Frame, file: seq<Byte>)
    requires Describes(h, f, 4) && TellsOf(h, f) && h.components == COMPONENTS && file == FrameBytes(h, f, 4)
    requires f.types.Some? ==> h.headerBytes == 80 && h.totalSteps == f.totalSteps
    ensures FloatParts(file, f, h.version, h.headerBytes, h.payloadBytes)
  {
    DescribedOpens(h, f, 4, file);
    PositionsFit(h, f, 4, file);
    StoredWeighs4(file, h.headerBytes, f.positions);
    DescribedEnds(h, f, 4, file, h.headerBytes + 4 * |f.positions|);
    if f.types.Some? {
      TotalStepsAreWeighed(h, f, file);
    }
  }

  lemma FloatPayload(f: Frame, payload: nat)
    requires payload == 12 * f.count + TypeBytes(f)
    ensures TypedHeader(f).payloadBytes == payload % 0x1_0000_0000_0000_0000
  {
    assert f.count * COMPONENTS * 4 + TypeBytes(f) == payload;
  }

  lemma FloatFileOfParts(file: seq<Byte>, f: Frame, h: Header, payload: nat)
    requires FloatParts(file, f, h.version, h.headerBytes, h.payloadBytes) && payload == 12 * f.count + TypeBytes(f)
    requires h.payloadBytes == payload % 0x1_0000_0000_0000_0000
    requires h.version == (if f.types.Some? then 2 else 1) && h.headerBytes == if f.types.Some? then 80 else 72
    ensures IsFloatFile(file, f)
  {
  }

  lemma TypedIsFloatFile(d: Doubles, f: Frame)
    requires WellTyped(f, 4) && TypedAccepts(d, f)
    ensures IsFloatFile(FrameBytes(TypedHeader(f), f, 4), f)
  {
    var h, payload := TypedHeader(f), 12 * f.count + TypeBytes(f);
    TypedIsDescribed(d, f);
    FloatPayload(f, payload);
    DescribedFloats(h, f, FrameBytes(h, f, 4));
    FloatFileOfParts(FrameBytes(h, f, 4), f, h, payload);
  }

  lemma BoundsAreWeighed(file: seq<Byte>, offset: nat, bounds: seq<nat>)
    requires offset + 24 <= |file| && BoundsAt(file, offset) == bounds
    ensures |bounds| == 3 && Weight8(file, offset) == bounds[0]
    ensures Weight8(file, offset + 8) == bounds[1] && Weight8(file, offset + 16) == bounds[2]
  {
    EightBytes(file, offset);
    EightBytes(file, offset + 8);
    EightBytes(file, offset + 16);
  }

  lemma DescribedBounds(h: Header, f: Frame, file: seq<Byte>)
    requires Describes(h, f, 2) && file == FrameBytes(h, f, 2)
    requires LayoutOf(h.version, h.headerBytes) in {Quantized, Typed}
    ensures BoundsStand(file, h.minimum, h.maximum)
  {
    BoundsAreRead(h, Payload(f.positions, 2) + TypesOf(f), file);
    BothStand(file, h.minimum, h.maximum);
  }

  lemma BothStand(file: seq<Byte>, minimum: seq<nat>, maximum: seq<nat>)
    requires |minimum| == |maximum| == COMPONENTS && |file| >= 120
    requires BoundsAt(file, 72) == minimum && BoundsAt(file, 96) == maximum
    ensures BoundsStand(file, minimum, maximum)
  {
    BoundsAreWeighed(file, 72, minimum);
    BoundsAreWeighed(file, 96, maximum);
  }

  lemma TypeCountIsWeighed(h: Header, f: Frame, file: seq<Byte>)
    requires Describes(h, f, 2) && file == FrameBytes(h, f, 2) && LayoutOf(h.version, h.headerBytes).Typed?
    ensures |file| >= 128 && Weight8(file, 120) == h.typeBytes
  {
    var rest := Payload(f.positions, 2) + TypesOf(f);
    HeaderHasItsLength(h);
    TailIsRead(h, rest, 6, file, 120, h.typeBytes);
    Reads8(file, 120, h.typeBytes);
  }

  lemma DescribedCodes(h: Header, f: Frame, file: seq<Byte>)
    requires Describes(h, f, 2) && TellsOf(h, f) && h.components == COMPONENTS && file == FrameBytes(h, f, 2)
    requires LayoutOf(h.version, h.headerBytes) == if f.types.Some? then Typed else Quantized
    ensures QuantizedParts(file, f, h.minimum, h.maximum, h.version, h.headerBytes, h.payloadBytes)
  {
    DescribedOpens(h, f, 2, file);
    PositionsFit(h, f, 2, file);
    StoredWeighs2(file, h.headerBytes, f.positions);
    DescribedEnds(h, f, 2, file, h.headerBytes + 2 * |f.positions|);
    DescribedBounds(h, f, file);
    if f.types.Some? {
      TypeCountIsWeighed(h, f, file);
    }
  }

  lemma QuantizedIsQuantizedFile(d: Doubles, f: Frame, minimum: seq<nat>, maximum: seq<nat>)
    requires WellTyped(f, 2) && |minimum| == |maximum| == COMPONENTS && QuantizedAccepts(d, f, minimum, maximum)
    ensures AllBelow(minimum, U64_MAX + 1) && AllBelow(maximum, U64_MAX + 1) ==>
              IsQuantizedFile(FrameBytes(QuantizedHeader(f, minimum, maximum), f, 2), f, minimum, maximum)
  {
    if AllBelow(minimum, U64_MAX + 1) && AllBelow(maximum, U64_MAX + 1) {
      var h := QuantizedHeader(f, minimum, maximum);
      QuantizedIsDescribed(d, f, minimum, maximum);
      DescribedCodes(h, f, FrameBytes(h, f, 2));
    }
  }

  // ----- the browser's reader

  const SAFE_INTEGER := 0x1F_FFFF_FFFF_FFFF

  datatype Parsed = Parsed(header: Header, positions: seq<Coordinate>, types: seq<nat>)

  /** The fields at their fixed offsets, as the browser reads them. */
  function BrowserHeader(file: seq<Byte>, layout: Layout): (h: Header)
    requires |file| >= HeaderLength(layout) >= 72
    ensures |h.minimum| == |h.maximum| == COMPONENTS
  {
    var bounded := layout.Quantized? || layout.Typed?;
    var count := FieldAt(file, 48, 8);
    Header(FieldAt(file, 8, 4), FieldAt(file, 12, 4), FieldAt(file, 16, 8), FieldAt(file, 24, 8), FieldAt(file, 32, 8),
           FieldAt(file, 40, 8), count, FieldAt(file, 56, 4), FieldAt(file, 60, 4), FieldAt(file, 64, 8),
           if layout.LegacyTyped? then FieldAt(file, 72, 8) else 0,
           if bounded then [FieldAt(file, 72, 8), FieldAt(file, 80, 8), FieldAt(file, 88, 8)] else NO_BOUNDS,
           if bounded then [FieldAt(file, 96, 8), FieldAt(file, 104, 8), FieldAt(file, 112, 8)] else NO_BOUNDS,
           if layout.Typed? then FieldAt(file, 120, 8) else if layout.LegacyTyped? then count else 0)
  }

  /** The checks of the browser: sizes against each other and against the file, and numbers that
      it can represent. */
  predicate BrowserAccepts(h: Header, layout: Layout, length: nat)
  {
    && h.count <= SAFE_INTEGER && h.payloadBytes <= SAFE_INTEGER && h.typeBytes <= SAFE_INTEGER
    && h.count > 0 && h.components == COMPONENTS
    && length == h.headerBytes + h.payloadBytes
    && PositionBytes(h) + h.typeBytes == h.payloadBytes
    && h.scalarBytes == (if layout.Legacy? || layout.LegacyTyped? then 4 else 2)
    && (h.typeBytes > 0 ==> h.typeBytes == h.count)
  }

  function BrowserPositions(d: Doubles, file: seq<Byte>, h: Header): seq<Coordinate>
    requires |h.minimum| == |h.maximum| == COMPONENTS && h.headerBytes + PositionBytes(h) <= |file|
  {
    seq(h.count * COMPONENTS, i requires 0 <= i < h.count * COMPONENTS =>
      PlacesFit(h.count, h.scalarBytes, i);
      Meaning(d, h, FieldAt(file, h.headerBytes + PlaceOf(i, h.scalarBytes), h.scalarBytes), i))
  }

  /** Bytes of the file, copied one by one. */
  function Copied(file: seq<Byte>, first: nat, n: nat): (bytes: seq<Byte>)
    requires first + n <= |file|
    ensures bytes == file[first..first + n]
  {
    if n == 0 then [] else Copied(file, first, n - 1) + [file[first + n - 1]]
  }

  function BrowserTypes(file: seq<Byte>, h: Header): Option<seq<nat>>
    requires h.headerBytes + PositionBytes(h) + h.typeBytes <= |file| && (h.typeBytes > 0 ==> h.typeBytes == h.count)
  {
    if h.typeBytes == 0 then Some(seq(h.count, _ => 0))
    else
      var types := Copied(file, h.headerBytes + PositionBytes(h), h.count);
      if KnownTypes(types) then Some(types) else None
  }

  function ParseFrame(d: Doubles, file: seq<Byte>): Option<Parsed>
  {
    if |file| < 72 || file[..8] != MAGIC then None
    else
      var layout := LayoutOf(FieldAt(file, 8, 4), FieldAt(file, 12, 4));
      if layout.Unsupported? || |file| < HeaderLength(layout) then None
      else
        var h := BrowserHeader(file, layout);
        if !BrowserAccepts(h, layout, |file|) then None
        else
          var types := BrowserTypes(file, h);
          if types.None? then None else Some(Parsed(h, BrowserPositions(d, file, h), types.value))
  }

  /** Both readers see the same header fields. */
  lemma SameHeader(file: seq<Byte>)
    requires ParseHeader(file).Some?
    requires var h := ParseHeader(file).value; !LayoutOf(h.version, h.headerBytes).Unsupported?
    ensures var h := ParseHeader(file).value;
            var layout := LayoutOf(h.version, h.headerBytes);
            && |file| >= HeaderLength(layout) >= 72 && file[..8] == MAGIC
            && layout == LayoutOf(FieldAt(file, 8, 4), FieldAt(file, 12, 4))
            && BrowserHeader(file, layout) == h
  {
  }

  /** On every frame whose header and types the reader accepts and whose sizes the browser can
      represent, the browser decodes the same header, coordinates and types. */
  lemma BrowserAgrees(d: Doubles, file: seq<Byte>)
    requires ReadFrameHeader(d, file).Some? && ReadFrameParticleTypes(d, file).Some?
    requires ReadFrameHeader(d, file).value.payloadBytes <= SAFE_INTEGER
    ensures ParseFrame(d, file)
            == Some(Parsed(ReadFrameHeader(d, file).value, ReadFramePositions(d, file).value,
                           ReadFrameParticleTypes(d, file).value))
  {
    var h := ReadFrameHeader(d, file).value;
    var layout := LayoutOf(h.version, h.headerBytes);
    SameHeader(file);
    AcceptedSizes(d, file);
    assert BrowserAccepts(h, layout, |file|);
    assert BrowserPositions(d, file, h) == ReadFramePositions(d, file).value;
    SameTypes(d, file, h);
  }

  lemma SameTypes(d: Doubles, file: seq<Byte>, h: Header)
    requires ReadFrameHeader(d, file) == Some(h)
    requires h.headerBytes + PositionBytes(h) + h.typeBytes == |file| && (h.typeBytes > 0 ==> h.typeBytes == h.count)
    ensures BrowserTypes(file, h) == ReadFrameParticleTypes(d, file)
  {
  }

  /** What the native reader checks and the browser does not. */
  predicate OnlyNativeChecks(d: Doubles, h: Header)
    requires |h.minimum| == |h.maximum|
  {
    var layout := LayoutOf(h.version, h.headerBytes);
    && h.sources >= h.count && d.finite(h.time) && d.value(h.time) >= 0.0
    && (layout.LegacyTyped? ==> h.totalSteps >= h.step)
    && (layout.Typed? ==> h.typeBytes == h.count)
    && (layout.Quantized? || layout.Typed? ==> ValidBounds(d, h.minimum, h.maximum))
  }

  /** What the browser shows comes from the header in the file, and has passed its checks. */
  lemma ShownHeader(d: Doubles, file: seq<Byte>)
    requires ParseFrame(d, file).Some?
    ensures var h := ParseFrame(d, file).value.header;
            && |h.minimum| == |h.maximum| == COMPONENTS && ParseHeader(file) == Some(h)
            && !LayoutOf(h.version, h.headerBytes).Unsupported? && h.headerBytes <= 128
            && BrowserAccepts(h, LayoutOf(h.version, h.headerBytes), |file|)
            && BrowserTypes(file, h) == Some(ParseFrame(d, file).value.types)
  {
  }

  lemma ShownIsConsistent(d: Doubles, h: Header, length: nat)
    requires |h.minimum| == |h.maximum| == COMPONENTS && h.headerBytes <= 128
    requires !LayoutOf(h.version, h.headerBytes).Unsupported?
    requires BrowserAccepts(h, LayoutOf(h.version, h.headerBytes), length)
    ensures Consistent(d, h) <==> OnlyNativeChecks(d, h)
  {
  }

  /** Exactly which of the frames that the browser shows the native reader accepts. */
  lemma ShownIsReadExactly(d: Doubles, file: seq<Byte>)
    requires ParseFrame(d, file).Some?
    ensures var h := ParseFrame(d, file).value.header;
            && |h.minimum| == |h.maximum|
            && (ReadFrameHeader(d, file).Some? <==> OnlyNativeChecks(d, h))
    ensures ReadFrameHeader(d, file).Some? ==> ReadFrameHeader(d, file).value == ParseFrame(d, file).value.header
  {
    ShownHeader(d, file);
    ShownIsConsistent(d, ParseFrame(d, file).value.header, |file|);
  }

  /** The types of a frame that both readers accept. */
  lemma ShownTypesAreRead(d: Doubles, file: seq<Byte>)
    requires ParseFrame(d, file).Some? && ReadFrameHeader(d, file).Some?
    ensures ReadFrameParticleTypes(d, file).Some?
    ensures ParseFrame(d, file).value.header.payloadBytes <= SAFE_INTEGER
  {
    ShownHeader(d, file);
    ShownIsReadExactly(d, file);
    AcceptedSizes(d, file);
    SameTypes(d, file, ReadFrameHeader(d, file).value);
  }

  /** The two readers agree exactly on this: whatever both accept they decode alike; a frame that
      the browser shows is refused by the native reader exactly if it fails a check that only the
      native reader has; and a frame that the native reader accepts is refused by the browser
      exactly if its types are unsupported or its payload is too large to count. */
  lemma ReadersAgreeExactly(d: Doubles, file: seq<Byte>)
    ensures ParseFrame(d, file).Some? ==>
              var h := ParseFrame(d, file).value.header;
              |h.minimum| == |h.maximum| && (ReadFrameHeader(d, file).Some? <==> OnlyNativeChecks(d, h))
    ensures ReadFrameHeader(d, file).Some? ==>
              (ParseFrame(d, file).Some? <==> ReadFrameParticleTypes(d, file).Some?
                                              && ReadFrameHeader(d, file).value.payloadBytes <= 9_007_199_254_740_991)
    ensures ParseFrame(d, file).Some? && ReadFrameHeader(d, file).Some? ==>
              && ReadFrameParticleTypes(d, file).Some?
              && ParseFrame(d, file)
                 == Some(Parsed(ReadFrameHeader(d, file).value, ReadFramePositions(d, file).value,
                                ReadFrameParticleTypes(d, file).value))
  {
    if ParseFrame(d, file).Some? {
      ShownIsReadExactly(d, file);
      if ReadFrameHeader(d, file).Some? {
        ShownTypesAreRead(d, file);
      }
    }
    if ReadFrameHeader(d, file).Some? && ReadFrameParticleTypes(d, file).Some?
       && ReadFrameHeader(d, file).value.payloadBytes <= SAFE_INTEGER {
      BrowserAgrees(d, file);
    }
  }

  lemma DescribedIsShown(d: Doubles, f: Frame, h: Header, width: nat, file: seq<Byte>)
    requires Describes(h, f, width) && ValidTypes(f) && file == FrameBytes(h, f, width)
    requires BrowserAccepts(h, LayoutOf(h.version, h.headerBytes), |file|)
    ensures ParseFrame(d, file).Some? && ParseFrame(d, file).value.header == h
  {
    HeaderIsParsed(h, Payload(f.positions, width) + TypesOf(f));
    SameHeader(file);
    if f.types.Some? {
      TypesAreStored(h, f, width, file);
    }
    StoredTypesAreShown(h, f, file);
  }

  /** Whatever header describes a frame: if its sizes pass in the browser, the browser shows the
      frame, and the native reader refuses it exactly if one of its own checks fails. */
  lemma DescribedIsReadExactly(d: Doubles, f: Frame, h: Header, width: nat, file: seq<Byte>)
    requires Describes(h, f, width) && ValidTypes(f) && file == FrameBytes(h, f, width)
    requires BrowserAccepts(h, LayoutOf(h.version, h.headerBytes), |file|)
    ensures ParseFrame(d, file).Some? && |h.minimum| == |h.maximum|
    ensures ReadFrameHeader(d, file).None? <==> !OnlyNativeChecks(d, h)
  {
    DescribedIsShown(d, f, h, width, file);
    ShownIsReadExactly(d, file);
  }

  /** Instances with a float frame as it is written, but for one field of its header. */
  lemma BrowserIsLaxer(d: Doubles, f: Frame, h: Header, file: seq<Byte>)
    requires WellTyped(f, 4) && TypedAccepts(d, f) && f.count * 12 + TypeBytes(f) <= SAFE_INTEGER
    requires h == TypedHeader(f).(sources := 0)
             || (h == TypedHeader(f).(time := h.time) && h.time <= U64_MAX && !d.finite(h.time))
             || (h == TypedHeader(f).(totalSteps := 0) && f.types.Some? && f.step > 0)
    requires file == FrameBytes(h, f, 4)
    ensures ReadFrameHeader(d, file).None? && ParseFrame(d, file).Some?
  {
    TypedIsDescribed(d, f);
    FrameLength(h, f, 4);
    DescribedIsReadExactly(d, f, h, 4, file);
  }

  lemma StoredTypesAreShown(h: Header, f: Frame, file: seq<Byte>)
    requires ValidTypes(f) && h.typeBytes == TypeBytes(f) && h.count == f.count
    requires h.headerBytes + PositionBytes(h) + h.typeBytes <= |file|
    requires f.types.Some? ==>
               var first := h.headerBytes + PositionBytes(h);
               file[first..first + f.count] == f.types.value
    ensures BrowserTypes(file, h).Some?
  {
  }
}
