/** The frame file: four layouts told apart by version and header length, their writer, and the
    reader that checks every field against the others and against the size of the file. */
module FrameFormat {
  import opened ByteFields
  import opened Options

  const COMPONENTS := 3
  const U64_MAX := 0xFFFF_FFFF_FFFF_FFFF
  const LAST_TYPE := 4

  /** How 64-bit patterns stand for numbers; the difference of two finite numbers may overflow. */
  datatype Doubles = Doubles(finite: nat -> bool, value: nat -> real, finiteDifference: (nat, nat) -> bool)

  datatype Header = Header(version: nat, headerBytes: nat, sequence: nat, step: nat, time: nat,
                           sources: nat, count: nat, scalarBytes: nat, components: nat, payloadBytes: nat,
                           totalSteps: nat, minimum: seq<nat>, maximum: seq<nat>, typeBytes: nat)

  datatype Layout = Legacy | LegacyTyped | Quantized | Typed | Unsupported

  function LayoutOf(version: nat, headerBytes: nat): Layout
  {
    if version == 1 && headerBytes == 72 then Legacy
    else if version == 2 && headerBytes == 80 then LegacyTyped
    else if version == 2 && headerBytes == 120 then Quantized
    else if version == 3 && headerBytes == 128 then Typed
    else Unsupported
  }

  function HeaderLength(layout: Layout): nat
  {
    match layout
    case Legacy => 72
    case LegacyTyped => 80
    case Quantized => 120
    case Typed => 128
    case Unsupported => 72
  }

  /** N B S N A P 0 1 */
  const MAGIC: seq<Byte> := [78, 66, 83, 78, 65, 80, 48, 49]

  function BaseFields(h: Header): (fields: seq<Field>)
    ensures |fields| == 10
  {
    [Field(h.version, 4), Field(h.headerBytes, 4), Field(h.sequence, 8), Field(h.step, 8), Field(h.time, 8),
     Field(h.sources, 8), Field(h.count, 8), Field(h.scalarBytes, 4), Field(h.components, 4), Field(h.payloadBytes, 8)]
  }

  function BoundFields(h: Header): (fields: seq<Field>)
    requires |h.minimum| == |h.maximum| == COMPONENTS
    ensures |fields| == 6
  {
    [Field(h.minimum[0], 8), Field(h.minimum[1], 8), Field(h.minimum[2], 8),
     Field(h.maximum[0], 8), Field(h.maximum[1], 8), Field(h.maximum[2], 8)]
  }

  function TailFields(h: Header): seq<Field>
    requires |h.minimum| == |h.maximum| == COMPONENTS
  {
    match LayoutOf(h.version, h.headerBytes)
    case LegacyTyped => [Field(h.totalSteps, 8)]
    case Quantized => BoundFields(h)
    case Typed => BoundFields(h) + [Field(h.typeBytes, 8)]
    case _ => []
  }

  function AllFields(h: Header): seq<Field>
    requires |h.minimum| == |h.maximum| == COMPONENTS
  {
    BaseFields(h) + TailFields(h)
  }

  function HeaderBytes(h: Header): seq<Byte>
    requires |h.minimum| == |h.maximum| == COMPONENTS
  {
    MAGIC + Encode(AllFields(h))
  }

  // ----- validation

  predicate ValidBounds(d: Doubles, minimum: seq<nat>, maximum: seq<nat>)
    requires |minimum| == |maximum|
  {
    forall c :: 0 <= c < |minimum| ==>
      && d.finite(minimum[c]) && d.finite(maximum[c]) && d.value(minimum[c]) <= d.value(maximum[c])
      && d.finiteDifference(minimum[c], maximum[c])
  }

  /** The checks on the fields of one layout. */
  predicate LayoutChecks(h: Header)
  {
    match LayoutOf(h.version, h.headerBytes)
    case Legacy => h.scalarBytes == 4
    case LegacyTyped => h.scalarBytes == 4 && h.totalSteps >= h.step
    case Quantized => h.scalarBytes == 2
    case Typed => h.scalarBytes == 2 && h.typeBytes == h.count
    case Unsupported => false
  }

  function PositionBytes(h: Header): nat
  {
    h.count * COMPONENTS * h.scalarBytes
  }

  /** What the reader accepts: consistent sizes that do not overflow 64 bits, finite time and
      ordered finite bounds. */
  predicate Consistent(d: Doubles, h: Header)
    requires |h.minimum| == |h.maximum| == COMPONENTS
  {
    && LayoutChecks(h)
    && h.components == COMPONENTS && h.count > 0 && h.sources >= h.count
    && d.finite(h.time) && d.value(h.time) >= 0.0
    && PositionBytes(h) <= U64_MAX
    && PositionBytes(h) + h.typeBytes <= U64_MAX
    && h.payloadBytes + h.headerBytes <= U64_MAX
    && h.payloadBytes == PositionBytes(h) + h.typeBytes
    && (LayoutOf(h.version, h.headerBytes) in {Quantized, Typed} ==> ValidBounds(d, h.minimum, h.maximum))
  }

  // ----- the reader

  const NO_BOUNDS := [0, 0, 0]

  /** The header as it stands in the file; fields that a layout does not have are zero, and the
      older typed layout has one type for each particle. */
  function ParseHeader(file: seq<Byte>): (result: Option<Header>)
    ensures result.Some? ==> |result.value.minimum| == |result.value.maximum| == COMPONENTS
  {
    if |file| < 72 || file[..8] != MAGIC then None
    else
      var version, headerBytes := FieldAt(file, 8, 4), FieldAt(file, 12, 4);
      var layout := LayoutOf(version, headerBytes);
      var base := Header(version, headerBytes, FieldAt(file, 16, 8), FieldAt(file, 24, 8), FieldAt(file, 32, 8),
                         FieldAt(file, 40, 8), FieldAt(file, 48, 8), FieldAt(file, 56, 4), FieldAt(file, 60, 4),
                         FieldAt(file, 64, 8), 0, NO_BOUNDS, NO_BOUNDS, 0);
      if |file| < HeaderLength(layout) then None
      else
        match layout
        case LegacyTyped => Some(base.(totalSteps := FieldAt(file, 72, 8), typeBytes := base.count))
        case Quantized => Some(base.(minimum := BoundsAt(file, 72), maximum := BoundsAt(file, 96)))
        case Typed => Some(base.(minimum := BoundsAt(file, 72), maximum := BoundsAt(file, 96),
                                 typeBytes := FieldAt(file, 120, 8)))
        case _ => Some(base)
  }

  function BoundsAt(file: seq<Byte>, offset: nat): (bounds: seq<nat>)
    requires offset + 24 <= |file|
    ensures |bounds| == COMPONENTS
  {
    [FieldAt(file, offset, 8), FieldAt(file, offset + 8, 8), FieldAt(file, offset + 16, 8)]
  }

  function ReadFrameHeader(d: Doubles, file: seq<Byte>): Option<Header>
  {
    var parsed := ParseHeader(file);
    if parsed.None? || !Consistent(d, parsed.value) then None
    else if |file| != parsed.value.headerBytes + parsed.value.payloadBytes then None
    else parsed
  }

  // ----- every header is read back

  /** A header with the values that fit its fields, and zeros where its layout has none. */
  ghost predicate Writable(h: Header)
  {
    && |h.minimum| == |h.maximum| == COMPONENTS
    && !LayoutOf(h.version, h.headerBytes).Unsupported?
    && h.sequence <= U64_MAX && h.step <= U64_MAX && h.time <= U64_MAX && h.sources <= U64_MAX && h.count <= U64_MAX
    && h.scalarBytes < 0x1_0000_0000 && h.components < 0x1_0000_0000 && h.payloadBytes <= U64_MAX
    && h.totalSteps <= U64_MAX && h.typeBytes <= U64_MAX
    && (forall c :: 0 <= c < COMPONENTS ==> h.minimum[c] <= U64_MAX && h.maximum[c] <= U64_MAX)
    && match LayoutOf(h.version, h.headerBytes)
       case Legacy => h.totalSteps == 0 && h.typeBytes == 0 && h.minimum == NO_BOUNDS == h.maximum
       case LegacyTyped => h.typeBytes == h.count && h.minimum == NO_BOUNDS == h.maximum
       case Quantized => h.totalSteps == 0 && h.typeBytes == 0
       case Typed => h.totalSteps == 0
       case Unsupported => false
  }

  lemma Limits()
    ensures Limit(4) == 0x1_0000_0000 && Limit(8) == U64_MAX + 1
  {
    assert Limit(4) == 256 * Limit(3) && Limit(3) == 256 * Limit(2) && Limit(2) == 256 * Limit(1) && Limit(1) == 256;
    assert Limit(8) == 256 * Limit(7) && Limit(7) == 256 * Limit(6) && Limit(6) == 256 * Limit(5)
           && Limit(5) == 256 * Limit(4);
  }

  /** Where the fields that all layouts share stand behind the magic number. */
  const BASE_OFFSETS: seq<nat> := [0, 4, 8, 16, 24, 32, 40, 48, 52, 56]

  lemma BaseFieldsComeFirst(h: Header, k: nat)
    requires |h.minimum| == |h.maximum| == COMPONENTS && k < 10
    ensures |AllFields(h)| >= 10 && AllFields(h)[k] == BaseFields(h)[k]
  {
  }

  lemma BaseOffsets(h: Header)
    requires |h.minimum| == |h.maximum| == COMPONENTS
    ensures var b := BaseFields(h);
            && OffsetOf(b, 0) == 0 && OffsetOf(b, 1) == 4 && OffsetOf(b, 2) == 8 && OffsetOf(b, 3) == 16
            && OffsetOf(b, 4) == 24 && OffsetOf(b, 5) == 32 && OffsetOf(b, 6) == 40 && OffsetOf(b, 7) == 48
            && OffsetOf(b, 8) == 52 && OffsetOf(b, 9) == 56 && OffsetOf(b, 10) == 64
  {
  }

  lemma SharedOffset(h: Header, k: nat)
    requires |h.minimum| == |h.maximum| == COMPONENTS && k <= 10
    ensures |AllFields(h)| >= 10 && OffsetOf(AllFields(h), k) == if k == 10 then 64 else BASE_OFFSETS[k]
  {
    assert AllFields(h)[..10] == BaseFields(h);
    OffsetOfPrefix(AllFields(h), 10, k);
    BaseOffsets(h);
  }

  /** Every field of the header fits its width. */
  lemma FieldsFit(h: Header, k: nat)
    requires Writable(h) && k < |AllFields(h)|
    ensures AllFields(h)[k].value < Limit(AllFields(h)[k].width)
  {
    Limits();
    if k < 10 {
      assert AllFields(h)[k] == BaseFields(h)[k];
    } else {
      assert AllFields(h)[k] == TailFields(h)[k - 10];
    }
  }

  lemma RecordIsRead(fields: seq<Field>, k: nat, rest: seq<Byte>, file: seq<Byte>,
                     offset: nat, width: nat, value: nat)
    requires k < |fields| && fields[k] == Field(value, width) && value < Limit(width)
    requires offset == 8 + OffsetOf(fields, k) && file == MAGIC + (Encode(fields) + rest)
    ensures ReadsAt(file, offset, width, value)
  {
    FieldBehindBytes(MAGIC, fields, k, rest, file);
  }

  lemma FileOfHeader(h: Header, rest: seq<Byte>)
    requires |h.minimum| == |h.maximum| == COMPONENTS
    ensures HeaderBytes(h) + rest == MAGIC + (Encode(AllFields(h)) + rest)
  {
  }

  lemma BaseIsRead(h: Header, rest: seq<Byte>, k: nat, file: seq<Byte>, offset: nat, width: nat, value: nat)
    requires Writable(h) && k < 10 && file == HeaderBytes(h) + rest
    requires offset == 8 + BASE_OFFSETS[k] && BaseFields(h)[k] == Field(value, width)
    ensures ReadsAt(file, offset, width, value)
  {
    BaseFieldsComeFirst(h, k);
    FieldsFit(h, k);
    SharedOffset(h, k);
    FileOfHeader(h, rest);
    RecordIsRead(AllFields(h), k, rest, file, offset, width, value);
  }

  lemma HeadIsRead(h: Header, rest: seq<Byte>, file: seq<Byte>)
    requires Writable(h) && file == HeaderBytes(h) + rest
    ensures ReadsAt(file, 8, 4, h.version) && ReadsAt(file, 12, 4, h.headerBytes)
  {
    BaseIsRead(h, rest, 0, file, 8, 4, h.version);
    BaseIsRead(h, rest, 1, file, 12, 4, h.headerBytes);
  }

  lemma ProgressIsRead(h: Header, rest: seq<Byte>, file: seq<Byte>)
    requires Writable(h) && file == HeaderBytes(h) + rest
    ensures ReadsAt(file, 16, 8, h.sequence) && ReadsAt(file, 24, 8, h.step) && ReadsAt(file, 32, 8, h.time)
  {
    BaseIsRead(h, rest, 2, file, 16, 8, h.sequence);
    BaseIsRead(h, rest, 3, file, 24, 8, h.step);
    BaseIsRead(h, rest, 4, file, 32, 8, h.time);
  }

  lemma CountsAreRead(h: Header, rest: seq<Byte>, file: seq<Byte>)
    requires Writable(h) && file == HeaderBytes(h) + rest
    ensures ReadsAt(file, 40, 8, h.sources) && ReadsAt(file, 48, 8, h.count) && ReadsAt(file, 56, 4, h.scalarBytes)
    ensures ReadsAt(file, 60, 4, h.components) && ReadsAt(file, 64, 8, h.payloadBytes)
  {
    BaseIsRead(h, rest, 5, file, 40, 8, h.sources);
    BaseIsRead(h, rest, 6, file, 48, 8, h.count);
    BaseIsRead(h, rest, 7, file, 56, 4, h.scalarBytes);
    BaseIsRead(h, rest, 8, file, 60, 4, h.components);
    BaseIsRead(h, rest, 9, file, 64, 8, h.payloadBytes);
  }

  lemma TailWidths(h: Header)
    requires |h.minimum| == |h.maximum| == COMPONENTS
    ensures forall j :: 0 <= j < |TailFields(h)| ==> TailFields(h)[j].width == 8
  {
  }

  lemma TailFieldsComeLast(h: Header, j: nat)
    requires |h.minimum| == |h.maximum| == COMPONENTS && j < |TailFields(h)|
    ensures |AllFields(h)| == 10 + |TailFields(h)| && AllFields(h)[10 + j] == TailFields(h)[j]
  {
  }

  lemma {:induction false} TailOffset(h: Header, j: nat)
    requires |h.minimum| == |h.maximum| == COMPONENTS && j <= |TailFields(h)|
    ensures |AllFields(h)| == 10 + |TailFields(h)| && OffsetOf(AllFields(h), 10 + j) == 64 + 8 * j
  {
    if j == 0 {
      SharedOffset(h, 10);
    } else {
      TailOffset(h, j - 1);
      TailWidths(h);
      TailFieldsComeLast(h, j - 1);
    }
  }

  lemma TailFieldIs(h: Header, j: nat, value: nat)
    requires Writable(h) && j < |TailFields(h)| && TailFields(h)[j].value == value
    ensures |AllFields(h)| > 10 + j && AllFields(h)[10 + j] == Field(value, 8) && value < Limit(8)
    ensures OffsetOf(AllFields(h), 10 + j) == 64 + 8 * j
  {
    TailWidths(h);
    TailFieldsComeLast(h, j);
    FieldsFit(h, 10 + j);
    TailOffset(h, j);
  }

  lemma TailIsRead(h: Header, rest: seq<Byte>, j: nat, file: seq<Byte>, offset: nat, value: nat)
    requires Writable(h) && j < |TailFields(h)| && file == HeaderBytes(h) + rest
    requires offset == 72 + 8 * j && TailFields(h)[j].value == value
    ensures ReadsAt(file, offset, 8, value)
  {
    TailFieldIs(h, j, value);
    FileOfHeader(h, rest);
    RecordIsRead(AllFields(h), 10 + j, rest, file, offset, 8, value);
  }

  /** The length of a written header is the one that its layout announces. */
  lemma HeaderHasItsLength(h: Header)
    requires Writable(h)
    ensures |HeaderBytes(h)| == HeaderLength(LayoutOf(h.version, h.headerBytes)) == h.headerBytes
  {
    TailOffset(h, |TailFields(h)|);
    EncodedLength(AllFields(h));
  }

  lemma MagicIsRead(h: Header, rest: seq<Byte>)
    requires Writable(h)
    ensures |HeaderBytes(h) + rest| >= 72 && (HeaderBytes(h) + rest)[..8] == MAGIC
  {
    HeaderHasItsLength(h);
  }

  lemma BoundFieldsAre(h: Header)
    requires |h.minimum| == |h.maximum| == COMPONENTS
    requires LayoutOf(h.version, h.headerBytes) in {Quantized, Typed}
    ensures |TailFields(h)| >= 6
    ensures forall j :: 0 <= j < 3 ==> TailFields(h)[j].value == h.minimum[j]
    ensures forall j :: 3 <= j < 6 ==> TailFields(h)[j].value == h.maximum[j - 3]
  {
    assert TailFields(h)[..6] == BoundFields(h);
  }

  lemma BoundsFromReads(file: seq<Byte>, offset: nat, bounds: seq<nat>)
    requires |bounds| == COMPONENTS
    requires ReadsAt(file, offset, 8, bounds[0]) && ReadsAt(file, offset + 8, 8, bounds[1])
    requires ReadsAt(file, offset + 16, 8, bounds[2])
    ensures |file| >= offset + 24 && BoundsAt(file, offset) == bounds
  {
  }

  lemma ThreeAreRead(fields: seq<Field>, k: nat, rest: seq<Byte>, file: seq<Byte>, offset: nat, bounds: seq<nat>)
    requires k + 2 < |fields| && |bounds| == COMPONENTS
    requires forall c :: 0 <= c < COMPONENTS ==> fields[k + c] == Field(bounds[c], 8) && bounds[c] < Limit(8)
    requires offset == 8 + OffsetOf(fields, k) && file == MAGIC + (Encode(fields) + rest)
    ensures |file| >= offset + 24 && BoundsAt(file, offset) == bounds
  {
    assert fields[k] == fields[k + 0];
    RecordIsRead(fields, k, rest, file, offset, 8, bounds[0]);
    RecordIsRead(fields, k + 1, rest, file, offset + 8, 8, bounds[1]);
    RecordIsRead(fields, k + 2, rest, file, offset + 16, 8, bounds[2]);
    BoundsFromReads(file, offset, bounds);
  }

  lemma BoundsAreFields(h: Header)
    requires Writable(h) && LayoutOf(h.version, h.headerBytes) in {Quantized, Typed}
    ensures |AllFields(h)| >= 16 && OffsetOf(AllFields(h), 10) == 64 && OffsetOf(AllFields(h), 13) == 88
    ensures forall c :: 0 <= c < COMPONENTS ==>
              AllFields(h)[10 + c] == Field(h.minimum[c], 8) && h.minimum[c] < Limit(8)
    ensures forall c :: 0 <= c < COMPONENTS ==>
              AllFields(h)[13 + c] == Field(h.maximum[c], 8) && h.maximum[c] < Limit(8)
  {
    BoundFieldsAre(h);
    forall c | 0 <= c < COMPONENTS
      ensures AllFields(h)[10 + c] == Field(h.minimum[c], 8) && h.minimum[c] < Limit(8)
      ensures AllFields(h)[13 + c] == Field(h.maximum[c], 8) && h.maximum[c] < Limit(8)
    {
      TailFieldIs(h, c, h.minimum[c]);
      TailFieldIs(h, 3 + c, h.maximum[c]);
    }
    TailFieldIs(h, 0, h.minimum[0]);
    TailFieldIs(h, 3, h.maximum[0]);
  }

  lemma BoundsAreRead(h: Header, rest: seq<Byte>, file: seq<Byte>)
    requires Writable(h) && LayoutOf(h.version, h.headerBytes) in {Quantized, Typed} && file == HeaderBytes(h) + rest
    ensures |file| >= 120 && BoundsAt(file, 72) == h.minimum && BoundsAt(file, 96) == h.maximum
  {
    BoundsAreFields(h);
    FileOfHeader(h, rest);
    ThreeAreRead(AllFields(h), 10, rest, file, 72, h.minimum);
    ThreeAreRead(AllFields(h), 13, rest, file, 96, h.maximum);
  }

  /** Whatever follows it, a header is read back as it was written. */
  lemma HeaderIsParsed(h: Header, rest: seq<Byte>)
    requires Writable(h)
    ensures ParseHeader(HeaderBytes(h) + rest) == Some(h)
  {
    var file := HeaderBytes(h) + rest;
    HeaderHasItsLength(h);
    MagicIsRead(h, rest);
    HeadIsRead(h, rest, file);
    ProgressIsRead(h, rest, file);
    CountsAreRead(h, rest, file);
    match LayoutOf(h.version, h.headerBytes)
    case Legacy =>
    case LegacyTyped => TailIsRead(h, rest, 0, file, 72, h.totalSteps);
    case Quantized => BoundsAreRead(h, rest, file);
    case Typed =>
      BoundsAreRead(h, rest, file);
      TailIsRead(h, rest, 6, file, 120, h.typeBytes);
  }
}
