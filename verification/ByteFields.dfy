/** Little-endian fields in a sequence of bytes. */
module ByteFields {

  type Byte = b: nat | b < 256

  /** The value in so many bytes, least significant first. */
  function Little(value: nat, width: nat): (bytes: seq<Byte>)
    ensures |bytes| == width
    decreases width
  {
    if width == 0 then [] else [value % 256] + Little(value / 256, width - 1)
  }

  function Number(bytes: seq<Byte>): nat
  {
    if bytes == [] then 0 else bytes[0] + 256 * Number(bytes[1..])
  }

  function Limit(width: nat): nat
  {
    if width == 0 then 1 else 256 * Limit(width - 1)
  }

  lemma {:induction false} NumberOfLittle(value: nat, width: nat)
    requires value < Limit(width)
    ensures Number(Little(value, width)) == value
    decreases width
  {
    if width > 0 {
      NumberOfLittle(value / 256, width - 1);
      assert Little(value, width)[1..] == Little(value / 256, width - 1);
    }
  }

  /** The writing loop: one byte after the other. */
  method WriteLittleEndian(value: nat, width: nat) returns (bytes: seq<Byte>)
    ensures bytes == Little(value, width)
  {
    bytes := [];
    var rest := value;
    for byte := 0 to width
      invariant |bytes| == byte && Little(value, width) == bytes + Little(rest, width - byte)
    {
      var b: Byte := rest % 256;
      assert Little(rest, width - byte) == [b] + Little(rest / 256, width - byte - 1);
      bytes := bytes + [b];
      rest := rest / 256;
    }
  }

  /** The number of `width` bytes at an offset. */
  function FieldAt(file: seq<Byte>, offset: nat, width: nat): nat
    requires offset + width <= |file|
  {
    Number(file[offset..offset + width])
  }

  // ----- the weight of each byte, written out

  function At(file: seq<Byte>, i: nat): nat
    requires i < |file|
  {
    file[i]
  }

  function Weight2(file: seq<Byte>, offset: nat): nat
    requires offset + 2 <= |file|
  {
    At(file, offset) + 0x100 * At(file, offset + 1)
  }

  function Weight4(file: seq<Byte>, offset: nat): nat
    requires offset + 4 <= |file|
  {
    At(file, offset) + 0x100 * At(file, offset + 1)
    + 0x1_0000 * At(file, offset + 2) + 0x100_0000 * At(file, offset + 3)
  }

  function Weight8(file: seq<Byte>, offset: nat): nat
    requires offset + 8 <= |file|
  {
    At(file, offset) + 0x100 * At(file, offset + 1)
    + 0x1_0000 * At(file, offset + 2) + 0x100_0000 * At(file, offset + 3)
    + 0x1_0000_0000 * At(file, offset + 4) + 0x100_0000_0000 * At(file, offset + 5)
    + 0x1_0000_0000_0000 * At(file, offset + 6) + 0x100_0000_0000_0000 * At(file, offset + 7)
  }

  lemma {:induction false} NextByte(file: seq<Byte>, offset: nat, width: nat)
    requires 0 < width && offset + width <= |file|
    ensures FieldAt(file, offset, width) == file[offset] + 256 * FieldAt(file, offset + 1, width - 1)
  {
    assert file[offset..offset + width][1..] == file[offset + 1..offset + width];
  }

  lemma {:induction false} TwoBytes(file: seq<Byte>, offset: nat)
    requires offset + 2 <= |file|
    ensures FieldAt(file, offset, 2) == Weight2(file, offset)
  {
    NextByte(file, offset, 2);
    NextByte(file, offset + 1, 1);
  }

  lemma {:induction false} TwoBytesMore(file: seq<Byte>, offset: nat, width: nat)
    requires 2 <= width && offset + width <= |file|
    ensures FieldAt(file, offset, width) == Weight2(file, offset) + 0x1_0000 * FieldAt(file, offset + 2, width - 2)
  {
    NextByte(file, offset, width);
    NextByte(file, offset + 1, width - 1);
  }

  lemma {:induction false} FourBytes(file: seq<Byte>, offset: nat)
    requires offset + 4 <= |file|
    ensures FieldAt(file, offset, 4) == Weight4(file, offset)
  {
    TwoBytesMore(file, offset, 4);
    TwoBytes(file, offset + 2);
  }

  lemma {:induction false} EightBytes(file: seq<Byte>, offset: nat)
    requires offset + 8 <= |file|
    ensures FieldAt(file, offset, 8) == Weight8(file, offset)
  {
    TwoBytesMore(file, offset, 8);
    TwoBytesMore(file, offset + 2, 6);
    FourBytes(file, offset + 4);
  }

  /** What was written behind some bytes is read back at their length. */
  lemma FieldBehind(front: seq<Byte>, value: nat, width: nat, rest: seq<Byte>)
    requires value < Limit(width)
    ensures FieldAt(front + Little(value, width) + rest, |front|, width) == value
  {
    var file := front + Little(value, width) + rest;
    assert file[|front|..|front| + width] == Little(value, width);
    NumberOfLittle(value, width);
  }

  // ----- records of fields

  datatype Field = Field(value: nat, width: nat)

  function Encode(fields: seq<Field>): seq<Byte>
  {
    if fields == [] then []
    else Encode(fields[..|fields| - 1]) + Little(fields[|fields| - 1].value, fields[|fields| - 1].width)
  }

  /** Bytes in front of field k. */
  function OffsetOf(fields: seq<Field>, k: nat): nat
    requires k <= |fields|
  {
    if k == 0 then 0 else OffsetOf(fields, k - 1) + fields[k - 1].width
  }

  lemma {:induction false} OffsetOfPrefix(fields: seq<Field>, n: nat, k: nat)
    requires k <= n <= |fields|
    ensures OffsetOf(fields[..n], k) == OffsetOf(fields, k)
    decreases k
  {
    if k > 0 {
      OffsetOfPrefix(fields, n, k - 1);
    }
  }

  lemma {:induction false} EncodedLength(fields: seq<Field>)
    ensures |Encode(fields)| == OffsetOf(fields, |fields|)
  {
    if fields != [] {
      var n := |fields| - 1;
      EncodedLength(fields[..n]);
      OffsetOfPrefix(fields, n, n);
    }
  }

  /** Every field of a record is read back at its offset. */
  lemma {:induction false} FieldOfRecord(fields: seq<Field>, k: nat, rest: seq<Byte>)
    requires k < |fields| && fields[k].value < Limit(fields[k].width)
    ensures OffsetOf(fields, k) + fields[k].width <= |Encode(fields) + rest|
    ensures FieldAt(Encode(fields) + rest, OffsetOf(fields, k), fields[k].width) == fields[k].value
    decreases |fields|
  {
    var n := |fields| - 1;
    var front, last := fields[..n], Little(fields[n].value, fields[n].width);
    if k == n {
      EncodedLength(front);
      OffsetOfPrefix(fields, n, n);
      FieldBehind(Encode(front), fields[n].value, fields[n].width, rest);
    } else {
      FieldOfRecord(front, k, last + rest);
      OffsetOfPrefix(fields, n, k);
      assert Encode(fields) + rest == Encode(front) + (last + rest);
    }
  }

  ghost predicate ReadsAt(file: seq<Byte>, offset: nat, width: nat, value: nat)
  {
    offset + width <= |file| && FieldAt(file, offset, width) == value
  }

  /** A field is found in a longer sequence by shifting its offset. */
  lemma FieldIsShifted(front: seq<Byte>, inner: seq<Byte>, file: seq<Byte>, o: nat, w: nat, value: nat)
    requires file == front + inner && ReadsAt(inner, o, w, value)
    ensures ReadsAt(file, |front| + o, w, value)
  {
    assert file[|front| + o..|front| + o + w] == inner[o..o + w];
  }

  /** Fields of a record behind other bytes. */
  lemma FieldBehindBytes(front: seq<Byte>, fields: seq<Field>, k: nat, rest: seq<Byte>, file: seq<Byte>)
    requires k < |fields| && fields[k].value < Limit(fields[k].width) && file == front + (Encode(fields) + rest)
    ensures ReadsAt(file, |front| + OffsetOf(fields, k), fields[k].width, fields[k].value)
  {
    var inner, o, w := Encode(fields) + rest, OffsetOf(fields, k), fields[k].width;
    assert ReadsAt(inner, o, w, fields[k].value) by {
      FieldOfRecord(fields, k, rest);
    }
    FieldIsShifted(front, inner, file, o, w, fields[k].value);
  }

  // ----- arrays of equal fields

  function Scalars(values: seq<nat>, width: nat): seq<Field>
  {
    seq(|values|, i requires 0 <= i < |values| => Field(values[i], width))
  }

  /** Bytes in front of element k. */
  function PlaceOf(k: nat, width: nat): nat
  {
    k * width
  }

  function Payload(values: seq<nat>, width: nat): seq<Byte>
  {
    Encode(Scalars(values, width))
  }

  lemma {:induction false} ScalarOffset(values: seq<nat>, width: nat, k: nat)
    requires k <= |values|
    ensures OffsetOf(Scalars(values, width), k) == PlaceOf(k, width)
  {
    if k > 0 {
      ScalarOffset(values, width, k - 1);
    }
  }

  lemma PayloadLength(values: seq<nat>, width: nat)
    ensures |Payload(values, width)| == PlaceOf(|values|, width)
  {
    EncodedLength(Scalars(values, width));
    ScalarOffset(values, width, |values|);
  }

  ghost predicate AllBelow(values: seq<nat>, limit: nat)
  {
    forall i :: 0 <= i < |values| ==> values[i] < limit
  }

  /** Every value of an array is read back at its place. */
  lemma ScalarBehindBytes(front: seq<Byte>, values: seq<nat>, width: nat, k: nat, rest: seq<Byte>, file: seq<Byte>)
    requires k < |values| && AllBelow(values, Limit(width)) && file == front + (Payload(values, width) + rest)
    ensures ReadsAt(file, |front| + PlaceOf(k, width), width, values[k])
  {
    ScalarOffset(values, width, k);
    FieldBehindBytes(front, Scalars(values, width), k, rest, file);
  }

  lemma {:induction false} PayloadConcat(a: seq<nat>, b: seq<nat>, width: nat)
    ensures Payload(a + b, width) == Payload(a, width) + Payload(b, width)
  {
    if b == [] {
      assert a + b == a;
    } else {
      var n := |b| - 1;
      PayloadConcat(a, b[..n], width);
      assert Scalars(a + b, width)[..|a + b| - 1] == Scalars(a + b[..n], width);
      assert Scalars(b, width)[..n] == Scalars(b[..n], width);
    }
  }

  /** The payload written in chunks is the payload, whatever the size of the chunks. */
  method WriteChunks(values: seq<nat>, width: nat, chunk: nat) returns (bytes: seq<Byte>)
    requires chunk > 0
    ensures bytes == Payload(values, width)
  {
    bytes := [];
    var offset := 0;
    while offset < |values|
      invariant offset <= |values| && bytes == Payload(values[..offset], width)
    {
      var count := if offset + chunk <= |values| then chunk else |values| - offset;
      bytes := bytes + Payload(values[offset..offset + count], width);
      PayloadConcat(values[..offset], values[offset..offset + count], width);
      assert values[..offset + count] == values[..offset] + values[offset..offset + count];
      offset := offset + count;
    }
    assert values[..|values|] == values;
  }
}
