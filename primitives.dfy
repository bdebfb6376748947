/** Codecs of the primitive integers: the raw image is the byte-order wrapper of the same width. */
module Primitives {
  import opened Wrappers
  import opened Bytes
  import opened Codec

  function PrimitiveFromRaw(k: IntKind, order: ByteOrder, raw: seq<Byte>): Result<int, CuisinerError> {
    Ok(DecodeInt(k, order, raw))
  }

  function PrimitiveToRaw(k: IntKind, order: ByteOrder, value: int): Result<seq<Byte>, CuisinerError> {
    Ok(EncodeInt(k, order, value))
  }

  function PrimitiveCodec(k: IntKind): Codec<int> {
    Codec(k.width, (order, raw) => PrimitiveFromRaw(k, order, raw), (order, value) => PrimitiveToRaw(k, order, value))
  }

  /** Decoding never fails and yields a value of the type. */
  lemma PrimitiveFromRawTotal(k: IntKind, order: ByteOrder, raw: seq<Byte>)
    requires |raw| == k.width
    ensures PrimitiveCodec(k).tryFromRaw(order, raw).Ok?
    ensures InRange(k, PrimitiveCodec(k).tryFromRaw(order, raw).value)
  {
    EncodeDecodeInt(k, order, raw);
  }

  /** Encoding never fails and yields an image of the type's width. */
  lemma PrimitiveToRawTotal(k: IntKind, order: ByteOrder, value: int)
    ensures PrimitiveCodec(k).tryToRaw(order, value).Ok?
    ensures |PrimitiveCodec(k).tryToRaw(order, value).value| == PrimitiveCodec(k).rawSize
  {
  }

  /** Encoding then decoding under one byte order gives the value back. */
  lemma PrimitiveValueRoundTrip(k: IntKind, order: ByteOrder, value: int)
    requires InRange(k, value)
    ensures PrimitiveCodec(k).tryFromRaw(order, PrimitiveCodec(k).tryToRaw(order, value).value) == Ok(value)
    ensures FromBytes(PrimitiveCodec(k), order, ToBytes(PrimitiveCodec(k), order, value).value) == Ok(value)
  {
    DecodeEncodeInt(k, order, value);
    BytesRoundTrip(PrimitiveCodec(k), order, value);
  }

  /** Decoding then encoding gives the raw image back. */
  lemma PrimitiveRawRoundTrip(k: IntKind, order: ByteOrder, raw: seq<Byte>)
    requires |raw| == k.width
    ensures PrimitiveCodec(k).tryToRaw(order, PrimitiveCodec(k).tryFromRaw(order, raw).value) == Ok(raw)
  {
    EncodeDecodeInt(k, order, raw);
  }

  /** `0x0102_u16` is `[1, 2]` big-endian and `[2, 1]` little-endian. */
  lemma PrimitiveExamples()
    ensures PrimitiveCodec(U16).tryToRaw(BigEndian, 0x0102) == Ok([1, 2])
    ensures PrimitiveCodec(U16).tryToRaw(LittleEndian, 0x0102) == Ok([2, 1])
    ensures PrimitiveCodec(I8).tryToRaw(BigEndian, -1) == Ok([255])
  {
    assert LeBytes(0x0102, 2) == [2, 1] by {
      assert LeBytes(1, 1) == [1];
    }
    assert Reverse([2, 1]) == [1, 2];
    assert Pow256(1) == 256;
    assert ToUnsigned(I8, -1) == 255;
    assert LeBytes(255, 1) == [255];
    assert Reverse([255]) == [255];
  }
}
