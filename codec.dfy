/** The runtime contract every codec type implements: a fixed-size raw image, conversions to and
    from it under a byte order, and byte-buffer reading and writing built on them. */
module Codec {
  import opened Wrappers
  import opened Bytes

  /** The three ways a conversion can fail. */
  datatype CuisinerError =
    | Zero
    | SizeError(required: nat, found: nat)
    | Validation(message: string)

  /** One implementation of the codec trait for a value type `T`: the size of its raw image and
      its two conversions. A raw image is the byte sequence of that size. */
  datatype Codec<!T> = Codec(
    rawSize: nat,
    tryFromRaw: (ByteOrder, seq<Byte>) -> Result<T, CuisinerError>,
    tryToRaw: (ByteOrder, T) -> Result<seq<Byte>, CuisinerError>)

  /** Read a value from the front of a buffer. */
  function FromBytes<T>(c: Codec<T>, order: ByteOrder, bytes: seq<Byte>): Result<T, CuisinerError> {
    if |bytes| < c.rawSize then Err(SizeError(c.rawSize, |bytes|))
    else c.tryFromRaw(order, bytes[..c.rawSize])
  }

  /** Write a value as its raw image. */
  function ToBytes<T>(c: Codec<T>, order: ByteOrder, value: T): Result<seq<Byte>, CuisinerError> {
    var raw :- c.tryToRaw(order, value);
    Ok(raw)
  }

  /** A buffer shorter than the raw image is reported with both sizes; nothing is decoded. */
  lemma FromBytesShort<T>(c: Codec<T>, order: ByteOrder, bytes: seq<Byte>)
    requires |bytes| < c.rawSize
    ensures FromBytes(c, order, bytes) == Err(SizeError(c.rawSize, |bytes|))
  {
  }

  /** Reading looks only at the first raw-size bytes, and what the raw conversion returns for
      them, an error included, is the result. */
  lemma FromBytesPrefix<T>(c: Codec<T>, order: ByteOrder, raw: seq<Byte>, trailing: seq<Byte>)
    requires |raw| == c.rawSize
    ensures FromBytes(c, order, raw + trailing) == c.tryFromRaw(order, raw)
  {
    assert (raw + trailing)[..c.rawSize] == raw;
  }

  /** Writing produces exactly the raw image, or the raw conversion's error. */
  lemma ToBytesImage<T>(c: Codec<T>, order: ByteOrder, value: T)
    ensures ToBytes(c, order, value) == c.tryToRaw(order, value)
  {
  }

  /** A value whose raw conversions round-trip also round-trips through bytes. */
  lemma BytesRoundTrip<T>(c: Codec<T>, order: ByteOrder, value: T)
    requires c.tryToRaw(order, value).Ok? && |c.tryToRaw(order, value).value| == c.rawSize
    requires c.tryFromRaw(order, c.tryToRaw(order, value).value) == Ok(value)
    ensures ToBytes(c, order, value).Ok?
    ensures FromBytes(c, order, ToBytes(c, order, value).value) == Ok(value)
  {
    var raw := c.tryToRaw(order, value).value;
    assert raw[..c.rawSize] == raw;
  }

  /** The same holds with anything appended after the image. */
  lemma BytesRoundTripTrailing<T>(c: Codec<T>, order: ByteOrder, value: T, trailing: seq<Byte>)
    requires c.tryToRaw(order, value).Ok? && |c.tryToRaw(order, value).value| == c.rawSize
    requires c.tryFromRaw(order, c.tryToRaw(order, value).value) == Ok(value)
    ensures FromBytes(c, order, ToBytes(c, order, value).value + trailing) == Ok(value)
  {
    FromBytesPrefix(c, order, c.tryToRaw(order, value).value, trailing);
  }
}
