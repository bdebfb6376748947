/** `ByteBoolean<N>`: a boolean stored in `N` bytes; any nonzero byte reads as true. */
module Boolean {
  import opened Wrappers
  import opened Bytes
  import opened Codec

  /** The width used when none is given. */

  predicate AllZero(raw: seq<Byte>) {
    forall i :: 0 <= i < |raw| ==> raw[i] == 0
  }

  function BooleanFromRaw(raw: seq<Byte>): Result<bool, CuisinerError> {
    Ok(!AllZero(raw))
  }

  function BooleanToRaw(n: nat, value: bool): Result<seq<Byte>, CuisinerError> {
    Ok(Fill(if value then 0xff else 0x00, n))
  }

  function BooleanCodec(n: nat): Codec<bool> {
    Codec(n, (_, raw) => BooleanFromRaw(raw), (_, value) => BooleanToRaw(n, value))
  }

  /** Decoding never fails and is true exactly when some byte is nonzero. */
  lemma BooleanFromRawMeaning(n: nat, order: ByteOrder, raw: seq<Byte>)
    ensures BooleanCodec(n).tryFromRaw(order, raw).Ok?
    ensures BooleanCodec(n).tryFromRaw(order, raw).value <==> exists i :: 0 <= i < |raw| && raw[i] != 0
  {
  }

  /** Encoding never fails: `N` bytes of 0xff for true, `N` bytes of 0x00 for false. */
  lemma BooleanToRawMeaning(n: nat, order: ByteOrder, value: bool)
    ensures BooleanCodec(n).tryToRaw(order, value).Ok?
    ensures var raw := BooleanCodec(n).tryToRaw(order, value).value;
            |raw| == n && forall i :: 0 <= i < n ==> raw[i] == (if value then 0xff else 0x00)
  {
  }

  /** With at least one byte every boolean round-trips. */
  lemma BooleanRoundTrip(n: nat, order: ByteOrder, value: bool)
    requires n >= 1
    ensures BooleanCodec(n).tryFromRaw(order, BooleanCodec(n).tryToRaw(order, value).value) == Ok(value)
  {
    var raw := BooleanCodec(n).tryToRaw(order, value).value;
    assert raw[0] == (if value then 0xff else 0x00);
  }

  /** With zero bytes, true is written as nothing and read back as false. */
  lemma ZeroWidthLosesTrue(order: ByteOrder)
    ensures BooleanCodec(0).tryToRaw(order, true) == Ok([])
    ensures BooleanCodec(0).tryFromRaw(order, []) == Ok(false)
  {
  }

  /** The byte order plays no part. */
  lemma BooleanOrderFree(n: nat, raw: seq<Byte>, value: bool)
    ensures BooleanCodec(n).tryFromRaw(BigEndian, raw) == BooleanCodec(n).tryFromRaw(LittleEndian, raw)
    ensures BooleanCodec(n).tryToRaw(BigEndian, value) == BooleanCodec(n).tryToRaw(LittleEndian, value)
  {
  }
}
