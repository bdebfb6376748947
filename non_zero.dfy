/** Codecs of `Option<NonZero<T>>` and `NonZero<T>`, built on the codec of the integer `T`: zero is
    the absent value, or an error. A `NonZero<T>` value is an `int` other than 0. */
module NonZero {
  import opened Wrappers
  import opened Bytes
  import opened Codec
  import opened Primitives

  function OptionFromRaw(inner: Codec<int>, order: ByteOrder, raw: seq<Byte>): Result<Option<int>, CuisinerError> {
    var n :- inner.tryFromRaw(order, raw);
    Ok(if n == 0 then None else Some(n))
  }

  function OptionToRaw(inner: Codec<int>, order: ByteOrder, value: Option<int>): Result<seq<Byte>, CuisinerError> {
    inner.tryToRaw(order, if value.Some? then value.value else 0)
  }

  function OptionNonZeroCodec(inner: Codec<int>): Codec<Option<int>> {
    Codec(inner.rawSize, (order, raw) => OptionFromRaw(inner, order, raw), (order, value) => OptionToRaw(inner, order, value))
  }

  function NonZeroFromRaw(inner: Codec<int>, order: ByteOrder, raw: seq<Byte>): Result<int, CuisinerError> {
    var value :- OptionFromRaw(inner, order, raw);
    if value.None? then Err(Zero) else Ok(value.value)
  }

  function NonZeroToRaw(inner: Codec<int>, order: ByteOrder, value: int): Result<seq<Byte>, CuisinerError> {
    inner.tryToRaw(order, value)
  }

  function NonZeroCodec(inner: Codec<int>): Codec<int> {
    Codec(inner.rawSize, (order, raw) => NonZeroFromRaw(inner, order, raw), (order, value) => NonZeroToRaw(inner, order, value))
  }

  /** Decoding `Option<NonZero<T>>`: a decoded 0 is `None`, any other value `Some` of it; errors
      of `T` pass through unchanged. */
  lemma OptionFromRawMeaning(inner: Codec<int>, order: ByteOrder, raw: seq<Byte>)
    ensures var r := OptionNonZeroCodec(inner).tryFromRaw(order, raw);
            var t := inner.tryFromRaw(order, raw);
            (t.Err? ==> r == Err(t.error))
            && (t == Ok(0) ==> r == Ok(None))
            && (t.Ok? && t.value != 0 ==> r == Ok(Some(t.value)))
  {
  }

  /** Encoding `Option<NonZero<T>>`: `None` is the image of 0, `Some(n)` the image of `n`. */
  lemma OptionToRawMeaning(inner: Codec<int>, order: ByteOrder, n: int)
    ensures OptionNonZeroCodec(inner).tryToRaw(order, None) == inner.tryToRaw(order, 0)
    ensures OptionNonZeroCodec(inner).tryToRaw(order, Some(n)) == inner.tryToRaw(order, n)
  {
  }

  /** Decoding `NonZero<T>`: 0 is the `Zero` error, anything else the value itself. */
  lemma NonZeroFromRawMeaning(inner: Codec<int>, order: ByteOrder, raw: seq<Byte>)
    ensures var r := NonZeroCodec(inner).tryFromRaw(order, raw);
            var t := inner.tryFromRaw(order, raw);
            (t.Err? ==> r == Err(t.error))
            && (t == Ok(0) ==> r == Err(Zero))
            && (t.Ok? && t.value != 0 ==> r == Ok(t.value))
    ensures NonZeroCodec(inner).tryFromRaw(order, raw).Ok? ==> NonZeroCodec(inner).tryFromRaw(order, raw).value != 0
  {
  }

  /** Over a primitive integer both codecs round-trip every value of their type. */
  lemma OptionNonZeroRoundTrip(k: IntKind, order: ByteOrder, value: Option<int>)
    requires value.Some? ==> value.value != 0 && InRange(k, value.value)
    ensures var c := OptionNonZeroCodec(PrimitiveCodec(k));
            c.tryToRaw(order, value).Ok? && c.tryFromRaw(order, c.tryToRaw(order, value).value) == Ok(value)
  {
    if value.Some? {
      PrimitiveValueRoundTrip(k, order, value.value);
    } else {
      assert InRange(k, 0) by {
        var _ := Half(k);
      }
      PrimitiveValueRoundTrip(k, order, 0);
    }
  }

  lemma NonZeroRoundTrip(k: IntKind, order: ByteOrder, value: int)
    requires value != 0 && InRange(k, value)
    ensures var c := NonZeroCodec(PrimitiveCodec(k));
            c.tryToRaw(order, value).Ok? && c.tryFromRaw(order, c.tryToRaw(order, value).value) == Ok(value)
  {
    PrimitiveValueRoundTrip(k, order, value);
  }

  /** Over a primitive integer, an all-zero image is `None`, and the `Zero` error for `NonZero`. */
  lemma ZeroImage(k: IntKind, order: ByteOrder)
    ensures OptionNonZeroCodec(PrimitiveCodec(k)).tryFromRaw(order, EncodeInt(k, order, 0)) == Ok(None)
    ensures NonZeroCodec(PrimitiveCodec(k)).tryFromRaw(order, EncodeInt(k, order, 0)) == Err(Zero)
  {
    assert InRange(k, 0) by {
      var _ := Half(k);
    }
    DecodeEncodeInt(k, order, 0);
  }
}
