/** The codec of `[T; N]`: the raw image is the N raw images of the elements, one after the other,
    and each direction converts element by element, stopping at the first error. */
module ArrayCodec {
  import opened Wrappers
  import opened Bytes
  import opened Codec
  import opened Primitives

  // ---------------------------------------------------------------------------------------
  // Specification of the element-wise conversions.

  function ElementsFromRaw<T>(c: Codec<T>, order: ByteOrder, raws: seq<seq<Byte>>): Result<seq<T>, CuisinerError> {
    if raws == [] then Ok([])
    else
      var first :- c.tryFromRaw(order, raws[0]);
      var rest :- ElementsFromRaw(c, order, raws[1..]);
      Ok([first] + rest)
  }

  function ElementsToRaw<T>(c: Codec<T>, order: ByteOrder, values: seq<T>): Result<seq<seq<Byte>>, CuisinerError> {
    if values == [] then Ok([])
    else
      var first :- c.tryToRaw(order, values[0]);
      var rest :- ElementsToRaw(c, order, values[1..]);
      Ok([first] + rest)
  }

  /** Decoding succeeds exactly when every element does, and then element `i` is the decoding of
      raw `i`; otherwise the error is that of the lowest failing index. */
  lemma {:induction false} ElementsFromRawMeaning<T>(c: Codec<T>, order: ByteOrder, raws: seq<seq<Byte>>)
    ensures ElementsFromRaw(c, order, raws).Ok? <==> forall i :: 0 <= i < |raws| ==> c.tryFromRaw(order, raws[i]).Ok?
    ensures ElementsFromRaw(c, order, raws).Ok? ==>
              |ElementsFromRaw(c, order, raws).value| == |raws|
              && forall i :: 0 <= i < |raws| ==> ElementsFromRaw(c, order, raws).value[i] == c.tryFromRaw(order, raws[i]).value
    ensures ElementsFromRaw(c, order, raws).Err? ==>
              exists i :: 0 <= i < |raws| && c.tryFromRaw(order, raws[i]).Err?
                          && (forall j :: 0 <= j < i ==> c.tryFromRaw(order, raws[j]).Ok?)
                          && ElementsFromRaw(c, order, raws).error == c.tryFromRaw(order, raws[i]).error
  {
    if raws != [] {
      var tail := raws[1..];
      assert forall i :: 0 <= i < |tail| ==> tail[i] == raws[i + 1];
      ElementsFromRawMeaning(c, order, tail);
      if c.tryFromRaw(order, raws[0]).Ok? && ElementsFromRaw(c, order, tail).Err? {
        var i :| 0 <= i < |tail| && c.tryFromRaw(order, tail[i]).Err? && (forall j :: 0 <= j < i ==> c.tryFromRaw(order, tail[j]).Ok?)
                 && ElementsFromRaw(c, order, tail).error == c.tryFromRaw(order, tail[i]).error;
        assert raws[i + 1] == tail[i];
        forall j | 0 <= j < i + 1
          ensures c.tryFromRaw(order, raws[j]).Ok?
        {
          if j > 0 {
            assert raws[j] == tail[j - 1];
          }
        }
      }
    }
  }

  lemma {:induction false} ElementsToRawMeaning<T>(c: Codec<T>, order: ByteOrder, values: seq<T>)
    ensures ElementsToRaw(c, order, values).Ok? <==> forall i :: 0 <= i < |values| ==> c.tryToRaw(order, values[i]).Ok?
    ensures ElementsToRaw(c, order, values).Ok? ==>
              |ElementsToRaw(c, order, values).value| == |values|
              && forall i :: 0 <= i < |values| ==> ElementsToRaw(c, order, values).value[i] == c.tryToRaw(order, values[i]).value
    ensures ElementsToRaw(c, order, values).Err? ==>
              exists i :: 0 <= i < |values| && c.tryToRaw(order, values[i]).Err?
                          && (forall j :: 0 <= j < i ==> c.tryToRaw(order, values[j]).Ok?)
                          && ElementsToRaw(c, order, values).error == c.tryToRaw(order, values[i]).error
  {
    if values != [] {
      var tail := values[1..];
      assert forall i :: 0 <= i < |tail| ==> tail[i] == values[i + 1];
      ElementsToRawMeaning(c, order, tail);
      if c.tryToRaw(order, values[0]).Ok? && ElementsToRaw(c, order, tail).Err? {
        var i :| 0 <= i < |tail| && c.tryToRaw(order, tail[i]).Err? && (forall j :: 0 <= j < i ==> c.tryToRaw(order, tail[j]).Ok?)
                 && ElementsToRaw(c, order, tail).error == c.tryToRaw(order, tail[i]).error;
        assert values[i + 1] == tail[i];
        forall j | 0 <= j < i + 1
          ensures c.tryToRaw(order, values[j]).Ok?
        {
          if j > 0 {
            assert values[j] == tail[j - 1];
          }
        }
      }
    }
  }

  // ---------------------------------------------------------------------------------------
  // The source's loops: a zero-initialised output array overwritten slot by slot.

  method ArrayTryFromRaw<T(0)>(c: Codec<T>, order: ByteOrder, raws: seq<seq<Byte>>) returns (r: Result<seq<T>, CuisinerError>)
    ensures r == ElementsFromRaw(c, order, raws)
  {
    var out := new T[|raws|];
    for i := 0 to |raws|
      invariant forall j :: 0 <= j < i ==> c.tryFromRaw(order, raws[j]).Ok? && out[j] == c.tryFromRaw(order, raws[j]).value
    {
      var value := c.tryFromRaw(order, raws[i]);
      if value.Err? {
        ElementsFromRawMeaning(c, order, raws);
        return Err(value.error);
      }
      out[i] := value.value;
    }
    ElementsFromRawMeaning(c, order, raws);
    assert out[..] == ElementsFromRaw(c, order, raws).value;
    return Ok(out[..]);
  }

  method ArrayTryToRaw<T>(c: Codec<T>, order: ByteOrder, values: seq<T>) returns (r: Result<seq<seq<Byte>>, CuisinerError>)
    ensures r == ElementsToRaw(c, order, values)
  {
    var out := new seq<Byte>[|values|];
    for i := 0 to |values|
      invariant forall j :: 0 <= j < i ==> c.tryToRaw(order, values[j]).Ok? && out[j] == c.tryToRaw(order, values[j]).value
    {
      var raw := c.tryToRaw(order, values[i]);
      if raw.Err? {
        ElementsToRawMeaning(c, order, values);
        return Err(raw.error);
      }
      out[i] := raw.value;
    }
    ElementsToRawMeaning(c, order, values);
    assert out[..] == ElementsToRaw(c, order, values).value;
    return Ok(out[..]);
  }

  // ---------------------------------------------------------------------------------------
  // The array image as bytes.

  function Flatten(parts: seq<seq<Byte>>): seq<Byte> {
    if parts == [] then [] else parts[0] + Flatten(parts[1..])
  }

  /** The `n` consecutive chunks of `size` bytes at the front of `bytes`. */
  function Chunks(bytes: seq<Byte>, size: nat, n: nat): seq<seq<Byte>>
    decreases n
  {
    if n == 0 then []
    else if |bytes| < size then [bytes] + Chunks([], size, n - 1)
    else [bytes[..size]] + Chunks(bytes[size..], size, n - 1)
  }

  function ArrayFromRaw<T>(c: Codec<T>, n: nat, order: ByteOrder, raw: seq<Byte>): Result<seq<T>, CuisinerError> {
    ElementsFromRaw(c, order, Chunks(raw, c.rawSize, n))
  }

  function ArrayToRaw<T>(c: Codec<T>, order: ByteOrder, values: seq<T>): Result<seq<Byte>, CuisinerError> {
    var raws :- ElementsToRaw(c, order, values);
    Ok(Flatten(raws))
  }

  function ArrayCodecOf<T>(c: Codec<T>, n: nat): Codec<seq<T>> {
    Codec(n * c.rawSize, (order, raw) => ArrayFromRaw(c, n, order, raw), (order, values) => ArrayToRaw(c, order, values))
  }

  lemma {:induction false} ChunksFlatten(parts: seq<seq<Byte>>, size: nat)
    requires forall i :: 0 <= i < |parts| ==> |parts[i]| == size
    ensures |Flatten(parts)| == |parts| * size
    ensures Chunks(Flatten(parts), size, |parts|) == parts
  {
    if parts != [] {
      var tail := parts[1..];
      assert forall i :: 0 <= i < |tail| ==> tail[i] == parts[i + 1];
      ChunksFlatten(tail, size);
      var flat := Flatten(parts);
      assert flat == parts[0] + Flatten(tail);
      assert flat[..size] == parts[0];
      assert flat[size..] == Flatten(tail);
    }
  }

  /** Arrays of `n` values whose elements round-trip (each image of the element raw size) round-trip
      as a whole, with an image of `n` times the element size. */
  lemma ArrayRoundTrip<T>(c: Codec<T>, n: nat, order: ByteOrder, values: seq<T>)
    requires |values| == n
    requires forall i :: 0 <= i < n ==>
               c.tryToRaw(order, values[i]).Ok? && |c.tryToRaw(order, values[i]).value| == c.rawSize
               && c.tryFromRaw(order, c.tryToRaw(order, values[i]).value) == Ok(values[i])
    ensures ArrayCodecOf(c, n).tryToRaw(order, values).Ok?
    ensures |ArrayCodecOf(c, n).tryToRaw(order, values).value| == ArrayCodecOf(c, n).rawSize
    ensures ArrayCodecOf(c, n).tryFromRaw(order, ArrayCodecOf(c, n).tryToRaw(order, values).value) == Ok(values)
  {
    ElementsToRawMeaning(c, order, values);
    var raws := ElementsToRaw(c, order, values).value;
    ChunksFlatten(raws, c.rawSize);
    ElementsFromRawMeaning(c, order, raws);
    assert ElementsFromRaw(c, order, raws).value == values;
  }

  /** `[0xabcd, 0xef01, 0x2345]: [u32; 3]` through bytes and back, big-endian. */
  lemma ArrayExample()
    ensures var c := ArrayCodecOf(PrimitiveCodec(U32), 3);
            var values := [0xabcd, 0xef01, 0x2345];
            ToBytes(c, BigEndian, values).Ok? && FromBytes(c, BigEndian, ToBytes(c, BigEndian, values).value) == Ok(values)
  {
    var values := [0xabcd, 0xef01, 0x2345];
    forall i | 0 <= i < 3
      ensures PrimitiveCodec(U32).tryFromRaw(BigEndian, PrimitiveCodec(U32).tryToRaw(BigEndian, values[i]).value) == Ok(values[i])
    {
      assert InRange(U32, values[i]) by {
        assert Pow256(4) == 0x1_0000_0000;
      }
      PrimitiveValueRoundTrip(U32, BigEndian, values[i]);
    }
    ArrayRoundTrip(PrimitiveCodec(U32), 3, BigEndian, values);
    BytesRoundTrip(ArrayCodecOf(PrimitiveCodec(U32), 3), BigEndian, values);
  }
}
