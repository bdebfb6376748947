/** `Reserved<N>`: `N` bytes that are never checked and are always written as zeros. */
module Reserved {
  import opened Wrappers
  import opened Bytes
  import opened Codec

  function ReservedFromRaw(raw: seq<Byte>): Result<(), CuisinerError> {
    Ok(())
  }

  function ReservedToRaw(n: nat): Result<seq<Byte>, CuisinerError> {
    Ok(Fill(0, n))
  }

  function ReservedCodec(n: nat): Codec<()> {
    Codec(n, (_, raw) => ReservedFromRaw(raw), (_, _) => ReservedToRaw(n))
  }

  /** Every input is accepted, whatever it holds, and the output is `N` zero bytes. */
  lemma ReservedMeaning(n: nat, order: ByteOrder, raw: seq<Byte>)
    ensures ReservedCodec(n).tryFromRaw(order, raw) == Ok(())
    ensures ReservedCodec(n).tryToRaw(order, ()).Ok?
    ensures var out := ReservedCodec(n).tryToRaw(order, ()).value;
            |out| == n && forall i :: 0 <= i < n ==> out[i] == 0
  {
  }

  /** Writing back what was read gives zeros: a nonzero reserved byte is not preserved. */
  lemma ReservedNotPreserved(order: ByteOrder)
    ensures ReservedCodec(1).tryFromRaw(order, [1]).Ok?
    ensures ReservedCodec(1).tryToRaw(order, ReservedCodec(1).tryFromRaw(order, [1]).value) == Ok([0])
  {
    assert Fill(0, 1) == [0];
  }

  /** The byte order plays no part. */
  lemma ReservedOrderFree(n: nat)
    ensures ReservedCodec(n).tryToRaw(BigEndian, ()) == ReservedCodec(n).tryToRaw(LittleEndian, ())
  {
  }
}
