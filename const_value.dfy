/** `ConstU8<N>` ... `ConstIsize<N>`: a value that must be the constant `N` of its integer type. The
    value itself carries nothing, so it is the unit `()`. */
module ConstValue {
  import opened Wrappers
  import opened Bytes
  import opened Text
  import opened Codec

  function ConstFromRaw(k: IntKind, n: int, order: ByteOrder, raw: seq<Byte>): Result<(), CuisinerError> {
    var found := DecodeInt(k, order, raw);
    if found != n then Err(Validation("expected " + IntToString(n) + ", found " + IntToString(found)))
    else Ok(())
  }

  function ConstToRaw(k: IntKind, n: int, order: ByteOrder): Result<seq<Byte>, CuisinerError> {
    Ok(EncodeInt(k, order, n))
  }

  /** The codec of the constant `n` of kind `k`; `N` is a value of the type. */
  function ConstCodec(k: IntKind, n: int): Codec<()>
    requires InRange(k, n)
  {
    Codec(k.width, (order, raw) => ConstFromRaw(k, n, order, raw), (order, _) => ConstToRaw(k, n, order))
  }

  /** Decoding succeeds exactly when the image holds `N`; otherwise the error names both values. */
  lemma ConstFromRawMeaning(k: IntKind, n: int, order: ByteOrder, raw: seq<Byte>)
    requires InRange(k, n) && |raw| == k.width
    ensures ConstCodec(k, n).tryFromRaw(order, raw).Ok? <==> raw == EncodeInt(k, order, n)
    ensures ConstCodec(k, n).tryFromRaw(order, raw).Err? ==>
              ConstCodec(k, n).tryFromRaw(order, raw).error
                == Validation("expected " + IntToString(n) + ", found " + IntToString(DecodeInt(k, order, raw)))
  {
    EncodeDecodeInt(k, order, raw);
    DecodeEncodeInt(k, order, n);
  }

  /** Encoding never fails, writes `N`, and decodes again. */
  lemma ConstRoundTrip(k: IntKind, n: int, order: ByteOrder)
    requires InRange(k, n)
    ensures ConstCodec(k, n).tryToRaw(order, ()) == Ok(EncodeInt(k, order, n))
    ensures ConstCodec(k, n).tryFromRaw(order, ConstCodec(k, n).tryToRaw(order, ()).value) == Ok(())
  {
    DecodeEncodeInt(k, order, n);
  }

  /** `ConstU8` and `ConstI8` use the bare byte: the byte order makes no difference. */
  lemma SingleByteConstOrderFree(k: IntKind, n: int, raw: seq<Byte>)
    requires InRange(k, n) && k.width == 1 && |raw| == 1
    ensures ConstCodec(k, n).tryFromRaw(BigEndian, raw) == ConstCodec(k, n).tryFromRaw(LittleEndian, raw)
    ensures ConstCodec(k, n).tryToRaw(BigEndian, ()) == ConstCodec(k, n).tryToRaw(LittleEndian, ())
  {
    SingleByteOrderFree(ToUnsigned(k, n));
    assert Reverse(raw) == raw;
  }

  /** `ConstU8<64>` read from a 32: "expected 64, found 32". */
  lemma ConstExample()
    ensures ConstCodec(U8, 64).tryFromRaw(BigEndian, [32]) == Err(Validation("expected 64, found 32"))
    ensures ConstCodec(U8, 64).tryFromRaw(BigEndian, [64]) == Ok(())
  {
    assert Pow256(1) == 256;
    assert Reverse([32]) == [32];
    assert Reverse([64]) == [64];
    assert LeValue([32]) == 32 by {
      assert [32][1..] == [];
    }
    assert LeValue([64]) == 64 by {
      assert [64][1..] == [];
    }
    assert NatToString(64) == "64" by {
      assert NatToString(6) == "6";
    }
    assert NatToString(32) == "32" by {
      assert NatToString(3) == "3";
    }
    assert DecodeInt(U8, BigEndian, [32]) == 32;
    assert IntToString(64) == "64" && IntToString(32) == "32";
    assert "expected " + "64" + ", found " + "32" == "expected 64, found 32";
  }
}
