/** Bytes, byte orders and fixed-width integers: what the zerocopy byte-order wrappers
    (`U16<B>`, `I32<B>`, ...) store and how `get` and `new` convert them. */
module Bytes {

  type Byte = b: int | 0 <= b < 256

  /** The byte-order parameter `B: ByteOrder`; NetworkEndian is BigEndian, and NativeEndian is one
      of the two on any given target. */
  datatype ByteOrder = BigEndian | LittleEndian

  function Pow256(n: nat): (r: nat)
    ensures r >= 1
  {
    if n == 0 then 1 else 256 * Pow256(n - 1)
  }

  /** The `w` low-order bytes of `v`, least significant first. Higher bytes are dropped. */
  function LeBytes(v: nat, w: nat): (r: seq<Byte>)
    ensures |r| == w
  {
    if w == 0 then [] else [v % 256] + LeBytes(v / 256, w - 1)
  }

  /** The unsigned value of a little-endian byte sequence. */
  function LeValue(s: seq<Byte>): (v: nat)
    ensures v < Pow256(|s|)
  {
    if s == [] then 0
    else
      var rest := LeValue(s[1..]);
      assert rest <= Pow256(|s| - 1) - 1;
      assert 256 * rest <= 256 * Pow256(|s| - 1) - 256;
      s[0] + 256 * rest
  }

  lemma {:induction false} LeValueOfLeBytes(v: nat, w: nat)
    requires v < Pow256(w)
    ensures LeValue(LeBytes(v, w)) == v
  {
    if w > 0 {
      var s := LeBytes(v, w);
      assert s[1..] == LeBytes(v / 256, w - 1);
      assert v / 256 < Pow256(w - 1);
      LeValueOfLeBytes(v / 256, w - 1);
    }
  }

  lemma {:induction false} LeBytesOfLeValue(s: seq<Byte>)
    ensures LeBytes(LeValue(s), |s|) == s
  {
    if s != [] {
      var v := LeValue(s);
      assert v == s[0] + 256 * LeValue(s[1..]);
      assert v % 256 == s[0] && v / 256 == LeValue(s[1..]);
      LeBytesOfLeValue(s[1..]);
    }
  }

  function Reverse(s: seq<Byte>): (r: seq<Byte>)
    ensures |r| == |s|
    ensures forall i :: 0 <= i < |s| ==> r[i] == s[|s| - 1 - i]
  {
    if s == [] then [] else Reverse(s[1..]) + [s[0]]
  }

  lemma ReverseReverse(s: seq<Byte>)
    ensures Reverse(Reverse(s)) == s
  {
    assert forall i :: 0 <= i < |s| ==> Reverse(Reverse(s))[i] == s[i];
  }

  /** Encoding of an unsigned value in `w` bytes under a byte order. */
  function EncodeUnsigned(order: ByteOrder, v: nat, w: nat): (r: seq<Byte>)
    ensures |r| == w
  {
    match order
    case LittleEndian => LeBytes(v, w)
    case BigEndian => Reverse(LeBytes(v, w))
  }

  /** The unsigned value of a byte sequence under a byte order. */
  function DecodeUnsigned(order: ByteOrder, s: seq<Byte>): (v: nat)
    ensures v < Pow256(|s|)
  {
    match order
    case LittleEndian => LeValue(s)
    case BigEndian => LeValue(Reverse(s))
  }

  lemma DecodeEncodeUnsigned(order: ByteOrder, v: nat, w: nat)
    requires v < Pow256(w)
    ensures DecodeUnsigned(order, EncodeUnsigned(order, v, w)) == v
  {
    LeValueOfLeBytes(v, w);
    ReverseReverse(LeBytes(v, w));
  }

  lemma EncodeDecodeUnsigned(order: ByteOrder, s: seq<Byte>)
    ensures EncodeUnsigned(order, DecodeUnsigned(order, s), |s|) == s
  {
    match order
    case LittleEndian => LeBytesOfLeValue(s);
    case BigEndian =>
      LeBytesOfLeValue(Reverse(s));
      ReverseReverse(s);
  }

  /** A one-byte value is the same byte under either order: `u8` and `i8` carry no byte order. */
  lemma SingleByteOrderFree(v: nat)
    ensures EncodeUnsigned(BigEndian, v, 1) == EncodeUnsigned(LittleEndian, v, 1) == [v % 256]
  {
  }

  datatype IntShape = IntKind(width: nat, signed: bool)

  /** A primitive integer type: its width in bytes (at least one) and whether it is
      two's-complement signed. */
  type IntKind = k: IntShape | k.width >= 1 witness IntKind(1, false)

  const U8 := IntKind(1, false)
  const U16 := IntKind(2, false)
  const U32 := IntKind(4, false)
  const U64 := IntKind(8, false)
  const U128 := IntKind(16, false)
  /** `usize` and `isize` are modelled on a 64-bit target. */
  const Usize := IntKind(8, false)
  const I8 := IntKind(1, true)
  const I16 := IntKind(2, true)
  const I32 := IntKind(4, true)
  const I64 := IntKind(8, true)
  const I128 := IntKind(16, true)
  const Isize := IntKind(8, true)

  /** Half the unsigned range: the bound of a signed type. */
  function Half(k: IntKind): (h: nat)
    ensures 2 * h == Pow256(k.width)
  {
    128 * Pow256(k.width - 1)
  }

  /** The values of the Rust integer type. */
  predicate InRange(k: IntKind, v: int) {
    if k.signed then -(Half(k) as int) <= v < Half(k) else 0 <= v < Pow256(k.width)
  }

  /** Two's-complement bit pattern of `v` (what `as` to the unsigned type of that width gives). */
  function ToUnsigned(k: IntKind, v: int): (u: nat)
    ensures u < Pow256(k.width)
  {
    v % Pow256(k.width)
  }

  /** The value a bit pattern denotes in the type. */
  function FromUnsigned(k: IntKind, u: nat): int {
    if k.signed && u >= Half(k) then u - Pow256(k.width) else u
  }

  lemma ModSmall(x: int, p: int)
    requires 0 <= x < p
    ensures x % p == x
  {
  }

  lemma ModWrapped(x: int, p: int)
    requires 0 <= x + p < p
    ensures x % p == x + p
  {
  }

  lemma FromToUnsigned(k: IntKind, v: int)
    requires InRange(k, v)
    ensures FromUnsigned(k, ToUnsigned(k, v)) == v
  {
    var p := Pow256(k.width);
    if v >= 0 {
      ModSmall(v, p);
    } else {
      ModWrapped(v, p);
    }
  }

  lemma ToFromUnsigned(k: IntKind, u: nat)
    requires u < Pow256(k.width)
    ensures InRange(k, FromUnsigned(k, u))
    ensures ToUnsigned(k, FromUnsigned(k, u)) == u
  {
    var p := Pow256(k.width);
    if k.signed && u >= Half(k) {
      ModWrapped(u - p, p);
    } else {
      ModSmall(u, p);
    }
  }

  /** `U32::<B>::new(v)` and its kin: the byte image of an integer of kind `k`. */
  function EncodeInt(k: IntKind, order: ByteOrder, v: int): (r: seq<Byte>)
    ensures |r| == k.width
  {
    EncodeUnsigned(order, ToUnsigned(k, v), k.width)
  }

  /** `raw.get()`: the integer of kind `k` that a byte image denotes. */
  function DecodeInt(k: IntKind, order: ByteOrder, s: seq<Byte>): int
  {
    FromUnsigned(k, DecodeUnsigned(order, s))
  }

  lemma DecodeEncodeInt(k: IntKind, order: ByteOrder, v: int)
    requires InRange(k, v)
    ensures DecodeInt(k, order, EncodeInt(k, order, v)) == v
  {
    DecodeEncodeUnsigned(order, ToUnsigned(k, v), k.width);
    FromToUnsigned(k, v);
  }

  lemma EncodeDecodeInt(k: IntKind, order: ByteOrder, s: seq<Byte>)
    requires |s| == k.width
    ensures InRange(k, DecodeInt(k, order, s))
    ensures EncodeInt(k, order, DecodeInt(k, order, s)) == s
  {
    ToFromUnsigned(k, DecodeUnsigned(order, s));
    EncodeDecodeUnsigned(order, s);
  }

  /** `[b; n]`. */
  function Fill(b: Byte, n: nat): (r: seq<Byte>)
    ensures |r| == n && forall i :: 0 <= i < n ==> r[i] == b
  {
    seq(n, _ => b)
  }
}
