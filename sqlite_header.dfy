/** The SQLite database header, as declared with the codec library: its hand-written field codecs
    (the magic string, the page size and the version number) and the declared field layout. */
module SqliteHeader {
  import opened Wrappers
  import opened Bytes
  import opened Text
  import opened Codec
  import opened Primitives
  import opened NonZero
  import opened ConstValue
  import opened Boolean
  import opened Reserved

  const HeaderSize: nat := 100
  const HeaderStringLen: nat := 16

  // ---------------------------------------------------------------------------------------
  // `HeaderString`: the 16 bytes "SQLite format 3\0".

  function HeaderBytes(): (b: seq<Byte>)
    ensures |b| == HeaderStringLen
  {
    [83, 81, 76, 105, 116, 101, 32, 102, 111, 114, 109, 97, 116, 32, 51, 0]
  }

  /** Rust's `Debug` rendering of a byte array: `[83, 81, ...]`. */
  function DebugBytes(raw: seq<Byte>): string {
    "[" + JoinComma(seq(|raw|, i requires 0 <= i < |raw| => NatToString(raw[i]))) + "]"
  }

  function HeaderStringFromRaw(raw: seq<Byte>): Result<(), CuisinerError> {
    if raw != HeaderBytes() then Err(Validation("invalid header string: " + DebugBytes(raw))) else Ok(())
  }

  function HeaderStringCodec(): Codec<()> {
    Codec(HeaderStringLen, (_, raw) => HeaderStringFromRaw(raw), (_, _) => Ok(HeaderBytes()))
  }

  /** Only the exact magic bytes are accepted; the error shows the bytes found. Encoding always
      writes the magic bytes, so the value round-trips. */
  lemma HeaderStringMeaning(order: ByteOrder, raw: seq<Byte>)
    ensures HeaderStringCodec().tryFromRaw(order, raw).Ok? <==> raw == HeaderBytes()
    ensures HeaderStringCodec().tryFromRaw(order, raw).Err? ==>
              HeaderStringCodec().tryFromRaw(order, raw).error == Validation("invalid header string: " + DebugBytes(raw))
    ensures HeaderStringCodec().tryToRaw(order, ()) == Ok(HeaderBytes())
    ensures HeaderStringCodec().tryFromRaw(order, HeaderStringCodec().tryToRaw(order, ()).value) == Ok(())
  {
  }

  // ---------------------------------------------------------------------------------------
  // `PageSize`: a `u16` image where 1 stands for 65536.

  const PageMin: nat := 512
  const PageMax: nat := 32768
  const ValueFor1: nat := 65536

  predicate IsPowerOfTwo(n: nat)
    decreases n
  {
    n == 1 || (n >= 2 && n % 2 == 0 && IsPowerOfTwo(n / 2))
  }

  function PageSizeMessage(n: nat): string {
    "page size must be a power of 2 between " + NatToString(PageMin) + " and " + NatToString(PageMax)
    + " (found " + NatToString(n) + ")"
  }

  function PageSizeFromRaw(order: ByteOrder, raw: seq<Byte>): Result<nat, CuisinerError> {
    var n := DecodeUnsigned(order, raw);
    if n == 1 then Ok(ValueFor1)
    else if PageMin <= n <= PageMax && IsPowerOfTwo(n) then Ok(n)
    else Err(Validation(PageSizeMessage(n)))
  }

  /** The encoder as written: it checks only the range, not that the value is a power of two. */
  function PageSizeToRawAsWritten(order: ByteOrder, value: nat): Result<seq<Byte>, CuisinerError> {
    if value == ValueFor1 then Ok(EncodeUnsigned(order, 1, 2))
    else if PageMin <= value <= PageMax then Ok(EncodeUnsigned(order, value, 2))
    else Err(Validation(PageSizeMessage(value)))
  }

  /** The encoder with the check its error message announces. */
  function PageSizeToRaw(order: ByteOrder, value: nat): Result<seq<Byte>, CuisinerError> {
    if value == ValueFor1 then Ok(EncodeUnsigned(order, 1, 2))
    else if PageMin <= value <= PageMax && IsPowerOfTwo(value) then Ok(EncodeUnsigned(order, value, 2))
    else Err(Validation(PageSizeMessage(value)))
  }

  function PageSizeCodec(): Codec<nat> {
    Codec(2, (order, raw) => PageSizeFromRaw(order, raw), (order, value) => PageSizeToRaw(order, value))
  }

  /** The page sizes SQLite allows: 65536, or a power of two from 512 to 32768. */
  predicate ValidPageSize(n: nat) {
    n == ValueFor1 || (PageMin <= n <= PageMax && IsPowerOfTwo(n))
  }

  /** The two accepting arms of the decoder do not overlap: 65536 comes exactly from a raw 1, and
      every other accepted raw value is its own page size. */
  lemma PageSizeArmsDisjoint(order: ByteOrder, raw: seq<Byte>)
    ensures PageSizeFromRaw(order, raw) == Ok(ValueFor1) <==> DecodeUnsigned(order, raw) == 1
    ensures PageSizeFromRaw(order, raw).Ok? && DecodeUnsigned(order, raw) != 1 ==>
              PageSizeFromRaw(order, raw).value == DecodeUnsigned(order, raw) && PageSizeFromRaw(order, raw).value != ValueFor1
  {
  }

  /** Decoding accepts 1 and the allowed powers of two; it always yields a valid page size. */
  lemma PageSizeFromRawMeaning(order: ByteOrder, raw: seq<Byte>)
    ensures var n := DecodeUnsigned(order, raw);
            PageSizeFromRaw(order, raw).Ok? <==> n == 1 || (PageMin <= n <= PageMax && IsPowerOfTwo(n))
    ensures PageSizeFromRaw(order, raw).Ok? ==> ValidPageSize(PageSizeFromRaw(order, raw).value)
    ensures PageSizeFromRaw(order, raw).Err? ==>
              PageSizeFromRaw(order, raw).error == Validation(PageSizeMessage(DecodeUnsigned(order, raw)))
  {
  }

  /** The corrected encoder accepts exactly the valid page sizes, and they decode back. */
  lemma PageSizeValueRoundTrip(order: ByteOrder, value: nat)
    ensures PageSizeToRaw(order, value).Ok? <==> ValidPageSize(value)
    ensures PageSizeToRaw(order, value).Ok? ==>
              |PageSizeToRaw(order, value).value| == 2
              && PageSizeFromRaw(order, PageSizeToRaw(order, value).value) == Ok(value)
  {
    assert Pow256(2) == 65536;
    if value == ValueFor1 {
      DecodeEncodeUnsigned(order, 1, 2);
    } else if PageMin <= value <= PageMax && IsPowerOfTwo(value) {
      DecodeEncodeUnsigned(order, value, 2);
    }
  }

  /** Every accepted image is written back unchanged, by either encoder. */
  lemma PageSizeRawRoundTrip(order: ByteOrder, raw: seq<Byte>)
    requires |raw| == 2
    requires PageSizeFromRaw(order, raw).Ok?
    ensures PageSizeToRaw(order, PageSizeFromRaw(order, raw).value) == Ok(raw)
    ensures PageSizeToRawAsWritten(order, PageSizeFromRaw(order, raw).value) == Ok(raw)
  {
    EncodeDecodeUnsigned(order, raw);
  }

  /** Where the corrected encoder succeeds, the encoder as written gives the same image. */
  lemma PageSizeEncodersAgree(order: ByteOrder, value: nat)
    requires PageSizeToRaw(order, value).Ok?
    ensures PageSizeToRawAsWritten(order, value) == PageSizeToRaw(order, value)
  {
  }

  /** The encoder as written accepts 513, whose image the decoder then rejects. */
  lemma PageSizeAsWrittenAccepts513(order: ByteOrder)
    ensures PageSizeToRawAsWritten(order, 513).Ok?
    ensures PageSizeFromRaw(order, PageSizeToRawAsWritten(order, 513).value).Err?
    ensures PageSizeToRaw(order, 513).Err?
  {
    assert Pow256(2) == 65536;
    DecodeEncodeUnsigned(order, 513, 2);
  }

  // ---------------------------------------------------------------------------------------
  // `VersionNumber`: a `u32` written as major * 1,000,000 + minor * 1,000 + patch.

  const U32Limit: nat := 0x1_0000_0000

  datatype VersionNumber = VersionNumber(major: nat, minor: nat, patch: nat)

  /** `as u16`. */
  function U16Cast(x: nat): nat {
    x % 65536
  }

  predicate IsU16Version(v: VersionNumber) {
    v.major < 65536 && v.minor < 65536 && v.patch < 65536
  }

  function VersionValue(v: VersionNumber): nat {
    v.major * 1000000 + v.minor * 1000 + v.patch
  }

  function VersionFromRaw(order: ByteOrder, raw: seq<Byte>): Result<VersionNumber, CuisinerError> {
    var r := DecodeUnsigned(order, raw);
    Ok(VersionNumber(U16Cast(r / 1000000), U16Cast(r % 1000000 / 1000), U16Cast(r % 1000)))
  }

  /** The `u32` arithmetic must not overflow. */
  function VersionToRaw(order: ByteOrder, v: VersionNumber): Result<seq<Byte>, CuisinerError>
    requires IsU16Version(v) && VersionValue(v) < U32Limit
  {
    Ok(EncodeUnsigned(order, VersionValue(v), 4))
  }

  /** Decoding splits the number into its decimal groups; the casts to `u16` never truncate. */
  lemma VersionFromRawMeaning(order: ByteOrder, raw: seq<Byte>)
    requires |raw| == 4
    ensures var r := DecodeUnsigned(order, raw);
            var v := VersionFromRaw(order, raw).value;
            v == VersionNumber(r / 1000000, r % 1000000 / 1000, r % 1000)
            && v.minor < 1000 && v.patch < 1000 && IsU16Version(v) && VersionValue(v) == r
  {
    var r := DecodeUnsigned(order, raw);
    assert Pow256(4) == U32Limit;
    VersionGroups(r);
    ModSmall(r / 1000000, 65536);
    ModSmall(r % 1000000 / 1000, 65536);
    ModSmall(r % 1000, 65536);
  }

  /** A `u32` is the sum of its decimal groups, each of which fits in a `u16`. */
  lemma VersionGroups(r: nat)
    requires r < U32Limit
    ensures r / 1000000 < 65536 && r % 1000000 / 1000 < 1000 && r % 1000 < 1000
    ensures (r / 1000000) * 1000000 + (r % 1000000 / 1000) * 1000 + r % 1000 == r
  {
    var low := r % 1000000;
    DivMillion(r, r / 1000000, low);
    DivThousand(low, low / 1000, low % 1000);
    DivThousand(r, (r / 1000000) * 1000 + low / 1000, low % 1000);
  }

  /** Every `u32` image decodes and encodes back to itself. */
  lemma VersionRawRoundTrip(order: ByteOrder, raw: seq<Byte>)
    requires |raw| == 4
    ensures var v := VersionFromRaw(order, raw).value;
            IsU16Version(v) && VersionValue(v) < U32Limit && VersionToRaw(order, v) == Ok(raw)
  {
    VersionFromRawMeaning(order, raw);
    assert Pow256(4) == U32Limit;
    EncodeDecodeUnsigned(order, raw);
  }

  /** A version with minor and patch below 1000 that fits in a `u32` decodes back to itself. */
  lemma VersionValueRoundTrip(order: ByteOrder, v: VersionNumber)
    requires IsU16Version(v) && VersionValue(v) < U32Limit
    requires v.minor < 1000 && v.patch < 1000
    ensures VersionFromRaw(order, VersionToRaw(order, v).value) == Ok(v)
  {
    assert Pow256(4) == U32Limit;
    var r := VersionValue(v);
    DecodeEncodeUnsigned(order, r, 4);
    var raw := VersionToRaw(order, v).value;
    assert DecodeUnsigned(order, raw) == r;
    VersionSplit(r, v.major, v.minor, v.patch);
    ModSmall(v.major, 65536);
    ModSmall(v.minor, 65536);
    ModSmall(v.patch, 65536);
  }

  /** The decimal groups of `major * 1,000,000 + minor * 1,000 + patch`. */
  lemma VersionSplit(r: nat, major: nat, minor: nat, patch: nat)
    requires minor < 1000 && patch < 1000
    requires r == major * 1000000 + minor * 1000 + patch
    ensures r / 1000000 == major && r % 1000000 / 1000 == minor && r % 1000 == patch
  {
    var low := minor * 1000 + patch;
    DivMillion(r, major, low);
    DivThousand(low, minor, patch);
    DivThousand(r, major * 1000 + minor, patch);
  }

  lemma DivMillion(x: int, q: int, m: int)
    requires 0 <= m < 1000000 && x == q * 1000000 + m
    ensures x / 1000000 == q && x % 1000000 == m
  {
  }

  lemma DivThousand(x: int, q: int, m: int)
    requires 0 <= m < 1000 && x == q * 1000 + m
    ensures x / 1000 == q && x % 1000 == m
  {
  }

  // ---------------------------------------------------------------------------------------
  // The declared layout of the header.

  /** One header field: its declared offset and size, and the raw size of the codec it uses. */
  datatype HeaderField = HeaderField(name: string, offset: nat, size: nat, codecSize: nat)

  function HeaderFields(): seq<HeaderField> {
    [ HeaderField("header_string", 0, HeaderStringLen, HeaderStringCodec().rawSize),
      HeaderField("page_size", HeaderStringLen, 2, PageSizeCodec().rawSize),
      HeaderField("file_format_write_version", 18, 1, U8.width),
      HeaderField("file_format_read_version", 19, 1, U8.width),
      HeaderField("page_end_padding", 20, 1, OptionNonZeroCodec(PrimitiveCodec(U8)).rawSize),
      HeaderField("max_payload_fraction", 21, 1, ConstCodec(U8, 64).rawSize),
      HeaderField("min_payload_fraction", 22, 1, ConstCodec(U8, 32).rawSize),
      HeaderField("leaf_payload_fraction", 23, 1, ConstCodec(U8, 32).rawSize),
      HeaderField("file_change_counter", 24, 4, PrimitiveCodec(U32).rawSize),
      HeaderField("page_count", 28, 4, PrimitiveCodec(U32).rawSize),
      HeaderField("freelist_trunk_page", 32, 4, PrimitiveCodec(U32).rawSize),
      HeaderField("freelist_page_count", 36, 4, PrimitiveCodec(U32).rawSize),
      HeaderField("schema_cookie", 40, 4, PrimitiveCodec(U32).rawSize),
      HeaderField("schema_format", 44, 4, U32.width),
      HeaderField("default_page_cache_size", 48, 4, PrimitiveCodec(U32).rawSize),
      HeaderField("largest_root_btree_page", 52, 4, OptionNonZeroCodec(PrimitiveCodec(U32)).rawSize),
      HeaderField("text_encoding", 56, 4, U32.width),
      HeaderField("user_version", 60, 4, PrimitiveCodec(U32).rawSize),
      HeaderField("incremental_vacuum_mode", 64, 4, BooleanCodec(4).rawSize),
      HeaderField("application_id", 68, 4, PrimitiveCodec(U32).rawSize),
      HeaderField("_reserved", 72, 20, ReservedCodec(20).rawSize),
      HeaderField("version_valid_for", 92, 4, PrimitiveCodec(U32).rawSize),
      HeaderField("sqlite_version_number", 96, 4, U32.width) ]
  }

  /** The declared fields tile the header: they start at 0, each begins where the previous one
      ends, the last ends at 100, and every declared size is the size of the field's codec. */
  lemma HeaderLayout()
    ensures var fields := HeaderFields();
            |fields| > 0 && fields[0].offset == 0
            && (forall i :: 0 < i < |fields| ==> fields[i].offset == fields[i - 1].offset + fields[i - 1].size)
            && fields[|fields| - 1].offset + fields[|fields| - 1].size == HeaderSize
            && forall i :: 0 <= i < |fields| ==> fields[i].size == fields[i].codecSize
  {
    assert InRange(U8, 64) && InRange(U8, 32) by {
      assert Pow256(1) == 256;
    }
  }
}
