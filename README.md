# cuisiner in Dafny

This project models the logic of cuisiner, a Rust library that turns structs and enums into
fixed-size binary images with a chosen byte order. The library has three parts, and all three
are modelled here:

- **`assert_layout`** is an attribute macro that checks a struct's layout at compile time. Its
  front and middle end are modelled: attribute parsing, the single-trait bound map, the
  associated-type qualifier (`T::Item` becomes `<T as Trait>::Item`), the analysis that builds
  one assertion set per substitution list, and lowering to size and offset facts.
- **`cuisiner_derive`** is the derive macro. Its front and middle end are modelled: shape
  dispatch, the container configuration and `repr` lookup, enum discriminants, field and
  field-assertion extraction, and lowering (the raw type's name, derives and extra byte-order
  generic).
- **The runtime codec contract** is modelled with its instances: `from_bytes` and `to_bytes`,
  primitive integers, `NonZero` and `Option<NonZero>`, arrays, constant values, byte booleans,
  reserved bytes, and the SQLite header codecs used by the repository's integration test.

The model works on values. syn's syntax tree is a set of small datatypes (`syntax.dfy`, module
`Syn`). Errors are `Result` values carrying the source's message strings. A raw (wire) type is a
byte sequence of fixed length. A byte order selects big- or little-endian encoding. Integer
kinds carry their width and signedness, and two's-complement wrapping is written out in module
`Bytes`.

Four parts of the source build state step by step, and the model keeps that form as methods with
loops. Each method is proved equal to a specification function, and the properties are then
proved as lemmas about that function:

- `LayoutParse.Parse` and `LayoutParse.ParseFieldAttr` model `assert_layout/src/parse.rs`;
- `DeriveConfig.DeriveConfigOf` models `DeriveConfig::try_from`;
- `DeriveFields.FieldAssertionsOf` models `FieldAssertions::try_from`;
- `ArrayCodec.ArrayTryFromRaw` and `ArrayCodec.ArrayTryToRaw` model the array conversions.
  Each fills a fresh Dafny `array` and returns early on the first failing element.

The generic qualifier is a recursive tree rewrite. It is modelled as mutually recursive
functions, and these properties are proved about it:

- with a trait map whose own paths need no rewriting, its output is a fixed point (`Resolved`);
- it leaves a fixed point unchanged;
- so it is idempotent;
- with an empty map it is the identity.

`assert_layout/src/analyse.rs` and `assert_layout/src/analyse/mod.rs` hold two copies of the same
analysis and qualifier, so the model covers them once. The table cites whichever copy holds the
lines in question.

Calls into code that is not part of this model become parameters:

- `GenericsParser`, a function from a string to a list of generic arguments, stands for syn's
  parser of the `generics = "..."` and `assert_generics = "..."` strings;
- a `Codec<T>` record (raw size, decoder, encoder) stands for an implementation of the
  `Cuisiner` trait.

## Model

| member | source | states |
|---|---|---|
| LayoutParse.FieldMember | assert_layout/src/parse.rs:23-27 | a field is identified by its name when it has one, otherwise by its zero-based position |
| LayoutParse.ParseFieldAttr | assert_layout/src/parse.rs:37-61 | the nested-meta callback on one `assert_layout` attribute, written as a loop, equals the specification `FieldAttrAssertion`; the assertion records the field and its declared type |
| LayoutParse.Parse | assert_layout/src/parse.rs:9-109 | the imperative parser (field loop, attribute fold, container loop) returns exactly `ParseSpec` |
| LayoutParse.ParseSpec | assert_layout/src/parse.rs:9-109 | the parse as a function: fields first, then container items; specified by `ParseMeaning` and `ParseFieldErrorFirst` |
| LayoutParse.ApplyFieldKeysMeaning | assert_layout/src/parse.rs:44-61 | field keys succeed iff every key is `size` or `offset` with a value; the last `size` and the last `offset` win; on failure the error belongs to the first bad key ("unknown attribute: {key}") |
| LayoutParse.KeptAttrsMembers | assert_layout/src/parse.rs:29-36 | after parsing, a field keeps exactly its attributes that are not `assert_layout` |
| LayoutParse.ParseFieldAttrsMeaning | assert_layout/src/parse.rs:29-67 | the attribute fold succeeds iff every own attribute parses; it then keeps the other attributes in order and appends one assertion per own attribute |
| LayoutParse.ParseFieldAttrsFirstError | assert_layout/src/parse.rs:29-67 | a failing fold reports the error of the first own attribute that fails |
| LayoutParse.StrippedFields | assert_layout/src/parse.rs:18-29 | stripping keeps the field count and each field's name, type and visibility |
| LayoutParse.ParseFieldsSucceeds | assert_layout/src/parse.rs:18-70 | the field pass succeeds iff every field's own attributes parse |
| LayoutParse.ParseFieldsValue | assert_layout/src/parse.rs:18-70 | on success the field pass yields the stripped fields and all assertions, ordered by field and then by attribute |
| LayoutParse.ApplyContainerMetasMeaning | assert_layout/src/parse.rs:72-106 | container items succeed iff each is a good `size` or `generics` item; the last size wins; each `generics` string appends one list in order; the first bad item gives the error |
| LayoutParse.ParseMeaning | assert_layout/src/parse.rs:9-109 | parsing succeeds iff all fields and all container items parse; the result holds the stripped struct, all field assertions, the generics lists and the last size |
| LayoutParse.ParseFieldErrorFirst | assert_layout/src/parse.rs:18-72 | a field error is reported whatever the container items are, because fields are processed first; it is the error of the first bad attribute of the first field that has one |
| LayoutParse.ParseFieldsFirstError | assert_layout/src/parse.rs:18-70 | a failing field pass returns the error of the first field with a bad attribute, and within that field the error of its first bad own attribute |
| LayoutParse.ParseWithoutGenerics | assert_layout/src/parse.rs:13 | without a `generics` item the parsed substitution lists are empty |
| LayoutParse.NoGenericsLists | assert_layout/src/parse.rs:79-97 | items with no `generics` key contribute no substitution list |
| LayoutBounds.GetBoundGenerics | assert_layout/src/analyse/util.rs:7-21 | a name is a key iff some type parameter of that name has exactly one bound and that bound is a trait; its value is the trait path of the last such parameter |
| LayoutBounds.CollectBounds | assert_layout/src/analyse/util.rs:8-21 | the `filter_map` and `collect` into a map; specified by `BoundMembership` and `BoundValue` |
| LayoutBounds.GetBoundGenericsIgnoresWhere | assert_layout/src/analyse/util.rs:7-11 | the map reads only the inline parameter list: two where-clauses give the same map |
| LayoutBounds.BoundMembership | assert_layout/src/analyse/util.rs:8-21 | a name is in the map iff some type parameter with that name has exactly one bound and that bound is a trait |
| LayoutBounds.BoundValue | assert_layout/src/analyse/util.rs:15-21 | a mapped name maps to the full trait path of the last such parameter with that name |
| LayoutBounds.BoundOfDistinct | assert_layout/src/analyse/util.rs:11-19 | with distinct parameter names, a single-trait parameter maps to its own trait path |
| LayoutBounds.BoundExamples | assert_layout/src/analyse/util.rs:41-76 | the unit-test cases: no bound, one bound, two bounds, a path bound, a mix, and a lifetime bound |
| LayoutQualify.Qualify | assert_layout/src/analyse/qualify.rs:48-102 | a path type stays a path type and every other type is returned unchanged; the path cases are stated by `QualifyRewrites`, `QualifyKeepsUnbound`, `QualifyQualified` and `QualifyRooted` |
| LayoutQualify.QualifySegments | assert_layout/src/analyse/qualify.rs:9-45 | segment qualification keeps the number of segments and every segment's identifier, and each segment's arguments are the qualified arguments of the original segment |
| LayoutQualify.QualifyArguments | assert_layout/src/analyse/qualify.rs:14-43 | no arguments stay none; inside `<...>` the arguments are visited one by one; inside `(...)` the inputs are qualified and the return type is kept |
| LayoutQualify.QualifyGenericArgs | assert_layout/src/analyse/qualify.rs:16-33 | the list keeps its length, and each argument is visited in its place |
| LayoutQualify.QualifyGenericArg | assert_layout/src/analyse/qualify.rs:19-32 | a type argument is qualified; lifetime, const and binding arguments are kept as they are |
| LayoutQualify.QualifyTypes | assert_layout/src/analyse/qualify.rs:34-42 | the inputs keep their length, and each input type is qualified in its place |
| LayoutQualify.QualifySegmentsTail | assert_layout/src/analyse/qualify.rs:13 | segments are visited one by one: the visit of the tail is the tail of the visit |
| LayoutQualify.QualifyRewrites | assert_layout/src/analyse/qualify.rs:78-101 | an unqualified, unrooted path `T::rest` of two or more segments whose head `T` is bound to a trait becomes `<T as Trait>::rest`: the self type is `T` at the trait's segment count, and the segments are the trait's followed by the visited rest |
| LayoutQualify.QualifyKeepsUnbound | assert_layout/src/analyse/qualify.rs:78-95 | a single-segment path, or one whose head is not bound, keeps its segments with only their arguments visited |
| LayoutQualify.QualifyQualified | assert_layout/src/analyse/qualify.rs:60-71 | an already qualified path gets its self type qualified and its segments visited, keeping the position and the leading `::` |
| LayoutQualify.QualifyRooted | assert_layout/src/analyse/qualify.rs:51-58 | an unqualified path with a leading `::` is returned as it is |
| LayoutQualify.QualifyResolves | assert_layout/src/analyse/qualify.rs:48-102 | when the trait paths in the map need no rewriting, every qualified type is fully resolved: no unqualified path of two or more segments headed by a bound name remains |
| LayoutQualify.QualifyFixesResolved | assert_layout/src/analyse/qualify.rs:48-102 | a resolved type is returned unchanged |
| LayoutQualify.QualifyIdempotent | assert_layout/src/analyse/qualify.rs:48-102 | qualifying twice equals qualifying once |
| LayoutQualify.QualifyWithoutBounds | assert_layout/src/analyse/qualify.rs:78-95 | with an empty bound map, qualification is the identity |
| LayoutQualify.QualifyAssociated | assert_layout/src/analyse/qualify.rs:133-136 | `T::Item` with `T: MyTrait` becomes `<T as MyTrait>::Item` |
| LayoutQualify.QualifyExamples | assert_layout/src/analyse/qualify.rs:128-152 | the unit-test cases: bare `T`, `T::Item`, and the nested and doubly nested projections |
| LayoutQualify.QualifyArgumentExamples | assert_layout/src/analyse.rs:301-315 | the unit-test cases `SomeStruct<T::Item>` and `<K as TraitWithGeneric>::Item<T::Item>`: type arguments are qualified inside plain and qualified paths |
| LayoutAnalyse.ContainerType | assert_layout/src/analyse/mod.rs:13-15 | the container type is an unqualified, unrooted single-segment path named after the struct; it has no arguments when the struct has no parameters, and otherwise one angle-bracketed argument per parameter: the lifetime for a lifetime parameter, the parameter's name as a type for a type or const parameter |
| LayoutAnalyse.Analyse | assert_layout/src/analyse/mod.rs:11-80 | the whole analysis; specified by `AnalyseListsMeaning`, `AnalyseWithoutLists` and `ArityChecked` |
| LayoutAnalyse.PairItem | assert_layout/src/analyse/mod.rs:106-139 | `AssertionItem::try_from` for one parameter and argument; specified by `PairItemsMeaning` and `PairItemExamples` |
| LayoutAnalyse.SetAssertions | assert_layout/src/analyse/mod.rs:46-70 | the field checks followed by the container size check; specified by `SetAssertionsField`, `FieldChecksOrder`, `FieldChecksShape` and `ContainerSizeLast` |
| LayoutAnalyse.FieldAssertionChecks | assert_layout/src/analyse/mod.rs:49-61 | a field assertion yields one check per given size and one per given offset; the size check comes first and is `Size(<the field type, qualified>, size)`; the offset check comes last and is `Offset(<container type>, <field>, offset)` |
| LayoutAnalyse.SetAssertionsField | assert_layout/src/analyse/mod.rs:46-61 | in every set, field k's checks start right after those of the fields before it: `Size(<qualified field type>, size)` at that position when a size is given, then `Offset(<container type>, <field>, offset)` |
| LayoutAnalyse.AnalyseListsMeaning | assert_layout/src/analyse/mod.rs:17-79 | analysis succeeds iff every substitution list succeeds; it then yields one set per list, in order; otherwise it returns the error of the first failing list and no partial model |
| LayoutAnalyse.AnalyseWithoutLists | assert_layout/src/analyse/mod.rs:17-20 | with no substitution lists the model holds the struct and no assertion sets |
| LayoutAnalyse.ArityChecked | assert_layout/src/analyse/mod.rs:22-31 | a list of the wrong length fails with "expected {params} generic arguments, but found {args}" |
| LayoutAnalyse.ArityMessageInjective | assert_layout/src/analyse.rs:22-31 | the arity message determines both counts |
| LayoutAnalyse.PairItemsMeaning | assert_layout/src/analyse/mod.rs:106-139 | pairing succeeds iff every parameter/argument pair has matching kinds; items then follow the parameters one to one (a type parameter gives a type item; a const parameter gives a const item with its declared type); otherwise the first mismatch gives "{kind} required as generic argument" |
| LayoutAnalyse.PairItemExamples | assert_layout/src/analyse/mod.rs:146-172 | the unit-test cases: a type item, a const item, and a mismatch |
| LayoutAnalyse.SetsShareAssertions | assert_layout/src/analyse.rs:33-102 | the bound map and the assertions depend only on the declaration, so every successful set carries the same assertions |
| LayoutAnalyse.FieldChecksAppend | assert_layout/src/analyse.rs:78-93 | the assertions of a concatenation of fields are the concatenation of their assertions |
| LayoutAnalyse.FieldChecksOrder | assert_layout/src/analyse.rs:78-102 | field by field, each field's checks sit between those of the fields before and after it |
| LayoutAnalyse.FieldChecksShape | assert_layout/src/analyse/mod.rs:46-61 | every offset check names the container type, and every size check's type is fully qualified |
| LayoutAnalyse.ContainerSizeLast | assert_layout/src/analyse/mod.rs:62-70 | a declared container size gives the last assertion of the set |
| LayoutLower.Lower | assert_layout/src/lower.rs:5-38 | lowering never fails, keeps the struct, and keeps the number of sets and the number of items and facts in each |
| LayoutLower.LowerSetRoundTrip | assert_layout/src/lower.rs:11-34 | each lowered set can be read back to the original set, so item and assertion order is kept |
| LayoutLower.LowerRoundTrip | assert_layout/src/lower.rs:5-38 | the whole model can be read back from its lowering |
| DeriveParse.Parse | cuisiner_derive/src/parse.rs:5-46 | parsing fails iff the input is a union, with "`union` is not supported"; otherwise the attributes are kept |
| DeriveParse.Attrs | cuisiner_derive/src/parse.rs:39-46 | `Ast::attrs`: the attributes of the struct or the enum; used by `DeriveConfig.ConfigMeaning` and `DeriveAnalyse.ConfigErrorFirst` |
| DeriveParse.Unparse | cuisiner_derive/src/parse.rs:31-37 | a parsed syntax tree is never a union |
| DeriveParse.ParseUnparse | cuisiner_derive/src/parse.rs:5-29 | parsing the input rebuilt from a syntax tree gives that tree back |
| DeriveParse.UnparseParse | cuisiner_derive/src/parse.rs:5-29 | a struct or enum input is rebuilt exactly from its parse |
| DeriveParse.ParseKeepsShape | cuisiner_derive/src/parse.rs:7-24 | a struct keeps its fields and an enum keeps its variants, including variants with fields |
| DeriveConfig.ReprFromName | cuisiner_derive/src/analyse.rs:199-212 | each of the twelve representations is found from its own name |
| DeriveConfig.ReprFromMeaning | cuisiner_derive/src/analyse.rs:199-218 | lookup succeeds iff the name is one of the twelve, and then yields the representation with that name; otherwise it fails with "unknown repr: {name}" |
| DeriveConfig.ReprFrom | cuisiner_derive/src/analyse.rs:199-218 | the name-to-representation lookup; specified by `ReprFromMeaning` and `ReprFromName` |
| DeriveConfig.ReprNameInjective | cuisiner_derive/src/analyse.rs:181-212 | different representations have different names |
| DeriveConfig.DeriveConfigOf | cuisiner_derive/src/analyse.rs:116-176 | the imperative configuration parser (filtered iterator, nested-meta callback) returns exactly `ConfigSpec` |
| DeriveConfig.ConfigSpec | cuisiner_derive/src/analyse.rs:116-176 | the configuration parse as a function; specified by `ConfigMeaning`, `ApplyConfigKeysMeaning` and `IgnoresOtherAttributes` |
| DeriveConfig.KeyStep | cuisiner_derive/src/analyse.rs:139-165 | one key succeeds iff it is a valid `repr`, `assert_size` or `assert_generics` item; it sets only its own field; any other key fails with "unknown attribute argument" |
| DeriveConfig.ApplyConfigKeysMeaning | cuisiner_derive/src/analyse.rs:139-165 | the keys succeed iff each key is valid; the last occurrence of each key wins; the first bad key gives the error |
| DeriveConfig.CuisinerAttrsIdempotent | cuisiner_derive/src/analyse.rs:118 | the `cuisiner` filter keeps exactly the `cuisiner` attributes and is idempotent |
| DeriveConfig.CuisinerAttrsAppend | cuisiner_derive/src/analyse.rs:118 | filtering distributes over concatenation |
| DeriveConfig.IgnoresOtherAttributes | cuisiner_derive/src/analyse.rs:118-125 | attributes with other names never change the configuration or its errors |
| DeriveConfig.ConfigMeaning | cuisiner_derive/src/analyse.rs:116-176 | parsing succeeds iff there is no `cuisiner` attribute, or exactly one in path form, or exactly one in list form whose keys are all valid; the list form's last keys win; no attribute or the path form gives the default configuration |
| DeriveConfig.ConfigDefaultExamples | cuisiner_derive/src/analyse.rs:403-464 | the unit-test cases that give the default: no attributes, `#[cuisiner]`, `#[cuisiner()]`, and unrelated attributes |
| DeriveConfig.ConfigReprExample | cuisiner_derive/src/analyse.rs:439-449 | `#[cuisiner(repr = i64)]` sets the representation to i64 |
| DeriveConfig.ConfigGenericsExample | cuisiner_derive/src/analyse.rs:469-518 | `assert_generics = "..."` stores the parsed argument list |
| DeriveConfig.ConfigErrorExamples | cuisiner_derive/src/analyse.rs:520-540 | two attributes, an unknown argument and an unknown representation each give their message |
| DeriveAnalyse.DiscriminantMeaning | cuisiner_derive/src/analyse.rs:36-67 | a variant is accepted iff it is a unit variant with a literal discriminant that is a byte or an integer fitting in usize; the value is that literal's value; a non-unit variant fails with "enum variants must be unit" |
| DeriveAnalyse.Discriminant | cuisiner_derive/src/analyse.rs:36-67 | one variant's discriminant; specified by `DiscriminantMeaning` |
| DeriveAnalyse.Variants | cuisiner_derive/src/analyse.rs:32-69 | all variants with their discriminants, stopping at the first error; specified by `VariantsMeaning` |
| DeriveAnalyse.VariantsMeaning | cuisiner_derive/src/analyse.rs:32-69 | the variants succeed iff every variant is accepted; names and values then keep declaration order; otherwise the first rejected variant's error is returned |
| DeriveAnalyse.ConfigErrorFirst | cuisiner_derive/src/analyse.rs:10-12 | a configuration error aborts analysis before anything else is checked |
| DeriveAnalyse.Analyse | cuisiner_derive/src/analyse.rs:10-72 | the whole analysis; specified by `ConfigErrorFirst`, `AnalyseStruct` and `AnalyseEnum` |
| DeriveAnalyse.AnalyseStruct | cuisiner_derive/src/analyse.rs:15-23 | a struct succeeds iff its configuration and its fields convert; the model keeps its name, visibility, fields, `assert_size` and generics, and the representation is ignored |
| DeriveAnalyse.AnalyseEnum | cuisiner_derive/src/analyse.rs:24-71 | a missing representation fails with "'repr = ...' attribute is missing" before any variant is looked at; otherwise success means all variants are accepted, and the model keeps the representation and the variants' names in order |
| DeriveAnalyse.AnalyseStructExamples | cuisiner_derive/src/analyse.rs:266-332 | the unit-test cases: unit struct, tuple struct, size assertion, and an unknown attribute |
| DeriveAnalyse.AnalyseEnumExamples | cuisiner_derive/src/analyse.rs:334-396 | the unit-test cases: a valid enum, a missing representation, and a missing discriminant |
| DeriveFields.FieldAssertionsOf | cuisiner_derive/src/lib.rs:94-122 | the imperative loop over the attributes returns exactly `AssertionsFrom` |
| DeriveFields.AssertionsFrom | cuisiner_derive/src/lib.rs:94-122 | `FieldAssertions::try_from` as a function; specified by `AssertionsFromFlat` and `FieldAssertionsMeaning` |
| DeriveFields.AssertionsFromFlat | cuisiner_derive/src/lib.rs:97-119 | the loop amounts to applying the keys of all `cuisiner` list attributes in order; others, including a `cuisiner` attribute not in list form, are skipped |
| DeriveFields.ApplyKeysAppend | cuisiner_derive/src/lib.rs:97-119 | applying two key runs in turn stops at the first error |
| DeriveFields.ApplyKeysMeaning | cuisiner_derive/src/lib.rs:106-118 | the keys succeed iff each is `size` or `offset` with a value; the last ones win; the first bad key fails with "unknown attribute" |
| DeriveFields.FieldAssertionsMeaning | cuisiner_derive/src/lib.rs:94-122 | the same three facts for a whole attribute list, starting from no assertions |
| DeriveFields.NamedFromMeaning | cuisiner_derive/src/lib.rs:49-64 | named fields convert iff every field's assertions parse, keeping count, order, names, types and each field's assertions |
| DeriveFields.UnnamedFromMeaning | cuisiner_derive/src/lib.rs:65-76 | unnamed fields convert iff every field's assertions parse, keeping count, order, types and assertions |
| DeriveFields.FromSynFieldsMeaning | cuisiner_derive/src/lib.rs:47-79 | conversion keeps the shape (named, unnamed or unit), the number of fields and each field's type |
| DeriveFields.FromSynFields | cuisiner_derive/src/lib.rs:47-79 | `Fields::try_from`; specified by `FromSynFieldsMeaning`, `NamedFromMeaning` and `UnnamedFromMeaning` |
| DeriveLower.RawIdent | cuisiner_derive/src/lower.rs:20 | the raw identifier is "___Cuisiner", then the name, then "Raw" |
| DeriveLower.RawIdentInjective | cuisiner_derive/src/lower.rs:20 | different names give different raw identifiers |
| DeriveLower.NewStructGenerics | cuisiner_derive/src/lower.rs:79-93 | the base generics are kept; the raw generics are the base parameters plus one trailing `___Cuisiner_Generic_B: ::cuisiner::zerocopy::ByteOrder`, with the same where-clause |
| DeriveLower.ZerocopyOfCrate | cuisiner_derive/src/lower.rs:22-25 | `#crate_name::zerocopy::Name` with `::cuisiner` is the path `::cuisiner::zerocopy::Name` |
| DeriveLower.Lower | cuisiner_derive/src/lower.rs:7-34 | lowering never fails; the crate path is `::cuisiner`; name, visibility, fields and `assert_size` pass through; a struct gets its raw name, the four derives `::cuisiner::zerocopy::{FromBytes, IntoBytes, Immutable, Unaligned}` in that order, and the generics `NewStructGenerics` builds from its own with `::cuisiner`; an enum's representation and variants pass through |
| DeriveLower.LowerRaise | cuisiner_derive/src/lower.rs:7-34 | the model can be read back from its lowering, so nothing is lost |
| DeriveLower.LowerExamples | cuisiner_derive/src/lower.rs:113-155 | the unit-test cases: `MyStruct` gives `___CuisinerMyStructRaw`, and an enum keeps its representation and three variants |
| Codec.FromBytesShort | src/lib.rs:25-30 | a buffer shorter than the raw size gives `SizeError{required: raw size, found: buffer length}` |
| Codec.FromBytes | src/lib.rs:25-32 | `from_bytes`; specified by `FromBytesShort` and `FromBytesPrefix` |
| Codec.ToBytes | src/lib.rs:35-37 | `to_bytes`; specified by `ToBytesImage` |
| Codec.FromBytesPrefix | src/lib.rs:25-31 | a long enough buffer decodes its first raw-size bytes and ignores the rest; the decoder's result, error or not, is returned unchanged |
| Codec.ToBytesImage | src/lib.rs:35-37 | `to_bytes` returns exactly the encoder's result |
| Codec.BytesRoundTrip | src/lib.rs:25-37 | if the raw conversions round-trip then `from_bytes(to_bytes(x)) == Ok(x)` |
| Codec.BytesRoundTripTrailing | src/lib.rs:25-37 | the same with trailing bytes after the image |
| Bytes.DecodeEncodeInt | src/implementations/mod.rs:13-19 | an in-range value encoded under a byte order decodes back to itself |
| Bytes.EncodeDecodeInt | src/implementations/mod.rs:13-19 | a raw image decoded and re-encoded gives the same bytes |
| Primitives.PrimitiveFromRawTotal | src/implementations/mod.rs:10-14 | decoding a primitive never fails and gives an in-range value |
| Primitives.PrimitiveCodec | src/implementations/mod.rs:5-22 | the codec of a primitive integer; specified by `PrimitiveFromRawTotal`, `PrimitiveToRawTotal` and the round-trip lemmas |
| Primitives.PrimitiveToRawTotal | src/implementations/mod.rs:16-20 | encoding a primitive never fails and gives exactly its width in bytes |
| Primitives.PrimitiveValueRoundTrip | src/implementations/mod.rs:10-20 | encode then decode gives the value back, also through `to_bytes`/`from_bytes` |
| Primitives.PrimitiveRawRoundTrip | src/implementations/mod.rs:10-20 | decode then encode gives the raw bytes back |
| Primitives.PrimitiveExamples | src/implementations/mod.rs:5-22 | examples of the model's encodings, not source unit tests: u16 0x0102 is `[1, 2]` big-endian and `[2, 1]` little-endian; i8 -1 is `[255]` |
| NonZero.OptionFromRawMeaning | src/implementations/number.rs:8-13 | a decoded 0 gives `None`, a nonzero n gives `Some(n)`, and errors of the inner decoder propagate |
| NonZero.OptionNonZeroCodec | src/implementations/number.rs:5-20 | the codec of `Option<NonZero<T>>` over the codec of `T`; specified by `OptionFromRawMeaning`, `OptionToRawMeaning` and `OptionNonZeroRoundTrip` |
| NonZero.NonZeroCodec | src/implementations/number.rs:22-35 | the codec of `NonZero<T>` over the codec of `T`; specified by `NonZeroFromRawMeaning` and `NonZeroRoundTrip` |
| NonZero.OptionToRawMeaning | src/implementations/number.rs:15-19 | `None` encodes as 0 and `Some(n)` as n |
| NonZero.NonZeroFromRawMeaning | src/implementations/number.rs:25-30 | a decoded 0 fails with `Zero`, a nonzero n gives n, errors propagate, and a result is never 0 |
| NonZero.OptionNonZeroRoundTrip | src/implementations/number.rs:8-19 | over a primitive, `Option<NonZero>` values round-trip |
| NonZero.NonZeroRoundTrip | src/implementations/number.rs:22-34 | over a primitive, nonzero values round-trip |
| NonZero.ZeroImage | src/implementations/number.rs:8-30 | the image of 0 decodes to `None` and is rejected as `Zero` |
| ArrayCodec.ElementsFromRawMeaning | src/implementations/array.rs:6-16 | element-wise decoding succeeds iff every element decodes, and then element i is the decoding of raw element i; otherwise the first failing element's error is returned |
| ArrayCodec.ElementsToRawMeaning | src/implementations/array.rs:18-28 | the same for element-wise encoding |
| ArrayCodec.ArrayTryFromRaw | src/implementations/array.rs:6-16 | the loop writing a fresh array with an early return equals `ElementsFromRaw` |
| ArrayCodec.ArrayTryToRaw | src/implementations/array.rs:18-28 | the loop writing a fresh array with an early return equals `ElementsToRaw` |
| ArrayCodec.ArrayCodecOf | src/implementations/array.rs:3-29 | the codec of `[T; N]`; specified by `ArrayRoundTrip` and the element-wise meaning lemmas |
| ArrayCodec.ChunksFlatten | src/implementations/array.rs:4 | an array of equal-size raw elements splits back into the same elements |
| ArrayCodec.ArrayRoundTrip | src/implementations/array.rs:3-29 | if every element round-trips, the array round-trips and its image has N times the element size |
| ArrayCodec.ArrayExample | src/implementations/array.rs:37-43 | `[0xabcd, 0xef01, 0x2345]` as `[u32; 3]` round-trips through bytes in big-endian order |
| ConstValue.ConstFromRawMeaning | src/util/const_value.rs:13-22 | decoding succeeds iff the bytes are the image of N; otherwise it fails with "expected {N}, found {raw}" |
| ConstValue.ConstCodec | src/util/const_value.rs:5-30 | the codec of a constant; specified by `ConstFromRawMeaning` and `ConstRoundTrip` |
| ConstValue.ConstRoundTrip | src/util/const_value.rs:24-27 | encoding never fails, gives the image of N, and decodes back |
| ConstValue.SingleByteConstOrderFree | src/util/const_value.rs:32-66 | the one-byte variants do not depend on byte order |
| ConstValue.ConstExample | src/util/const_value.rs:32-36 | `ConstU8<64>` rejects `[32]` with "expected 64, found 32" and accepts `[64]` |
| Boolean.BooleanFromRawMeaning | src/util/boolean.rs:13-16 | decoding never fails and gives true iff some byte is nonzero |
| Boolean.BooleanCodec | src/util/boolean.rs:10-21 | the codec of `ByteBoolean<N>`; specified by `BooleanFromRawMeaning`, `BooleanToRawMeaning` and `BooleanRoundTrip` |
| Boolean.BooleanToRawMeaning | src/util/boolean.rs:18-20 | encoding gives N bytes of 0xff for true and N bytes of 0x00 for false |
| Boolean.BooleanRoundTrip | src/util/boolean.rs:13-20 | for N of at least 1 the value round-trips |
| Boolean.ZeroWidthLosesTrue | src/util/boolean.rs:14-19 | with N = 0, true encodes to no bytes, which decode to false |
| Boolean.BooleanOrderFree | src/util/boolean.rs:11 | byte order plays no part |
| Reserved.ReservedMeaning | src/util/reserved.rs:10-16 | decoding accepts every input and encoding gives N zero bytes |
| Reserved.ReservedCodec | src/util/reserved.rs:7-17 | the codec of `Reserved<N>`; specified by `ReservedMeaning` |
| Reserved.ReservedNotPreserved | src/util/reserved.rs:10-16 | re-encoding decoded `[1]` gives `[0]`, not the original bytes |
| Reserved.ReservedOrderFree | src/util/reserved.rs:8 | byte order plays no part |
| SqliteHeader.HeaderBytes | tests/sqlite-header.rs:64 | the header string is 16 bytes long |
| SqliteHeader.HeaderStringCodec | tests/sqlite-header.rs:61-82 | the codec of the header string; specified by `HeaderStringMeaning` |
| SqliteHeader.HeaderStringMeaning | tests/sqlite-header.rs:69-81 | the header string decodes iff the bytes are exactly "SQLite format 3\0", otherwise fails with "invalid header string: ..."; it always encodes to those bytes |
| SqliteHeader.PageSizeFromRawMeaning | tests/sqlite-header.rs:97-109 | decoding succeeds iff the raw value is 1 or a power of two in [512, 32768]; the result is a valid page size; otherwise the message names the value |
| SqliteHeader.PageSizeFromRaw | tests/sqlite-header.rs:97-109 | the page-size decoder; specified by `PageSizeFromRawMeaning` |
| SqliteHeader.PageSizeToRawAsWritten | tests/sqlite-header.rs:111-123 | the page-size encoder as written, with the range check only; specified by `PageSizeEncodersAgree` and `PageSizeAsWrittenAccepts513` |
| SqliteHeader.PageSizeToRaw | tests/sqlite-header.rs:111-123 | the corrected page-size encoder, with the power-of-two check its message names; specified by `PageSizeValueRoundTrip` |
| SqliteHeader.PageSizeCodec | tests/sqlite-header.rs:94-124 | the page-size codec, built on the corrected encoder `PageSizeToRaw`, not on the encoder as written at tests/sqlite-header.rs:111-123; specified by `PageSizeFromRawMeaning` and `PageSizeValueRoundTrip` |
| SqliteHeader.PageSizeValueRoundTrip | tests/sqlite-header.rs:111-123 | the corrected encoder accepts exactly the valid page sizes, and they decode back |
| SqliteHeader.PageSizeRawRoundTrip | tests/sqlite-header.rs:97-123 | every accepted raw value re-encodes to itself, under both encoders |
| SqliteHeader.PageSizeEncodersAgree | tests/sqlite-header.rs:111-123 | where the corrected encoder succeeds, the encoder as written gives the same bytes |
| SqliteHeader.PageSizeAsWrittenAccepts513 | tests/sqlite-header.rs:111-123 | the encoder as written accepts 513, whose image the decoder rejects |
| SqliteHeader.PageSizeArmsDisjoint | tests/sqlite-header.rs:98-100 | the decoder gives 65536 exactly when the raw value is 1; any other accepted raw value decodes to itself, never to 65536 |
| SqliteHeader.VersionFromRawMeaning | tests/sqlite-header.rs:159-166 | major is r / 1,000,000, minor is (r mod 1,000,000) / 1,000 and patch is r mod 1,000; all fit in u16 and recombine to r |
| SqliteHeader.VersionFromRaw | tests/sqlite-header.rs:159-166 | the version decoder; specified by `VersionFromRawMeaning` |
| SqliteHeader.VersionToRaw | tests/sqlite-header.rs:168-172 | the version encoder; specified by `VersionRawRoundTrip` and `VersionValueRoundTrip` |
| SqliteHeader.VersionRawRoundTrip | tests/sqlite-header.rs:159-172 | encoding a decoded version gives back the same four bytes |
| SqliteHeader.VersionValueRoundTrip | tests/sqlite-header.rs:168-172 | with minor and patch below 1000 and no u32 overflow, decoding an encoded version gives it back |
| SqliteHeader.VersionSplit | tests/sqlite-header.rs:162-164 | the division and remainder pattern recovers the three parts of a composed number |
| SqliteHeader.HeaderLayout | tests/sqlite-header.rs:7-58 | the declared offsets start at 0, each follows the previous field, the last ends at 100, and each declared size is the field codec's raw size |

## Left out

- Token emission is not modelled: `assert_layout/src/codegen.rs` and `cuisiner_derive/src/codegen.rs` are `quote!` templates, and the compile-time check relies on the Rust compiler's constant evaluation.
- The proc-macro entry points (`assert_layout/src/lib.rs`, `cuisiner_derive/src/lib.rs:11-31`) only move token streams in and out; they are not modelled.
- Tokenising is not modelled: syn's parsing of the generics strings, `base10_parse`, `parse_nested_meta`'s own parsing, spans and `parse_quote`. Meta items arrive already parsed, integer literals arrive as naturals, and the generics-string parser is the `GenericsParser` parameter.
- syn's own error messages (`require_ident`, `require_name_value`, a missing `=`, a non-identifier, a non-string literal) are modelled with fixed wording that may differ from syn's exact text.
- zerocopy and real memory layout are not modelled: `size_of`, `offset_of`, padding, `read_from_prefix` and `as_bytes`. A raw type is a byte sequence of fixed length, and byte-order wrappers are big- or little-endian encodings.
- The float codecs (`src/implementations/number.rs:61-62`) are not modelled, because floating point is out of scope.
- `src/implementations/number.rs` implements the primitives only for BigEndian and through an older trait shape with a byte-order parameter; only its value semantics are modelled, for either byte order.
- `Primitives.PrimitiveCodec` covers all twelve integer kinds, including u8, i8, usize and isize. `src/implementations/number.rs:63-70` registers only i16 to i128 and u16 to u128; the code that registers the other four, if any, is not part of this model. usize and isize are taken to be 8 bytes wide.
- `ArrayCodec.ArrayTryFromRaw`: `unsafe { mem::zeroed() }` is modelled by Dafny's default-initialised array, so `T` must have a default value.
- The namespaced assertion blocks (`big(...)`, `little(...)`) of the layout tests are not modelled, and the parser at `assert_layout/src/parse.rs` rejects them; the model rejects them the same way. A block inside a field attribute reaches the key match at `assert_layout/src/parse.rs:53-58` and fails with "unknown attribute: big" (or `little`). A block among the container items is a list, not a name-value item, so it fails the `require_name_value` check at `assert_layout/src/parse.rs:73` (`Syn.RequireNameValue`) before any key is looked at. Because fields are processed first, a struct with blocks in both places reports the field error.
- The test declaration files (`assert_layout/tests/simple.rs`, `cuisiner_derive/tests/*.rs`) hold no logic; some of their cases appear as example lemmas.
- LayoutAnalyse.Analyse requires that no lifetime parameter meets a lifetime argument before an earlier error does, because the source panics there (`unimplemented!()`).
- DeriveFields.FromSynFields requires every named field to have a name, because the source panics otherwise (`expect`).
- SqliteHeader.VersionToRaw requires the composed value to fit in u32; the source would panic or wrap on overflow.
- The enum codecs produced by the derive macro (`FileFormatVersion`, `SchemaFormat`, `TextEncoding`) are generated code and are not modelled.

## Findings

| source | as written | input that shows it | evidently intended | confidence | as-written member | corrected member |
|---|---|---|---|---|---|---|
| tests/sqlite-header.rs:111-123 | the PageSize encoder accepts any value in [512, 32768] and has no power-of-two check, although its error message says "must be a power of 2" | 513 encodes to raw 513, which the decoder then rejects | encode only the sizes the decoder accepts: 65536 and powers of two in [512, 32768] | not executed | SqliteHeader.PageSizeAsWrittenAccepts513 | SqliteHeader.PageSizeValueRoundTrip |
