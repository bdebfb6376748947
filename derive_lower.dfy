/** Lowering stage of the codec derive macro: the model gains the crate path, the name of the raw
    struct, its derives and the extra byte-order generic parameter. */
module DeriveLower {
  import opened Wrappers
  import opened Syn
  import opened DeriveFields
  import opened DeriveConfig
  import opened DeriveAnalyse

  function Seg(name: Ident): PathSegment {
    PathSegment(name, NoArguments)
  }

  /** `::cuisiner`. */
  function CrateName(): Path {
    Path(true, [Seg("cuisiner")])
  }

  /** `<crate>::zerocopy::<name>`. */
  function ZerocopyPath(crateName: Path, name: Ident): Path {
    Path(crateName.leadingColon, crateName.segments + [Seg("zerocopy"), Seg(name)])
  }

  const RawPrefix: string := "___Cuisiner"
  const RawSuffix: string := "Raw"
  const ByteOrderIdent: Ident := "___Cuisiner_Generic_B"

  function RawIdent(name: Ident): (raw: Ident)
    ensures |raw| == |RawPrefix| + |name| + |RawSuffix|
    ensures raw[..|RawPrefix|] == RawPrefix && raw[|RawPrefix| + |name|..] == RawSuffix
    ensures raw[|RawPrefix|..|RawPrefix| + |name|] == name
  {
    RawPrefix + name + RawSuffix
  }

  /** Distinct structs get distinct raw structs. */
  lemma RawIdentInjective(a: Ident, b: Ident)
    ensures RawIdent(a) == RawIdent(b) ==> a == b
  {
    if RawIdent(a) == RawIdent(b) {
      assert |a| == |b|;
      assert a == RawIdent(a)[|RawPrefix|..|RawPrefix| + |a|];
    }
  }

  datatype StructGenerics = StructGenerics(base: Generics, raw: Generics, bIdent: Ident, bGeneric: GenericParam)

  /** The raw struct has the base struct's parameters plus `B: <crate>::zerocopy::ByteOrder` last. */
  function NewStructGenerics(base: Generics, crateName: Path): (g: StructGenerics)
    ensures g.base == base
    ensures g.raw.params == base.params + [g.bGeneric] && g.raw.whereClause == base.whereClause
    ensures g.bGeneric == TypeParam(g.bIdent, [TraitBound(ZerocopyPath(crateName, "ByteOrder"))], None)
    ensures g.bIdent == ByteOrderIdent
  {
    var bGeneric := TypeParam(ByteOrderIdent, [TraitBound(ZerocopyPath(crateName, "ByteOrder"))], None);
    StructGenerics(base, base.(params := base.params + [bGeneric]), ByteOrderIdent, bGeneric)
  }

  datatype ItemIr =
    | StructIr(fields: ModelFields, rawIdent: Ident, rawDerives: seq<Path>, assertSize: Option<Expr>, generics: StructGenerics)
    | EnumIr(repr: Repr, variants: seq<(Ident, nat)>)

  datatype Ir = Ir(crateName: Path, baseIdent: Ident, item: ItemIr, visibility: Visibility)

  function RawDerives(crateName: Path): seq<Path> {
    [ZerocopyPath(crateName, "FromBytes"), ZerocopyPath(crateName, "IntoBytes"),
     ZerocopyPath(crateName, "Immutable"), ZerocopyPath(crateName, "Unaligned")]
  }

  /** `::cuisiner::zerocopy::<name>`, written out. */
  function CuisinerZerocopy(name: Ident): Path {
    Path(true, [Seg("cuisiner"), Seg("zerocopy"), Seg(name)])
  }

  lemma ZerocopyOfCrate(name: Ident)
    ensures ZerocopyPath(CrateName(), name) == CuisinerZerocopy(name)
  {
    assert [Seg("cuisiner")] + [Seg("zerocopy"), Seg(name)] == [Seg("cuisiner"), Seg("zerocopy"), Seg(name)];
  }

  /** Lowering never fails; it keeps the name, visibility, fields, size assertion, repr and
      variants and only adds what code generation needs: the crate path, the raw struct's name,
      its four zerocopy derives and the generics with the byte-order parameter. */
  function Lower(model: DeriveModel): (r: Result<Ir, Error>)
    ensures r.Ok?
    ensures r.value.crateName == CrateName() && r.value.baseIdent == model.name && r.value.visibility == model.visibility
    ensures model.item.StructModel? <==> r.value.item.StructIr?
    ensures model.item.StructModel? ==>
              r.value.item.fields == model.item.fields && r.value.item.assertSize == model.item.assertSize
              && r.value.item.rawIdent == RawIdent(model.name)
              && r.value.item.generics.base == model.item.generics
              && r.value.item.generics == NewStructGenerics(model.item.generics, CrateName())
              && r.value.item.generics.raw.params == model.item.generics.params + [r.value.item.generics.bGeneric]
              && r.value.item.rawDerives == [CuisinerZerocopy("FromBytes"), CuisinerZerocopy("IntoBytes"),
                                             CuisinerZerocopy("Immutable"), CuisinerZerocopy("Unaligned")]
    ensures model.item.EnumModel? ==> r.value.item == EnumIr(model.item.repr, model.item.variants)
  {
    var crateName := CrateName();
    ZerocopyOfCrate("FromBytes"); ZerocopyOfCrate("IntoBytes");
    ZerocopyOfCrate("Immutable"); ZerocopyOfCrate("Unaligned");
    var item := match model.item
      case StructModel(fields, assertSize, generics) =>
        StructIr(fields, RawIdent(model.name), RawDerives(crateName), assertSize, NewStructGenerics(generics, crateName))
      case EnumModel(variants, repr) => EnumIr(repr, variants);
    Ok(Ir(crateName, model.name, item, model.visibility))
  }

  /** The model can be read back from its lowering. */
  function Raise(ir: Ir): DeriveModel {
    DeriveModel(ir.baseIdent, ir.visibility,
      match ir.item
      case StructIr(fields, _, _, assertSize, generics) => StructModel(fields, assertSize, generics.base)
      case EnumIr(repr, variants) => EnumModel(variants, repr))
  }

  lemma LowerRaise(model: DeriveModel)
    ensures Raise(Lower(model).value) == model
  {
  }

  /** The unit tests of `lower`. */
  lemma LowerExamples()
    ensures var model := DeriveModel("MyStruct", Inherited,
                                     StructModel(NamedFields([NamedField("a", IdentType("u64"), NoAssertions())]), None, Generics([], [])));
            Lower(model).value.item.rawIdent == "___CuisinerMyStructRaw"
    ensures var model := DeriveModel("MyEnum", Inherited, EnumModel([("First", 1), ("Second", 2), ("Third", 3)], U32));
            Lower(model).value.item.repr == U32 && |Lower(model).value.item.variants| == 3
  {
  }
}
