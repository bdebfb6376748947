/** Analysis stage of the codec derive macro: from the accepted item to the model the rest of the
    macro works from. */
module DeriveAnalyse {
  import opened Wrappers
  import opened Syn
  import opened DeriveParse
  import opened DeriveFields
  import opened DeriveConfig

  /** Discriminants are parsed as `usize` of a 64-bit target. */
  const UsizeMax: nat := 0xFFFF_FFFF_FFFF_FFFF

  datatype DeriveModelItem =
    | StructModel(fields: ModelFields, assertSize: Option<Expr>, generics: Generics)
    | EnumModel(variants: seq<(Ident, nat)>, repr: Repr)

  datatype DeriveModel = DeriveModel(name: Ident, visibility: Visibility, item: DeriveModelItem)

  /** The discriminant of one enum variant: a unit variant with an integer literal that fits in
      `usize`, or a byte literal. */
  function Discriminant(variant: Variant): Result<nat, Error> {
    if !variant.fields.FieldsUnit? then Err(Error("enum variants must be unit"))
    else if variant.discriminant.None? || !variant.discriminant.value.ExprLit? then Err(Error("discriminant required"))
    else
      match variant.discriminant.value.lit
      case LitInt(n) => if n <= UsizeMax then Ok(n) else Err(Error("cannot parse discriminant"))
      case LitByte(b) => Ok(b as nat)
      case _ => Err(Error("only int or byte literal discriminants are supported"))
  }

  function Variants(variants: seq<Variant>): Result<seq<(Ident, nat)>, Error> {
    if variants == [] then Ok([])
    else
      var value :- Discriminant(variants[0]);
      var rest :- Variants(variants[1..]);
      Ok([(variants[0].ident, value)] + rest)
  }

  /** What syn guarantees about the input: named fields carry their names. */
  predicate WellFormed(ast: Ast) {
    ast.StructAst? ==> NamedHaveIdents(ast.structItem.fields)
  }

  function Analyse(ast: Ast, parseArgs: GenericsParser): Result<DeriveModel, Error>
    requires WellFormed(ast)
  {
    var config :- ConfigSpec(Attrs(ast), parseArgs);
    match ast
    case StructAst(item) =>
      var fields :- FromSynFields(item.fields);
      Ok(DeriveModel(item.ident, item.vis, StructModel(fields, config.assertSize, item.generics)))
    case EnumAst(item) =>
      if config.repr.None? then Err(Error("'repr = ...' attribute is missing"))
      else
        var variants :- Variants(item.variants);
        Ok(DeriveModel(item.ident, item.vis, EnumModel(variants, config.repr.value)))
  }

  // ---------------------------------------------------------------------------------------
  // Properties.

  /** The discriminants accepted, and their values. */
  predicate AcceptedDiscriminant(variant: Variant) {
    variant.fields.FieldsUnit? && variant.discriminant.Some? && variant.discriminant.value.ExprLit?
    && ((variant.discriminant.value.lit.LitInt? && variant.discriminant.value.lit.digits <= UsizeMax)
        || variant.discriminant.value.lit.LitByte?)
  }

  lemma DiscriminantMeaning(variant: Variant)
    ensures Discriminant(variant).Ok? <==> AcceptedDiscriminant(variant)
    ensures Discriminant(variant).Ok? ==>
              Discriminant(variant).value <= UsizeMax
              && var lit := variant.discriminant.value.lit;
                 Discriminant(variant).value == (if lit.LitInt? then lit.digits else lit.byte as nat)
    ensures !variant.fields.FieldsUnit? ==> Discriminant(variant) == Err(Error("enum variants must be unit"))
  {
  }

  /** The variant list is accepted exactly when every variant is: the names and values in
      declaration order; otherwise the first bad variant's error. */
  lemma {:induction false} VariantsMeaning(variants: seq<Variant>)
    ensures Variants(variants).Ok? <==> forall i :: 0 <= i < |variants| ==> AcceptedDiscriminant(variants[i])
    ensures Variants(variants).Ok? ==>
              |Variants(variants).value| == |variants|
              && forall i :: 0 <= i < |variants| ==>
                   Variants(variants).value[i] == (variants[i].ident, Discriminant(variants[i]).value)
    ensures Variants(variants).Err? ==>
              exists i :: 0 <= i < |variants| && !AcceptedDiscriminant(variants[i])
                          && (forall j :: 0 <= j < i ==> AcceptedDiscriminant(variants[j]))
                          && Variants(variants).error == Discriminant(variants[i]).error
  {
    VariantsOk(variants);
    if Variants(variants).Ok? {
      VariantsValue(variants);
    } else {
      VariantsFirstError(variants);
    }
  }

  lemma AcceptedIsOk(variant: Variant)
    ensures Discriminant(variant).Ok? <==> AcceptedDiscriminant(variant)
  {
    DiscriminantMeaning(variant);
  }

  lemma {:induction false} VariantsOk(variants: seq<Variant>)
    ensures Variants(variants).Ok? <==> forall i :: 0 <= i < |variants| ==> AcceptedDiscriminant(variants[i])
    decreases |variants|
  {
    if variants != [] {
      var tail := variants[1..];
      assert forall i :: 0 <= i < |tail| ==> tail[i] == variants[i + 1];
      AcceptedIsOk(variants[0]);
      VariantsOk(tail);
      if Discriminant(variants[0]).Ok? && Variants(tail).Ok? {
        forall i | 0 <= i < |variants|
          ensures AcceptedDiscriminant(variants[i])
        {
          if i > 0 {
            assert variants[i] == tail[i - 1];
          }
        }
      }
    }
  }

  lemma {:induction false} VariantsValue(variants: seq<Variant>)
    requires Variants(variants).Ok?
    ensures |Variants(variants).value| == |variants|
    ensures forall i :: 0 <= i < |variants| ==>
              Discriminant(variants[i]).Ok? && Variants(variants).value[i] == (variants[i].ident, Discriminant(variants[i]).value)
    decreases |variants|
  {
    if variants != [] {
      var tail := variants[1..];
      var head := (variants[0].ident, Discriminant(variants[0]).value);
      assert Variants(variants).value == [head] + Variants(tail).value;
      VariantsValue(tail);
      forall i | 0 <= i < |variants|
        ensures Discriminant(variants[i]).Ok?
        ensures Variants(variants).value[i] == (variants[i].ident, Discriminant(variants[i]).value)
      {
        if i > 0 {
          assert variants[i] == tail[i - 1];
        }
      }
    }
  }

  lemma VariantsFirstError(variants: seq<Variant>)
    requires Variants(variants).Err?
    ensures exists i :: 0 <= i < |variants| && !AcceptedDiscriminant(variants[i])
              && (forall j :: 0 <= j < i ==> AcceptedDiscriminant(variants[j]))
              && Variants(variants).error == Discriminant(variants[i]).error
  {
    VariantsFirstFailure(variants);
    var i :| 0 <= i < |variants| && Discriminant(variants[i]).Err?
             && (forall j :: 0 <= j < i ==> Discriminant(variants[j]).Ok?)
             && Variants(variants).error == Discriminant(variants[i]).error;
    AcceptedIsOk(variants[i]);
    forall j | 0 <= j < i
      ensures AcceptedDiscriminant(variants[j])
    {
      AcceptedIsOk(variants[j]);
    }
  }

  lemma {:induction false} VariantsFirstFailure(variants: seq<Variant>)
    requires Variants(variants).Err?
    ensures exists i :: 0 <= i < |variants| && Discriminant(variants[i]).Err?
              && (forall j :: 0 <= j < i ==> Discriminant(variants[j]).Ok?)
              && Variants(variants).error == Discriminant(variants[i]).error
    decreases |variants|
  {
    var head := Discriminant(variants[0]);
    var tail := variants[1..];
    if head.Err? {
      assert Variants(variants).error == head.error;
    } else {
      assert Variants(variants) == Err(Variants(tail).error);
      VariantsFirstFailure(tail);
      var i :| 0 <= i < |tail| && Discriminant(tail[i]).Err?
               && (forall j :: 0 <= j < i ==> Discriminant(tail[j]).Ok?)
               && Variants(tail).error == Discriminant(tail[i]).error;
      assert variants[i + 1] == tail[i];
      forall j | 0 <= j < i + 1
        ensures Discriminant(variants[j]).Ok?
      {
        if j > 0 {
          assert variants[j] == tail[j - 1];
        }
      }
    }
  }

  /** The container configuration is checked first: its error is the analysis' error. */
  lemma ConfigErrorFirst(ast: Ast, parseArgs: GenericsParser)
    requires WellFormed(ast)
    ensures ConfigSpec(Attrs(ast), parseArgs).Err? ==> Analyse(ast, parseArgs) == Err(ConfigSpec(Attrs(ast), parseArgs).error)
  {
  }

  /** A struct is accepted exactly when its configuration and its fields are; the model keeps its
      name, visibility and generics, takes `assert_size` from the configuration and ignores
      `repr` and `assert_generics`. */
  lemma AnalyseStruct(item: ItemStruct, parseArgs: GenericsParser)
    requires NamedHaveIdents(item.fields)
    ensures Analyse(StructAst(item), parseArgs).Ok? <==>
              ConfigSpec(item.attrs, parseArgs).Ok? && FromSynFields(item.fields).Ok?
    ensures Analyse(StructAst(item), parseArgs).Ok? ==>
              var model := Analyse(StructAst(item), parseArgs).value;
              model.name == item.ident && model.visibility == item.vis && model.item.StructModel?
              && model.item.fields == FromSynFields(item.fields).value
              && model.item.assertSize == ConfigSpec(item.attrs, parseArgs).value.assertSize
              && model.item.generics == item.generics
  {
  }

  /** An enum needs a `repr` key, checked before any variant; it is then accepted exactly when
      every variant is. */
  lemma AnalyseEnum(item: ItemEnum, parseArgs: GenericsParser)
    ensures var config := ConfigSpec(item.attrs, parseArgs);
            config.Ok? && config.value.repr.None? ==>
              Analyse(EnumAst(item), parseArgs) == Err(Error("'repr = ...' attribute is missing"))
    ensures Analyse(EnumAst(item), parseArgs).Ok? <==>
              ConfigSpec(item.attrs, parseArgs).Ok? && ConfigSpec(item.attrs, parseArgs).value.repr.Some?
              && forall i :: 0 <= i < |item.variants| ==> AcceptedDiscriminant(item.variants[i])
    ensures Analyse(EnumAst(item), parseArgs).Ok? ==>
              var model := Analyse(EnumAst(item), parseArgs).value;
              model.name == item.ident && model.visibility == item.vis && model.item.EnumModel?
              && model.item.repr == ConfigSpec(item.attrs, parseArgs).value.repr.value
              && |model.item.variants| == |item.variants|
              && forall i :: 0 <= i < |item.variants| ==>
                   model.item.variants[i].0 == item.variants[i].ident && model.item.variants[i].1 <= UsizeMax
  {
    VariantsMeaning(item.variants);
    if Variants(item.variants).Ok? {
      forall i | 0 <= i < |item.variants|
        ensures Variants(item.variants).value[i].1 <= UsizeMax
      {
        DiscriminantMeaning(item.variants[i]);
      }
    }
  }

  // ---------------------------------------------------------------------------------------
  // The unit tests of `analyse`.

  function UnitVariant(name: Ident, value: Option<Expr>): Variant {
    Variant([], name, FieldsUnit, value)
  }

  function Cuisiner(nested: seq<Meta>): Attribute {
    Attribute(Meta(["cuisiner"], MetaList(nested)))
  }

  function NoGenerics(): Generics {
    Generics([], [])
  }

  function SizeKey(): Meta {
    Meta(["assert_size"], MetaNameValue(ExprLit(LitInt(5))))
  }

  function ReprKey(): Meta {
    Meta(["repr"], MetaNameValue(ExprPath(["u32"])))
  }

  function OneTuple(): seq<Field> {
    [Field([], Inherited, None, IdentType("u32"))]
  }

  function ThreeVariants(): seq<Variant> {
    [UnitVariant("First", Some(ExprLit(LitInt(1)))), UnitVariant("Second", Some(ExprLit(LitInt(2)))),
     UnitVariant("Third", Some(ExprLit(LitInt(3))))]
  }

  lemma AnalyseStructExamples(parseArgs: GenericsParser)
    ensures Analyse(StructAst(ItemStruct([], Inherited, "MyStruct", NoGenerics(), FieldsUnit)), parseArgs)
         == Ok(DeriveModel("MyStruct", Inherited, StructModel(UnitFields, None, NoGenerics())))
    ensures Analyse(StructAst(ItemStruct([], Inherited, "MyStruct", NoGenerics(), FieldsUnnamed(OneTuple()))), parseArgs)
         == Ok(DeriveModel("MyStruct", Inherited, StructModel(UnnamedFields([UnnamedField(IdentType("u32"), NoAssertions())]), None, NoGenerics())))
    ensures Analyse(StructAst(ItemStruct([Cuisiner([SizeKey()])], Inherited, "MyStruct", NoGenerics(), FieldsUnit)), parseArgs)
         == Ok(DeriveModel("MyStruct", Inherited, StructModel(UnitFields, Some(ExprLit(LitInt(5))), NoGenerics())))
    ensures Analyse(StructAst(ItemStruct([Cuisiner([Meta(["some_attribute"], MetaPath)])], Inherited, "MyStruct", NoGenerics(), FieldsUnit)), parseArgs).Err?
  {
    var size := SizeKey();
    assert CuisinerAttrs([Cuisiner([size])]) == [Cuisiner([size])] by {
      assert [Cuisiner([size])][1..] == [];
    }
    assert ApplyConfigKeys(DefaultConfig(), [size], parseArgs) == Ok(Config(None, Some(ExprLit(LitInt(5))), None)) by {
      assert [size][1..] == [];
    }
    var fields := OneTuple();
    var one := UnnamedField(IdentType("u32"), NoAssertions());
    assert UnnamedFrom(fields) == Ok([one]) by {
      assert fields[1..] == [];
      assert AssertionsFrom(NoAssertions(), fields[0].attrs) == Ok(NoAssertions());
      assert UnnamedFrom(fields[1..]) == Ok([]);
      assert [one] + [] == [one];
    }
  }

  lemma AnalyseEnumExamples(parseArgs: GenericsParser)
    ensures Analyse(EnumAst(ItemEnum([Cuisiner([ReprKey()])], Inherited, "MyEnum", NoGenerics(), ThreeVariants())), parseArgs)
         == Ok(DeriveModel("MyEnum", Inherited, EnumModel([("First", 1), ("Second", 2), ("Third", 3)], U32)))
    ensures Analyse(EnumAst(ItemEnum([], Inherited, "MyEnum", NoGenerics(), ThreeVariants())), parseArgs)
         == Err(Error("'repr = ...' attribute is missing"))
    ensures Analyse(EnumAst(ItemEnum([Cuisiner([ReprKey()])], Inherited, "MyEnum", NoGenerics(),
                                     [UnitVariant("First", Some(ExprLit(LitInt(1)))), UnitVariant("Second", None)])), parseArgs)
         == Err(Error("discriminant required"))
  {
    var key := ReprKey();
    var repr := Cuisiner([key]);
    assert DecodeRepr(ExprPath(["u32"])) == Ok(U32);
    assert CuisinerAttrs([repr]) == [repr] by {
      assert [repr][1..] == [];
    }
    assert ApplyConfigKeys(DefaultConfig(), [key], parseArgs) == Ok(Config(Some(U32), None, None)) by {
      assert [key][1..] == [];
    }
    var variants := ThreeVariants();
    assert Variants(variants) == Ok([("First", 1), ("Second", 2), ("Third", 3)]) by {
      var t1 := variants[1..];
      var t2 := t1[1..];
      assert t2 == [UnitVariant("Third", Some(ExprLit(LitInt(3))))];
      assert t1 == [UnitVariant("Second", Some(ExprLit(LitInt(2))))] + t2;
      assert t2[1..] == [];
      assert Variants(t2[1..]) == Ok([]);
      assert Discriminant(t2[0]) == Ok(3);
      assert [("Third", 3)] + [] == [("Third", 3)];
      assert Variants(t2) == Ok([("Third", 3)]);
      assert Variants(t1) == Ok([("Second", 2)] + [("Third", 3)]);
      assert [("Second", 2)] + [("Third", 3)] == [("Second", 2), ("Third", 3)];
      assert [("First", 1)] + [("Second", 2), ("Third", 3)] == [("First", 1), ("Second", 2), ("Third", 3)];
      assert Discriminant(variants[0]) == Ok(1);
    }
    var twoVariants := [UnitVariant("First", Some(ExprLit(LitInt(1)))), UnitVariant("Second", None)];
    assert Variants(twoVariants) == Err(Error("discriminant required")) by {
      assert twoVariants[1..][0] == UnitVariant("Second", None);
    }
  }
}
