/** Container configuration of the codec derive macro: the single `#[cuisiner(...)]` attribute on a
    struct or enum, with its `repr`, `assert_size` and `assert_generics` keys. */
module DeriveConfig {
  import opened Wrappers
  import opened Syn

  // ---------------------------------------------------------------------------------------
  // `Repr`: the integer type an enum is stored as.

  datatype Repr = U8 | U16 | U32 | U64 | U128 | Usize | I8 | I16 | I32 | I64 | I128 | Isize

  /** The Rust spelling of each representation. */
  function ReprName(repr: Repr): string {
    match repr
    case U8 => "u8"
    case U16 => "u16"
    case U32 => "u32"
    case U64 => "u64"
    case U128 => "u128"
    case Usize => "usize"
    case I8 => "i8"
    case I16 => "i16"
    case I32 => "i32"
    case I64 => "i64"
    case I128 => "i128"
    case Isize => "isize"
  }

  function ReprFrom(name: string): Result<Repr, Error> {
    if name == "u8" then Ok(U8)
    else if name == "u16" then Ok(U16)
    else if name == "u32" then Ok(U32)
    else if name == "u64" then Ok(U64)
    else if name == "u128" then Ok(U128)
    else if name == "usize" then Ok(Usize)
    else if name == "i8" then Ok(I8)
    else if name == "i16" then Ok(I16)
    else if name == "i32" then Ok(I32)
    else if name == "i64" then Ok(I64)
    else if name == "i128" then Ok(I128)
    else if name == "isize" then Ok(Isize)
    else Err(Error("unknown repr: " + name))
  }

  /** Every representation is recognised by its own name. */
  lemma ReprFromName(repr: Repr)
    ensures ReprFrom(ReprName(repr)) == Ok(repr)
  {
  }

  /** A name is recognised exactly when it is the name of a representation, and then names it;
      any other name is reported back in the error. */
  lemma ReprFromMeaning(name: string)
    ensures ReprFrom(name).Ok? <==> exists repr :: ReprName(repr) == name
    ensures ReprFrom(name).Ok? ==> ReprName(ReprFrom(name).value) == name
    ensures ReprFrom(name).Err? ==> ReprFrom(name).error == Error("unknown repr: " + name)
  {
    if ReprFrom(name).Ok? {
      assert ReprName(ReprFrom(name).value) == name;
    } else {
      forall repr: Repr
        ensures ReprName(repr) != name
      {
        ReprFromName(repr);
      }
    }
  }

  lemma ReprNameInjective(a: Repr, b: Repr)
    ensures ReprName(a) == ReprName(b) ==> a == b
  {
    ReprFromName(a);
    ReprFromName(b);
  }

  // ---------------------------------------------------------------------------------------
  // `DeriveConfig::try_from`.

  datatype Config = Config(repr: Option<Repr>, assertSize: Option<Expr>, assertGenerics: Option<seq<GenericArgument>>)

  function DefaultConfig(): Config {
    Config(None, None, None)
  }

  /** `repr = <ident>`. */
  function DecodeRepr(value: Expr): Result<Repr, Error> {
    var name :- ParseIdent(value);
    ReprFrom(name)
  }

  /** `assert_generics = "<generic arguments>"`. */
  function DecodeGenerics(value: Expr, parseArgs: GenericsParser): Result<seq<GenericArgument>, Error> {
    var text :- ParseLitStr(value);
    parseArgs(text)
  }

  function ApplyConfigKey(config: Config, meta: Meta, parseArgs: GenericsParser): Result<Config, Error> {
    if IsIdent(meta.path, "repr") then
      var value :- NestedValue(meta);
      var repr :- DecodeRepr(value);
      Ok(config.(repr := Some(repr)))
    else if IsIdent(meta.path, "assert_size") then
      var value :- NestedValue(meta);
      Ok(config.(assertSize := Some(value)))
    else if IsIdent(meta.path, "assert_generics") then
      var value :- NestedValue(meta);
      var args :- DecodeGenerics(value, parseArgs);
      Ok(config.(assertGenerics := Some(args)))
    else Err(Error("unknown attribute argument"))
  }

  function ApplyConfigKeys(config: Config, metas: seq<Meta>, parseArgs: GenericsParser): Result<Config, Error>
    decreases |metas|
  {
    if metas == [] then Ok(config)
    else
      var next :- ApplyConfigKey(config, metas[0], parseArgs);
      ApplyConfigKeys(next, metas[1..], parseArgs)
  }

  predicate IsCuisiner(attr: Attribute) {
    IsIdent(attr.meta.path, "cuisiner")
  }

  /** The `cuisiner` attributes, in order; all others are not looked at. */
  function CuisinerAttrs(attrs: seq<Attribute>): seq<Attribute> {
    if attrs == [] then []
    else (if IsCuisiner(attrs[0]) then [attrs[0]] else []) + CuisinerAttrs(attrs[1..])
  }

  function ConfigSpec(attrs: seq<Attribute>, parseArgs: GenericsParser): Result<Config, Error> {
    var found := CuisinerAttrs(attrs);
    if found == [] then Ok(DefaultConfig())
    else if |found| > 1 then Err(Error("only a single `cuisiner` attribute is supported"))
    else
      match found[0].meta.kind
      case MetaPath => Ok(DefaultConfig())
      case MetaList(nested) => ApplyConfigKeys(DefaultConfig(), nested, parseArgs)
      case MetaNameValue(_) => Err(Error("attribute must be in list format (eg `#[cuisiner(argument)]`)"))
  }

  /** The source's iterator walk: find the first `cuisiner` attribute, make sure no second one
      follows, then fill a mutable configuration key by key. */
  method DeriveConfigOf(attrs: seq<Attribute>, parseArgs: GenericsParser) returns (r: Result<Config, Error>)
    ensures r == ConfigSpec(attrs, parseArgs)
  {
    var i := 0;
    while i < |attrs| && !IsCuisiner(attrs[i])
      invariant 0 <= i <= |attrs|
      invariant CuisinerAttrs(attrs) == CuisinerAttrs(attrs[i..])
    {
      assert attrs[i..][1..] == attrs[i + 1..];
      i := i + 1;
    }
    if i == |attrs| {
      assert attrs[i..] == [];
      return Ok(DefaultConfig());
    }
    var attr := attrs[i];
    assert attrs[i..][1..] == attrs[i + 1..];
    var k := i + 1;
    while k < |attrs| && !IsCuisiner(attrs[k])
      invariant i + 1 <= k <= |attrs|
      invariant CuisinerAttrs(attrs) == [attr] + CuisinerAttrs(attrs[k..])
    {
      assert attrs[k..][1..] == attrs[k + 1..];
      k := k + 1;
    }
    if k < |attrs| {
      assert attrs[k..][1..] == attrs[k + 1..];
      return Err(Error("only a single `cuisiner` attribute is supported"));
    }
    assert attrs[k..] == [];
    var config := DefaultConfig();
    match attr.meta.kind {
      case MetaPath =>
      case MetaList(nested) =>
        for j := 0 to |nested|
          invariant ApplyConfigKeys(DefaultConfig(), nested, parseArgs) == ApplyConfigKeys(config, nested[j..], parseArgs)
        {
          assert nested[j..][1..] == nested[j + 1..];
          var step := ApplyConfigKey(config, nested[j], parseArgs);
          if step.Err? {
            return Err(step.error);
          }
          config := step.value;
        }
        assert nested[|nested|..] == [];
      case MetaNameValue(_) =>
        return Err(Error("attribute must be in list format (eg `#[cuisiner(argument)]`)"));
    }
    return Ok(config);
  }

  // ---------------------------------------------------------------------------------------
  // What the configuration means.

  /** The last `key = value` among `metas` decodes to `after`; with no such key `after` is `before`. */
  ghost predicate LastDecoded<T>(metas: seq<Meta>, key: Ident, decode: Expr -> Result<T, Error>, before: Option<T>, after: Option<T>) {
    (after == before && forall i :: 0 <= i < |metas| ==> metas[i].path != [key])
    || exists i :: 0 <= i < |metas| && metas[i].path == [key] && metas[i].kind.MetaNameValue?
                   && after.Some? && decode(metas[i].kind.value) == Ok(after.value)
                   && forall j :: i < j < |metas| ==> metas[j].path != [key]
  }

  lemma LastDecodedStep<T>(metas: seq<Meta>, key: Ident, decode: Expr -> Result<T, Error>, before: Option<T>, next: Option<T>, after: Option<T>)
    requires metas != []
    requires LastDecoded(metas[1..], key, decode, next, after)
    requires metas[0].path == [key] ==> metas[0].kind.MetaNameValue? && next.Some? && decode(metas[0].kind.value) == Ok(next.value)
    requires metas[0].path != [key] ==> next == before
    ensures LastDecoded(metas, key, decode, before, after)
  {
    var tail := metas[1..];
    if after == next && forall i :: 0 <= i < |tail| ==> tail[i].path != [key] {
      if metas[0].path == [key] {
        forall j | 0 < j < |metas|
          ensures metas[j].path != [key]
        {
          assert metas[j] == tail[j - 1];
        }
      } else {
        forall i | 0 <= i < |metas|
          ensures metas[i].path != [key]
        {
          if i > 0 {
            assert metas[i] == tail[i - 1];
          }
        }
      }
    } else {
      var i :| 0 <= i < |tail| && tail[i].path == [key] && tail[i].kind.MetaNameValue?
               && after.Some? && decode(tail[i].kind.value) == Ok(after.value)
               && forall j :: i < j < |tail| ==> tail[j].path != [key];
      assert metas[i + 1] == tail[i];
      forall j | i + 1 < j < |metas|
        ensures metas[j].path != [key]
      {
        assert metas[j] == tail[j - 1];
      }
    }
  }

  /** The keys the container attribute accepts, each with a value that decodes. */
  predicate GoodConfigKey(meta: Meta, parseArgs: GenericsParser) {
    meta.kind.MetaNameValue?
    && ((meta.path == ["repr"] && DecodeRepr(meta.kind.value).Ok?)
        || meta.path == ["assert_size"]
        || (meta.path == ["assert_generics"] && DecodeGenerics(meta.kind.value, parseArgs).Ok?))
  }

  /** The error a rejected key reports. */
  function ConfigKeyError(meta: Meta, parseArgs: GenericsParser): Error {
    if meta.path != ["repr"] && meta.path != ["assert_size"] && meta.path != ["assert_generics"] then
      Error("unknown attribute argument")
    else if !meta.kind.MetaNameValue? then Error("expected `=`")
    else if meta.path == ["repr"] then
      var decoded := DecodeRepr(meta.kind.value);
      if decoded.Err? then decoded.error else Error("")
    else
      var decoded := DecodeGenerics(meta.kind.value, parseArgs);
      if decoded.Err? then decoded.error else Error("")
  }

  lemma KeyStep(config: Config, meta: Meta, parseArgs: GenericsParser)
    ensures ApplyConfigKey(config, meta, parseArgs).Ok? <==> GoodConfigKey(meta, parseArgs)
    ensures ApplyConfigKey(config, meta, parseArgs).Err? ==> ApplyConfigKey(config, meta, parseArgs).error == ConfigKeyError(meta, parseArgs)
    ensures ApplyConfigKey(config, meta, parseArgs).Ok? ==>
              var next := ApplyConfigKey(config, meta, parseArgs).value;
              (if meta.path == ["repr"] then next.repr == Some(DecodeRepr(meta.kind.value).value) else next.repr == config.repr)
              && (if meta.path == ["assert_size"] then next.assertSize == Some(meta.kind.value) else next.assertSize == config.assertSize)
              && (if meta.path == ["assert_generics"] then next.assertGenerics == Some(DecodeGenerics(meta.kind.value, parseArgs).value)
                  else next.assertGenerics == config.assertGenerics)
  {
  }

  /** A key list is accepted exactly when every key is good; `assert_size` then holds the last
      value given, `repr` and `assert_generics` the decoding of theirs; otherwise the first bad
      key's error is reported. */
  lemma {:induction false} ApplyConfigKeysMeaning(config: Config, metas: seq<Meta>, parseArgs: GenericsParser)
    ensures ApplyConfigKeys(config, metas, parseArgs).Ok? <==> forall i :: 0 <= i < |metas| ==> GoodConfigKey(metas[i], parseArgs)
    ensures ApplyConfigKeys(config, metas, parseArgs).Ok? ==>
              var after := ApplyConfigKeys(config, metas, parseArgs).value;
              LastDecoded(metas, "repr", DecodeRepr, config.repr, after.repr)
              && LastWins(metas, "assert_size", config.assertSize, after.assertSize)
              && LastDecoded(metas, "assert_generics", e => DecodeGenerics(e, parseArgs), config.assertGenerics, after.assertGenerics)
    ensures ApplyConfigKeys(config, metas, parseArgs).Err? ==>
              exists i :: 0 <= i < |metas| && !GoodConfigKey(metas[i], parseArgs)
                          && (forall j :: 0 <= j < i ==> GoodConfigKey(metas[j], parseArgs))
                          && ApplyConfigKeys(config, metas, parseArgs).error == ConfigKeyError(metas[i], parseArgs)
  {
    ConfigKeysOk(config, metas, parseArgs);
    if ApplyConfigKeys(config, metas, parseArgs).Ok? {
      ConfigKeysLast(config, metas, parseArgs);
    } else {
      ConfigKeysFirstError(config, metas, parseArgs);
    }
  }

  lemma {:induction false} ConfigKeysOk(config: Config, metas: seq<Meta>, parseArgs: GenericsParser)
    ensures ApplyConfigKeys(config, metas, parseArgs).Ok? <==> forall i :: 0 <= i < |metas| ==> GoodConfigKey(metas[i], parseArgs)
    decreases |metas|
  {
    if metas != [] {
      var tail := metas[1..];
      KeyStep(config, metas[0], parseArgs);
      var step := ApplyConfigKey(config, metas[0], parseArgs);
      if step.Ok? {
        assert ApplyConfigKeys(config, metas, parseArgs) == ApplyConfigKeys(step.value, tail, parseArgs);
        ConfigKeysOk(step.value, tail, parseArgs);
        if ApplyConfigKeys(step.value, tail, parseArgs).Ok? {
          forall i | 0 <= i < |metas|
            ensures GoodConfigKey(metas[i], parseArgs)
          {
            if i > 0 {
              assert metas[i] == tail[i - 1];
            }
          }
        } else {
          var i :| 0 <= i < |tail| && !GoodConfigKey(tail[i], parseArgs);
          assert metas[i + 1] == tail[i];
        }
      }
    }
  }

  lemma {:induction false} ConfigKeysLast(config: Config, metas: seq<Meta>, parseArgs: GenericsParser)
    requires ApplyConfigKeys(config, metas, parseArgs).Ok?
    ensures var after := ApplyConfigKeys(config, metas, parseArgs).value;
            LastDecoded(metas, "repr", DecodeRepr, config.repr, after.repr)
            && LastWins(metas, "assert_size", config.assertSize, after.assertSize)
            && LastDecoded(metas, "assert_generics", e => DecodeGenerics(e, parseArgs), config.assertGenerics, after.assertGenerics)
    decreases |metas|
  {
    var after := ApplyConfigKeys(config, metas, parseArgs).value;
    if metas == [] {
      LastWinsEmpty("assert_size", config.assertSize);
    } else {
      var tail := metas[1..];
      KeyStep(config, metas[0], parseArgs);
      var step := ApplyConfigKey(config, metas[0], parseArgs).value;
      assert ApplyConfigKeys(config, metas, parseArgs) == ApplyConfigKeys(step, tail, parseArgs);
      ConfigKeysLast(step, tail, parseArgs);
      LastDecodedStep(metas, "repr", DecodeRepr, config.repr, step.repr, after.repr);
      LastWinsStep(metas, "assert_size", config.assertSize, step.assertSize, after.assertSize);
      LastDecodedStep(metas, "assert_generics", e => DecodeGenerics(e, parseArgs), config.assertGenerics, step.assertGenerics, after.assertGenerics);
    }
  }

  lemma {:induction false} ConfigKeysFirstError(config: Config, metas: seq<Meta>, parseArgs: GenericsParser)
    requires ApplyConfigKeys(config, metas, parseArgs).Err?
    ensures exists i :: 0 <= i < |metas| && !GoodConfigKey(metas[i], parseArgs)
              && (forall j :: 0 <= j < i ==> GoodConfigKey(metas[j], parseArgs))
              && ApplyConfigKeys(config, metas, parseArgs).error == ConfigKeyError(metas[i], parseArgs)
    decreases |metas|
  {
    var tail := metas[1..];
    KeyStep(config, metas[0], parseArgs);
    var step := ApplyConfigKey(config, metas[0], parseArgs);
    if step.Err? {
      assert ApplyConfigKeys(config, metas, parseArgs).error == ConfigKeyError(metas[0], parseArgs);
    } else {
      assert ApplyConfigKeys(config, metas, parseArgs) == ApplyConfigKeys(step.value, tail, parseArgs);
      ConfigKeysFirstError(step.value, tail, parseArgs);
      var i :| 0 <= i < |tail| && !GoodConfigKey(tail[i], parseArgs) && (forall j :: 0 <= j < i ==> GoodConfigKey(tail[j], parseArgs))
               && ApplyConfigKeys(step.value, tail, parseArgs).error == ConfigKeyError(tail[i], parseArgs);
      assert metas[i + 1] == tail[i];
      forall j | 0 <= j < i + 1
        ensures GoodConfigKey(metas[j], parseArgs)
      {
        if j > 0 {
          assert metas[j] == tail[j - 1];
        }
      }
    }
  }

  /** Non-`cuisiner` attributes never change the outcome. */
  lemma {:induction false} CuisinerAttrsIdempotent(attrs: seq<Attribute>)
    ensures CuisinerAttrs(CuisinerAttrs(attrs)) == CuisinerAttrs(attrs)
    ensures forall a :: a in CuisinerAttrs(attrs) <==> a in attrs && IsCuisiner(a)
  {
    if attrs != [] {
      var tail := attrs[1..];
      CuisinerAttrsIdempotent(tail);
      var own := if IsCuisiner(attrs[0]) then [attrs[0]] else [];
      CuisinerAttrsAppend(own, CuisinerAttrs(tail));
      assert CuisinerAttrs(own) == own by {
        if own != [] {
          assert own[1..] == [];
        }
      }
      assert attrs == [attrs[0]] + tail;
    }
  }

  lemma {:induction false} CuisinerAttrsAppend(a: seq<Attribute>, b: seq<Attribute>)
    ensures CuisinerAttrs(a + b) == CuisinerAttrs(a) + CuisinerAttrs(b)
  {
    if a == [] {
      assert a + b == b;
    } else {
      var head := if IsCuisiner(a[0]) then [a[0]] else [];
      assert (a + b)[0] == a[0];
      assert (a + b)[1..] == a[1..] + b;
      assert CuisinerAttrs(a + b) == head + CuisinerAttrs(a[1..] + b);
      CuisinerAttrsAppend(a[1..], b);
      assert CuisinerAttrs(a) == head + CuisinerAttrs(a[1..]);
      assert head + (CuisinerAttrs(a[1..]) + CuisinerAttrs(b)) == (head + CuisinerAttrs(a[1..])) + CuisinerAttrs(b);
    }
  }

  lemma IgnoresOtherAttributes(attrs: seq<Attribute>, parseArgs: GenericsParser)
    ensures ConfigSpec(attrs, parseArgs) == ConfigSpec(CuisinerAttrs(attrs), parseArgs)
  {
    CuisinerAttrsIdempotent(attrs);
  }

  /** The whole container check: accepted exactly when there is no `cuisiner` attribute, or one
      that is a bare path, or one list of good keys; the configuration is then the default updated
      by those keys, last one winning. */
  lemma ConfigMeaning(attrs: seq<Attribute>, parseArgs: GenericsParser)
    ensures var found := CuisinerAttrs(attrs);
            ConfigSpec(attrs, parseArgs).Ok? <==>
              found == []
              || (|found| == 1 && (found[0].meta.kind.MetaPath?
                                   || (found[0].meta.kind.MetaList?
                                       && forall i :: 0 <= i < |found[0].meta.kind.nested| ==> GoodConfigKey(found[0].meta.kind.nested[i], parseArgs))))
    ensures var found := CuisinerAttrs(attrs);
            ConfigSpec(attrs, parseArgs).Ok? && |found| == 1 && found[0].meta.kind.MetaList? ==>
              var nested := found[0].meta.kind.nested;
              var config := ConfigSpec(attrs, parseArgs).value;
              LastDecoded(nested, "repr", DecodeRepr, None, config.repr)
              && LastWins(nested, "assert_size", None, config.assertSize)
              && LastDecoded(nested, "assert_generics", e => DecodeGenerics(e, parseArgs), None, config.assertGenerics)
    ensures CuisinerAttrs(attrs) == [] || (|CuisinerAttrs(attrs)| == 1 && CuisinerAttrs(attrs)[0].meta.kind.MetaPath?) ==>
              ConfigSpec(attrs, parseArgs) == Ok(DefaultConfig())
  {
    var found := CuisinerAttrs(attrs);
    if |found| == 1 && found[0].meta.kind.MetaList? {
      ApplyConfigKeysMeaning(DefaultConfig(), found[0].meta.kind.nested, parseArgs);
    }
  }

  // ---------------------------------------------------------------------------------------
  // The unit tests of `DeriveConfig::try_from`.

  function Attr(path: Ident, kind: MetaKind): Attribute {
    Attribute(Meta([path], kind))
  }

  function Key(key: Ident, value: Expr): Meta {
    Meta([key], MetaNameValue(value))
  }

  lemma ConfigDefaultExamples(parseArgs: GenericsParser)
    ensures ConfigSpec([], parseArgs) == Ok(DefaultConfig())
    ensures ConfigSpec([Attr("cuisiner", MetaPath)], parseArgs) == Ok(DefaultConfig())
    ensures ConfigSpec([Attr("cuisiner", MetaList([]))], parseArgs) == Ok(DefaultConfig())
    ensures ConfigSpec([Attr("repr", MetaList([Meta(["C"], MetaPath)])), Attr("some", MetaNameValue(ExprPath(["attribute"])))], parseArgs)
         == Ok(DefaultConfig())
  {
  }

  lemma ConfigReprExample(parseArgs: GenericsParser)
    ensures ConfigSpec([Attr("cuisiner", MetaList([Key("repr", ExprPath(["i64"]))]))], parseArgs)
         == Ok(Config(Some(I64), None, None))
  {
  }

  lemma ConfigGenericsExample(parseArgs: GenericsParser)
    requires parseArgs("SomeType").Ok?
    ensures ConfigSpec([Attr("cuisiner", MetaList([Key("assert_generics", ExprLit(LitStr("SomeType")))]))], parseArgs)
         == Ok(Config(None, None, Some(parseArgs("SomeType").value)))
  {
  }

  lemma ConfigErrorExamples(parseArgs: GenericsParser)
    ensures ConfigSpec([Attr("cuisiner", MetaPath), Attr("cuisiner", MetaList([Meta(["another_attribute"], MetaPath)]))], parseArgs)
         == Err(Error("only a single `cuisiner` attribute is supported"))
    ensures ConfigSpec([Attr("cuisiner", MetaList([Meta(["another_attribute"], MetaPath)]))], parseArgs)
         == Err(Error("unknown attribute argument"))
    ensures ConfigSpec([Attr("cuisiner", MetaList([Key("repr", ExprPath(["f32"]))]))], parseArgs)
         == Err(Error("unknown repr: f32"))
  {
    var two := [Attr("cuisiner", MetaPath), Attr("cuisiner", MetaList([Meta(["another_attribute"], MetaPath)]))];
    assert CuisinerAttrs(two) == two by {
      assert two[1..][1..] == [];
    }
    assert "unknown repr: " + "f32" == "unknown repr: f32";
    assert DecodeRepr(ExprPath(["f32"])) == Err(Error("unknown repr: f32"));
  }
}
