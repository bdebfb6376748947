/** Field extraction of the codec derive macro: each field's type and the `#[cuisiner(size = ..,
    offset = ..)]` assertions attached to it, keeping the declaration's shape. */
module DeriveFields {
  import opened Wrappers
  import opened Syn

  datatype FieldAssertions = FieldAssertions(size: Option<Expr>, offset: Option<Expr>)

  function NoAssertions(): FieldAssertions {
    FieldAssertions(None, None)
  }

  // ---------------------------------------------------------------------------------------
  // `FieldAssertions::try_from`.

  /** One key inside a field's `cuisiner(...)` list. */
  function ApplyKey(assertions: FieldAssertions, meta: Meta): Result<FieldAssertions, Error> {
    if IsIdent(meta.path, "size") then
      var value :- NestedValue(meta);
      Ok(assertions.(size := Some(value)))
    else if IsIdent(meta.path, "offset") then
      var value :- NestedValue(meta);
      Ok(assertions.(offset := Some(value)))
    else Err(Error("unknown attribute"))
  }

  function ApplyKeys(assertions: FieldAssertions, metas: seq<Meta>): Result<FieldAssertions, Error>
    decreases |metas|
  {
    if metas == [] then Ok(assertions)
    else
      var next :- ApplyKey(assertions, metas[0]);
      ApplyKeys(next, metas[1..])
  }

  /** Only `cuisiner` attributes in list form are read; every other attribute is skipped. */
  predicate Relevant(attr: Attribute) {
    IsIdent(attr.meta.path, "cuisiner") && attr.meta.kind.MetaList?
  }

  function AssertionsFrom(assertions: FieldAssertions, attrs: seq<Attribute>): Result<FieldAssertions, Error>
    decreases |attrs|
  {
    if attrs == [] then Ok(assertions)
    else if !Relevant(attrs[0]) then AssertionsFrom(assertions, attrs[1..])
    else
      var next :- ApplyKeys(assertions, attrs[0].meta.kind.nested);
      AssertionsFrom(next, attrs[1..])
  }

  /** The loop of the source: a mutable record updated key by key, attribute by attribute. */
  method FieldAssertionsOf(attrs: seq<Attribute>) returns (r: Result<FieldAssertions, Error>)
    ensures r == AssertionsFrom(NoAssertions(), attrs)
  {
    var assertions := NoAssertions();
    for i := 0 to |attrs|
      invariant AssertionsFrom(NoAssertions(), attrs) == AssertionsFrom(assertions, attrs[i..])
    {
      var attr := attrs[i];
      assert attrs[i..][1..] == attrs[i + 1..];
      if Relevant(attr) {
        var nested := attr.meta.kind.nested;
        var before := assertions;
        for k := 0 to |nested|
          invariant ApplyKeys(before, nested) == ApplyKeys(assertions, nested[k..])
        {
          var meta := nested[k];
          assert nested[k..][1..] == nested[k + 1..];
          if IsIdent(meta.path, "size") || IsIdent(meta.path, "offset") {
            var value := NestedValue(meta);
            if value.Err? {
              return Err(value.error);
            }
            if IsIdent(meta.path, "size") {
              assertions := assertions.(size := Some(value.value));
            } else {
              assertions := assertions.(offset := Some(value.value));
            }
          } else {
            return Err(Error("unknown attribute"));
          }
        }
        assert nested[|nested|..] == [];
      }
    }
    assert attrs[|attrs|..] == [];
    return Ok(assertions);
  }

  /** The keys a field accepts: `size = ..` and `offset = ..`. */
  predicate GoodKey(meta: Meta) {
    (meta.path == ["size"] || meta.path == ["offset"]) && meta.kind.MetaNameValue?
  }

  /** The key items of all relevant attributes, in order. */
  function RelevantMetas(attrs: seq<Attribute>): seq<Meta> {
    if attrs == [] then []
    else (if Relevant(attrs[0]) then attrs[0].meta.kind.nested else []) + RelevantMetas(attrs[1..])
  }

  lemma {:induction false} ApplyKeysAppend(assertions: FieldAssertions, m1: seq<Meta>, m2: seq<Meta>)
    ensures ApplyKeys(assertions, m1 + m2)
         == (var first := ApplyKeys(assertions, m1); if first.Err? then first else ApplyKeys(first.value, m2))
    decreases |m1|
  {
    if m1 == [] {
      assert m1 + m2 == m2;
    } else {
      assert (m1 + m2)[0] == m1[0];
      assert (m1 + m2)[1..] == m1[1..] + m2;
      var step := ApplyKey(assertions, m1[0]);
      if step.Ok? {
        ApplyKeysAppend(step.value, m1[1..], m2);
      }
    }
  }

  /** Skipping and walking the attributes one by one is the same as walking all their keys at once. */
  lemma {:induction false} AssertionsFromFlat(assertions: FieldAssertions, attrs: seq<Attribute>)
    ensures AssertionsFrom(assertions, attrs) == ApplyKeys(assertions, RelevantMetas(attrs))
    decreases |attrs|
  {
    if attrs != [] {
      var own := if Relevant(attrs[0]) then attrs[0].meta.kind.nested else [];
      ApplyKeysAppend(assertions, own, RelevantMetas(attrs[1..]));
      var first := ApplyKeys(assertions, own);
      if first.Ok? {
        AssertionsFromFlat(first.value, attrs[1..]);
      }
    }
  }

  /** The error a rejected key reports. */
  function KeyError(meta: Meta): Error {
    if meta.path == ["size"] || meta.path == ["offset"] then Error("expected `=`") else Error("unknown attribute")
  }

  lemma {:induction false} ApplyKeysMeaning(assertions: FieldAssertions, metas: seq<Meta>)
    ensures ApplyKeys(assertions, metas).Ok? <==> forall i :: 0 <= i < |metas| ==> GoodKey(metas[i])
    ensures ApplyKeys(assertions, metas).Ok? ==>
              LastWins(metas, "size", assertions.size, ApplyKeys(assertions, metas).value.size)
              && LastWins(metas, "offset", assertions.offset, ApplyKeys(assertions, metas).value.offset)
    ensures ApplyKeys(assertions, metas).Err? ==>
              exists i :: 0 <= i < |metas| && !GoodKey(metas[i]) && (forall j :: 0 <= j < i ==> GoodKey(metas[j]))
                          && ApplyKeys(assertions, metas).error == KeyError(metas[i])
    decreases |metas|
  {
    if metas != [] {
      var r := ApplyKeys(assertions, metas);
      var tail := metas[1..];
      assert forall i :: 0 <= i < |tail| ==> tail[i] == metas[i + 1];
      var step := ApplyKey(assertions, metas[0]);
      assert step.Ok? <==> GoodKey(metas[0]);
      if step.Ok? {
        ApplyKeysMeaning(step.value, tail);
        if r.Ok? {
          LastWinsStep(metas, "size", assertions.size, step.value.size, r.value.size);
          LastWinsStep(metas, "offset", assertions.offset, step.value.offset, r.value.offset);
        } else {
          var i :| 0 <= i < |tail| && !GoodKey(tail[i]) && (forall j :: 0 <= j < i ==> GoodKey(tail[j]))
                   && r.error == KeyError(tail[i]);
          assert metas[i + 1] == tail[i];
          forall j | 0 <= j < i + 1
            ensures GoodKey(metas[j])
          {
            if j > 0 {
              assert metas[j] == tail[j - 1];
            }
          }
        }
      } else {
        assert r.error == KeyError(metas[0]);
      }
    }
  }

  /** A field's assertions: accepted exactly when every key of every `cuisiner(...)` list is `size`
      or `offset` with a value; each then holds its last value across all those lists, and other
      attributes, and `cuisiner` attributes not in list form, change nothing. */
  lemma FieldAssertionsMeaning(attrs: seq<Attribute>)
    ensures var metas := RelevantMetas(attrs);
            var r := AssertionsFrom(NoAssertions(), attrs);
            (r.Ok? <==> forall i :: 0 <= i < |metas| ==> GoodKey(metas[i]))
            && (r.Ok? ==> LastWins(metas, "size", None, r.value.size) && LastWins(metas, "offset", None, r.value.offset))
            && (r.Err? ==> exists i :: 0 <= i < |metas| && !GoodKey(metas[i]) && r.error == KeyError(metas[i]))
  {
    AssertionsFromFlat(NoAssertions(), attrs);
    ApplyKeysMeaning(NoAssertions(), RelevantMetas(attrs));
  }

  // ---------------------------------------------------------------------------------------
  // `Fields::try_from`.

  datatype NamedField = NamedField(ident: Ident, ty: Type, assertions: FieldAssertions)
  datatype UnnamedField = UnnamedField(ty: Type, assertions: FieldAssertions)

  datatype ModelFields =
    | NamedFields(named: seq<NamedField>)
    | UnnamedFields(unnamed: seq<UnnamedField>)
    | UnitFields

  /** syn only builds named fields that carry their names; the source relies on it with `expect`. */
  predicate NamedHaveIdents(fields: Fields) {
    fields.FieldsNamed? ==> forall i :: 0 <= i < |fields.named| ==> fields.named[i].ident.Some?
  }

  function NamedFrom(fields: seq<Field>): Result<seq<NamedField>, Error>
    requires forall i :: 0 <= i < |fields| ==> fields[i].ident.Some?
  {
    if fields == [] then Ok([])
    else
      var assertions :- AssertionsFrom(NoAssertions(), fields[0].attrs);
      var rest :- NamedFrom(fields[1..]);
      Ok([NamedField(fields[0].ident.value, fields[0].ty, assertions)] + rest)
  }

  function UnnamedFrom(fields: seq<Field>): Result<seq<UnnamedField>, Error> {
    if fields == [] then Ok([])
    else
      var assertions :- AssertionsFrom(NoAssertions(), fields[0].attrs);
      var rest :- UnnamedFrom(fields[1..]);
      Ok([UnnamedField(fields[0].ty, assertions)] + rest)
  }

  function FromSynFields(fields: Fields): Result<ModelFields, Error>
    requires NamedHaveIdents(fields)
  {
    match fields
    case FieldsNamed(named) =>
      var list :- NamedFrom(named);
      Ok(NamedFields(list))
    case FieldsUnnamed(unnamed) =>
      var list :- UnnamedFrom(unnamed);
      Ok(UnnamedFields(list))
    case FieldsUnit => Ok(UnitFields)
  }

  /** Every field's assertions parse. */
  predicate AllAssertionsParse(fields: seq<Field>) {
    forall i :: 0 <= i < |fields| ==> AssertionsFrom(NoAssertions(), fields[i].attrs).Ok?
  }

  lemma {:induction false} NamedFromMeaning(fields: seq<Field>)
    requires forall i :: 0 <= i < |fields| ==> fields[i].ident.Some?
    ensures NamedFrom(fields).Ok? <==> AllAssertionsParse(fields)
    ensures NamedFrom(fields).Ok? ==>
              |NamedFrom(fields).value| == |fields|
              && forall i :: 0 <= i < |fields| ==>
                   NamedFrom(fields).value[i] == NamedField(fields[i].ident.value, fields[i].ty, AssertionsFrom(NoAssertions(), fields[i].attrs).value)
  {
    if fields != [] {
      var tail := fields[1..];
      assert forall i :: 0 <= i < |tail| ==> tail[i] == fields[i + 1];
      NamedFromMeaning(tail);
    }
  }

  lemma {:induction false} UnnamedFromMeaning(fields: seq<Field>)
    ensures UnnamedFrom(fields).Ok? <==> AllAssertionsParse(fields)
    ensures UnnamedFrom(fields).Ok? ==>
              |UnnamedFrom(fields).value| == |fields|
              && forall i :: 0 <= i < |fields| ==>
                   UnnamedFrom(fields).value[i] == UnnamedField(fields[i].ty, AssertionsFrom(NoAssertions(), fields[i].attrs).value)
  {
    if fields != [] {
      var tail := fields[1..];
      assert forall i :: 0 <= i < |tail| ==> tail[i] == fields[i + 1];
      UnnamedFromMeaning(tail);
    }
  }

  /** The shape is kept; conversion succeeds exactly when every field's assertions parse, and then
      keeps the field count, order, names and types. */
  lemma FromSynFieldsMeaning(fields: Fields)
    requires NamedHaveIdents(fields)
    ensures FromSynFields(fields).Ok? <==> AllAssertionsParse(FieldList(fields))
    ensures FromSynFields(fields).Ok? ==>
              (fields.FieldsNamed? <==> FromSynFields(fields).value.NamedFields?)
              && (fields.FieldsUnnamed? <==> FromSynFields(fields).value.UnnamedFields?)
              && (fields.FieldsUnit? <==> FromSynFields(fields).value.UnitFields?)
    ensures FromSynFields(fields).Ok? && fields.FieldsNamed? ==>
              var list := FromSynFields(fields).value.named;
              |list| == |fields.named| && forall i :: 0 <= i < |list| ==> list[i].ident == fields.named[i].ident.value && list[i].ty == fields.named[i].ty
    ensures FromSynFields(fields).Ok? && fields.FieldsUnnamed? ==>
              var list := FromSynFields(fields).value.unnamed;
              |list| == |fields.unnamed| && forall i :: 0 <= i < |list| ==> list[i].ty == fields.unnamed[i].ty
  {
    match fields
    case FieldsNamed(named) => NamedFromMeaning(named);
    case FieldsUnnamed(unnamed) => UnnamedFromMeaning(unnamed);
    case FieldsUnit =>
  }
}
