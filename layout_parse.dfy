/** Attribute parsing of the layout-assertion macro: per-field `#[assert_layout(size = .., offset = ..)]`
    attributes become field assertions and are stripped from the fields; the macro's own
    `size = ..` and `generics = ".."` items set the container size and add substitution lists. */
module LayoutParse {
  import opened Wrappers
  import opened Syn

  datatype FieldAssertion = FieldAssertion(field: Member, ty: Type, size: Option<Expr>, offset: Option<Expr>)

  /** What parsing produces: the item with its own attributes removed, the expected container size,
      one argument list per `generics` item, and the field assertions in order. */
  datatype Ast = Ast(item: ItemStruct, size: Option<Expr>, generics: seq<seq<GenericArgument>>, fieldAssertions: seq<FieldAssertion>)

  /** A field is identified by its name, or by its zero-based position among all fields. */
  function FieldMember(field: Field, index: nat): (m: Member)
    ensures m.Named? <==> field.ident.Some?
    ensures m.Named? ==> m.name == field.ident.value
    ensures m.Unnamed? ==> m.index == index
  {
    if field.ident.Some? then Named(field.ident.value) else Unnamed(index)
  }

  predicate IsOwn(attr: Attribute) {
    IsIdent(attr.meta.path, "assert_layout")
  }

  // ---------------------------------------------------------------------------------------
  // One `#[assert_layout(...)]` attribute.

  /** One key of a field attribute. */
  function ApplyFieldKey(assertion: FieldAssertion, meta: Meta): Result<FieldAssertion, Error> {
    var key :- RequireIdent(meta.path);
    if key == "size" then
      var value :- NestedValue(meta);
      Ok(assertion.(size := Some(value)))
    else if key == "offset" then
      var value :- NestedValue(meta);
      Ok(assertion.(offset := Some(value)))
    else Err(Error("unknown attribute: " + key))
  }

  /** The keys a field attribute accepts: `size = value` and `offset = value`. */
  predicate GoodFieldKey(meta: Meta) {
    |meta.path| == 1 && (meta.path[0] == "size" || meta.path[0] == "offset") && meta.kind.MetaNameValue?
  }

  function ApplyFieldKeys(assertion: FieldAssertion, metas: seq<Meta>): (r: Result<FieldAssertion, Error>)
    ensures r.Ok? ==> r.value.field == assertion.field && r.value.ty == assertion.ty
    decreases |metas|
  {
    if metas == [] then Ok(assertion)
    else
      var next :- ApplyFieldKey(assertion, metas[0]);
      ApplyFieldKeys(next, metas[1..])
  }

  /** The assertion one attribute describes, for the field `member` of type `ty`. */
  function FieldAttrAssertion(member: Member, ty: Type, attr: Attribute): (r: Result<FieldAssertion, Error>)
    ensures r.Ok? ==> r.value.field == member && r.value.ty == ty
  {
    var metas :- AttrNestedMetas(attr);
    ApplyFieldKeys(FieldAssertion(member, ty, None, None), metas)
  }

  method ParseFieldAttr(member: Member, ty: Type, attr: Attribute) returns (r: Result<FieldAssertion, Error>)
    ensures r == FieldAttrAssertion(member, ty, attr)
  {
    var metas := AttrNestedMetas(attr);
    if metas.Err? {
      return Err(metas.error);
    }
    var assertion := FieldAssertion(member, ty, None, None);
    for k := 0 to |metas.value|
      invariant ApplyFieldKeys(FieldAssertion(member, ty, None, None), metas.value)
             == ApplyFieldKeys(assertion, metas.value[k..])
    {
      var meta := metas.value[k];
      assert metas.value[k..][1..] == metas.value[k + 1..];
      var key := RequireIdent(meta.path);
      if key.Err? {
        return Err(key.error);
      }
      if key.value == "size" || key.value == "offset" {
        var value := NestedValue(meta);
        if value.Err? {
          return Err(value.error);
        }
        if key.value == "size" {
          assertion := assertion.(size := Some(value.value));
        } else {
          assertion := assertion.(offset := Some(value.value));
        }
      } else {
        return Err(Error("unknown attribute: " + key.value));
      }
    }
    assert metas.value[|metas.value|..] == [];
    return Ok(assertion);
  }

  // ---------------------------------------------------------------------------------------
  // The attributes of one field, and then all fields.

  datatype FieldResult = FieldResult(attrs: seq<Attribute>, assertions: seq<FieldAssertion>)

  /** Walking a field's attributes: foreign ones are kept, own ones each add one assertion. */
  function ParseFieldAttrs(member: Member, ty: Type, attrs: seq<Attribute>, acc: FieldResult): Result<FieldResult, Error>
    decreases |attrs|
  {
    if attrs == [] then Ok(acc)
    else if !IsOwn(attrs[0]) then ParseFieldAttrs(member, ty, attrs[1..], acc.(attrs := acc.attrs + [attrs[0]]))
    else
      var assertion :- FieldAttrAssertion(member, ty, attrs[0]);
      ParseFieldAttrs(member, ty, attrs[1..], acc.(assertions := acc.assertions + [assertion]))
  }

  /** Walking the fields from position `index`, with the fields already stripped in `done`. */
  function ParseFieldsFrom(fields: seq<Field>, index: nat, done: seq<Field>, found: seq<FieldAssertion>): (r: Result<(seq<Field>, seq<FieldAssertion>), Error>)
    requires index <= |fields|
    ensures r.Ok? ==> |r.value.0| == |done| + |fields| - index
    decreases |fields| - index
  {
    if index == |fields| then Ok((done, found))
    else
      var field := fields[index];
      var parsed :- ParseFieldAttrs(FieldMember(field, index), field.ty, field.attrs, FieldResult([], found));
      ParseFieldsFrom(fields, index + 1, done + [field.(attrs := parsed.attrs)], parsed.assertions)
  }

  // ---------------------------------------------------------------------------------------
  // The macro's own arguments.

  function ApplyContainerMeta(ast: Ast, meta: Meta, parseArgs: GenericsParser): Result<Ast, Error> {
    var value :- RequireNameValue(meta);
    var key :- RequireIdent(meta.path);
    if key == "size" then Ok(ast.(size := Some(value)))
    else if key == "generics" then
      if value.ExprLit? && value.lit.LitStr? then
        var args :- parseArgs(value.lit.value);
        Ok(ast.(generics := ast.generics + [args]))
      else Err(Error("expected generics in string"))
    else Err(Error("unknown attribute: " + key))
  }

  function ApplyContainerMetas(ast: Ast, metas: seq<Meta>, parseArgs: GenericsParser): Result<Ast, Error>
    decreases |metas|
  {
    if metas == [] then Ok(ast)
    else
      var next :- ApplyContainerMeta(ast, metas[0], parseArgs);
      ApplyContainerMetas(next, metas[1..], parseArgs)
  }

  /** `parse`: fields first, then the macro's own arguments. */
  function ParseSpec(metas: seq<Meta>, item: ItemStruct, parseArgs: GenericsParser): Result<Ast, Error> {
    var parsed :- ParseFieldsFrom(FieldList(item.fields), 0, [], []);
    var stripped := item.(fields := WithFieldList(item.fields, parsed.0));
    ApplyContainerMetas(Ast(stripped, None, [], parsed.1), metas, parseArgs)
  }

  /** The parser as the source writes it: a mutable result built field by field and attribute by
      attribute, returning at the first error. */
  method Parse(metas: seq<Meta>, item: ItemStruct, parseArgs: GenericsParser) returns (r: Result<Ast, Error>)
    ensures r == ParseSpec(metas, item, parseArgs)
  {
    var fields := FieldList(item.fields);
    var done: seq<Field> := [];
    var found: seq<FieldAssertion> := [];
    for i := 0 to |fields|
      invariant |done| == i
      invariant ParseFieldsFrom(fields, 0, [], []) == ParseFieldsFrom(fields, i, done, found)
    {
      var field := fields[i];
      var member := FieldMember(field, i);
      var foundBefore := found;
      var kept: seq<Attribute> := [];
      for j := 0 to |field.attrs|
        invariant ParseFieldAttrs(member, field.ty, field.attrs, FieldResult([], foundBefore))
               == ParseFieldAttrs(member, field.ty, field.attrs[j..], FieldResult(kept, found))
      {
        var attr := field.attrs[j];
        assert field.attrs[j..][1..] == field.attrs[j + 1..];
        if !IsOwn(attr) {
          kept := kept + [attr];
        } else {
          var assertion := ParseFieldAttr(member, field.ty, attr);
          if assertion.Err? {
            return Err(assertion.error);
          }
          found := found + [assertion.value];
        }
      }
      assert field.attrs[|field.attrs|..] == [];
      done := done + [field.(attrs := kept)];
    }
    var ast := Ast(item.(fields := WithFieldList(item.fields, done)), None, [], found);
    for k := 0 to |metas|
      invariant ParseSpec(metas, item, parseArgs) == ApplyContainerMetas(ast, metas[k..], parseArgs)
    {
      var meta := metas[k];
      assert metas[k..][1..] == metas[k + 1..];
      var value := RequireNameValue(meta);
      if value.Err? {
        return Err(value.error);
      }
      var key := RequireIdent(meta.path);
      if key.Err? {
        return Err(key.error);
      }
      if key.value == "size" {
        ast := ast.(size := Some(value.value));
      } else if key.value == "generics" {
        if !(value.value.ExprLit? && value.value.lit.LitStr?) {
          return Err(Error("expected generics in string"));
        }
        var args := parseArgs(value.value.lit.value);
        if args.Err? {
          return Err(args.error);
        }
        ast := ast.(generics := ast.generics + [args.value]);
      } else {
        return Err(Error("unknown attribute: " + key.value));
      }
    }
    assert metas[|metas|..] == [];
    return Ok(ast);
  }

  // ---------------------------------------------------------------------------------------
  // What the parser produces, against reference definitions.

  /** The error a rejected field key reports. */
  function FieldKeyError(meta: Meta): Error {
    if |meta.path| != 1 then Error("expected this path to be an identifier")
    else if meta.path[0] != "size" && meta.path[0] != "offset" then Error("unknown attribute: " + meta.path[0])
    else Error("expected `=`")
  }

  /** A field attribute's keys are accepted exactly when each is `size = ..` or `offset = ..`;
      then each slot holds its last value, and otherwise the first bad key's error is reported. */
  lemma {:induction false} ApplyFieldKeysMeaning(assertion: FieldAssertion, metas: seq<Meta>)
    ensures ApplyFieldKeys(assertion, metas).Ok? <==> forall i :: 0 <= i < |metas| ==> GoodFieldKey(metas[i])
    ensures ApplyFieldKeys(assertion, metas).Ok? ==>
              LastWins(metas, "size", assertion.size, ApplyFieldKeys(assertion, metas).value.size)
              && LastWins(metas, "offset", assertion.offset, ApplyFieldKeys(assertion, metas).value.offset)
    ensures ApplyFieldKeys(assertion, metas).Err? ==>
              exists i :: 0 <= i < |metas| && !GoodFieldKey(metas[i]) && (forall j :: 0 <= j < i ==> GoodFieldKey(metas[j]))
                          && ApplyFieldKeys(assertion, metas).error == FieldKeyError(metas[i])
    decreases |metas|
  {
    if metas != [] {
      var r := ApplyFieldKeys(assertion, metas);
      var tail := metas[1..];
      var step := ApplyFieldKey(assertion, metas[0]);
      assert step.Ok? <==> GoodFieldKey(metas[0]);
      if step.Ok? {
        ApplyFieldKeysMeaning(step.value, tail);
        assert r == ApplyFieldKeys(step.value, tail);
        if r.Ok? {
          LastWinsStep(metas, "size", assertion.size, step.value.size, r.value.size);
          LastWinsStep(metas, "offset", assertion.offset, step.value.offset, r.value.offset);
        } else {
          var i :| 0 <= i < |tail| && !GoodFieldKey(tail[i]) && (forall j :: 0 <= j < i ==> GoodFieldKey(tail[j]))
                   && r.error == FieldKeyError(tail[i]);
          assert metas[i + 1] == tail[i];
          forall j | 0 <= j < i + 1
            ensures GoodFieldKey(metas[j])
          {
            if j > 0 {
              assert metas[j] == tail[j - 1];
            }
          }
        }
        if forall i :: 0 <= i < |metas| ==> GoodFieldKey(metas[i]) {
          assert forall i :: 0 <= i < |tail| ==> tail[i] == metas[i + 1];
        }
      } else {
        assert r.error == FieldKeyError(metas[0]);
      }
    }
  }

  /** The non-own attributes, in their original order. */
  function KeptAttrs(attrs: seq<Attribute>): seq<Attribute> {
    if attrs == [] then []
    else if IsOwn(attrs[0]) then KeptAttrs(attrs[1..])
    else [attrs[0]] + KeptAttrs(attrs[1..])
  }

  /** The kept attributes are exactly the foreign ones. */
  lemma {:induction false} KeptAttrsMembers(attrs: seq<Attribute>)
    ensures forall a :: a in KeptAttrs(attrs) <==> a in attrs && !IsOwn(a)
  {
    if attrs != [] {
      KeptAttrsMembers(attrs[1..]);
      assert attrs == [attrs[0]] + attrs[1..];
    }
  }

  /** Every own attribute of `attrs` describes an assertion. */
  predicate OwnAttrsParse(member: Member, ty: Type, attrs: seq<Attribute>) {
    forall i :: 0 <= i < |attrs| && IsOwn(attrs[i]) ==> FieldAttrAssertion(member, ty, attrs[i]).Ok?
  }

  /** One assertion per own attribute, in order. */
  function OwnAssertions(member: Member, ty: Type, attrs: seq<Attribute>): (found: seq<FieldAssertion>)
    requires OwnAttrsParse(member, ty, attrs)
    ensures forall k :: 0 <= k < |found| ==> found[k].field == member && found[k].ty == ty
  {
    if attrs == [] then []
    else
      assert forall i :: 0 <= i < |attrs| - 1 ==> attrs[1..][i] == attrs[i + 1];
      if IsOwn(attrs[0]) then [FieldAttrAssertion(member, ty, attrs[0]).value] + OwnAssertions(member, ty, attrs[1..])
      else OwnAssertions(member, ty, attrs[1..])
  }

  lemma OwnAttrsParseCons(member: Member, ty: Type, attrs: seq<Attribute>)
    requires attrs != []
    ensures OwnAttrsParse(member, ty, attrs) <==>
              (IsOwn(attrs[0]) ==> FieldAttrAssertion(member, ty, attrs[0]).Ok?) && OwnAttrsParse(member, ty, attrs[1..])
  {
    var tail := attrs[1..];
    assert forall i :: 0 <= i < |tail| ==> tail[i] == attrs[i + 1];
    if (IsOwn(attrs[0]) ==> FieldAttrAssertion(member, ty, attrs[0]).Ok?) && OwnAttrsParse(member, ty, tail) {
      forall i | 0 <= i < |attrs| && IsOwn(attrs[i])
        ensures FieldAttrAssertion(member, ty, attrs[i]).Ok?
      {
        if i > 0 {
          assert attrs[i] == tail[i - 1];
        }
      }
    }
  }

  /** A field's attributes parse exactly when each own attribute does; the foreign attributes are
      kept in order and each own attribute adds exactly one assertion, in order. */
  lemma {:induction false} ParseFieldAttrsMeaning(member: Member, ty: Type, attrs: seq<Attribute>, acc: FieldResult)
    ensures ParseFieldAttrs(member, ty, attrs, acc).Ok? <==> OwnAttrsParse(member, ty, attrs)
    ensures ParseFieldAttrs(member, ty, attrs, acc).Ok? ==>
              ParseFieldAttrs(member, ty, attrs, acc).value
              == FieldResult(acc.attrs + KeptAttrs(attrs), acc.assertions + OwnAssertions(member, ty, attrs))
    decreases |attrs|
  {
    if attrs != [] {
      var tail := attrs[1..];
      var r := ParseFieldAttrs(member, ty, attrs, acc);
      OwnAttrsParseCons(member, ty, attrs);
      if !IsOwn(attrs[0]) {
        var acc' := acc.(attrs := acc.attrs + [attrs[0]]);
        assert r == ParseFieldAttrs(member, ty, tail, acc');
        ParseFieldAttrsMeaning(member, ty, tail, acc');
        assert KeptAttrs(attrs) == [attrs[0]] + KeptAttrs(tail);
        assert acc'.attrs + KeptAttrs(tail) == acc.attrs + KeptAttrs(attrs);
        if OwnAttrsParse(member, ty, attrs) {
          assert OwnAssertions(member, ty, attrs) == OwnAssertions(member, ty, tail);
        }
      } else {
        var a := FieldAttrAssertion(member, ty, attrs[0]);
        if a.Ok? {
          var acc' := acc.(assertions := acc.assertions + [a.value]);
          assert r == ParseFieldAttrs(member, ty, tail, acc');
          ParseFieldAttrsMeaning(member, ty, tail, acc');
          assert KeptAttrs(attrs) == KeptAttrs(tail);
          if OwnAttrsParse(member, ty, attrs) {
            assert OwnAssertions(member, ty, attrs) == [a.value] + OwnAssertions(member, ty, tail);
            assert acc'.assertions + OwnAssertions(member, ty, tail) == acc.assertions + OwnAssertions(member, ty, attrs);
          }
        } else {
          assert r.Err?;
        }
      }
    }
  }

  /** A rejected field reports the error of its first own attribute that does not parse. */
  lemma {:induction false} ParseFieldAttrsFirstError(member: Member, ty: Type, attrs: seq<Attribute>, acc: FieldResult)
    requires ParseFieldAttrs(member, ty, attrs, acc).Err?
    ensures exists i :: 0 <= i < |attrs| && IsOwn(attrs[i])
              && FieldAttrAssertion(member, ty, attrs[i]) == Err(ParseFieldAttrs(member, ty, attrs, acc).error)
              && forall j :: 0 <= j < i && IsOwn(attrs[j]) ==> FieldAttrAssertion(member, ty, attrs[j]).Ok?
    decreases |attrs|
  {
    var tail := attrs[1..];
    var r := ParseFieldAttrs(member, ty, attrs, acc);
    var a := FieldAttrAssertion(member, ty, attrs[0]);
    if IsOwn(attrs[0]) && a.Err? {
      assert r.error == a.error;
    } else {
      var acc' := if IsOwn(attrs[0]) then acc.(assertions := acc.assertions + [a.value]) else acc.(attrs := acc.attrs + [attrs[0]]);
      assert r == ParseFieldAttrs(member, ty, tail, acc');
      ParseFieldAttrsFirstError(member, ty, tail, acc');
      var i :| 0 <= i < |tail| && IsOwn(tail[i]) && FieldAttrAssertion(member, ty, tail[i]) == Err(r.error)
               && forall j :: 0 <= j < i && IsOwn(tail[j]) ==> FieldAttrAssertion(member, ty, tail[j]).Ok?;
      assert attrs[i + 1] == tail[i];
      forall j | 0 <= j < i + 1 && IsOwn(attrs[j])
        ensures FieldAttrAssertion(member, ty, attrs[j]).Ok?
      {
        if j > 0 {
          assert attrs[j] == tail[j - 1];
        }
      }
    }
  }

  /** Every field's attributes parse, from position `index` on. */
  predicate FieldsParse(fields: seq<Field>, index: nat) {
    forall i :: index <= i < |fields| ==> OwnAttrsParse(FieldMember(fields[i], i), fields[i].ty, fields[i].attrs)
  }

  /** The fields with their own attributes removed and nothing else changed. */
  function StrippedFields(fields: seq<Field>): (r: seq<Field>)
    ensures |r| == |fields|
    ensures forall i :: 0 <= i < |r| ==> r[i].ident == fields[i].ident && r[i].ty == fields[i].ty && r[i].vis == fields[i].vis
  {
    seq(|fields|, i requires 0 <= i < |fields| => fields[i].(attrs := KeptAttrs(fields[i].attrs)))
  }

  /** The assertions of the fields from position `index` on: field by field, attribute by attribute. */
  function AllAssertions(fields: seq<Field>, index: nat): seq<FieldAssertion>
    requires index <= |fields| && FieldsParse(fields, index)
    decreases |fields| - index
  {
    if index == |fields| then []
    else OwnAssertions(FieldMember(fields[index], index), fields[index].ty, fields[index].attrs) + AllAssertions(fields, index + 1)
  }

  lemma FieldsParseCons(fields: seq<Field>, index: nat)
    requires index < |fields|
    ensures FieldsParse(fields, index) <==>
              OwnAttrsParse(FieldMember(fields[index], index), fields[index].ty, fields[index].attrs) && FieldsParse(fields, index + 1)
  {
  }

  lemma StrippedFieldsCons(fields: seq<Field>, index: nat)
    requires index < |fields|
    ensures StrippedFields(fields[index..]) == [fields[index].(attrs := KeptAttrs(fields[index].attrs))] + StrippedFields(fields[index + 1..])
  {
  }

  /** The fields parse exactly when every field's own attributes do. */
  lemma {:induction false} ParseFieldsSucceeds(fields: seq<Field>, index: nat, done: seq<Field>, found: seq<FieldAssertion>)
    requires index <= |fields|
    ensures ParseFieldsFrom(fields, index, done, found).Ok? <==> FieldsParse(fields, index)
    decreases |fields| - index
  {
    if index < |fields| {
      var field := fields[index];
      var member := FieldMember(field, index);
      var parsed := ParseFieldAttrs(member, field.ty, field.attrs, FieldResult([], found));
      ParseFieldAttrsMeaning(member, field.ty, field.attrs, FieldResult([], found));
      FieldsParseCons(fields, index);
      if parsed.Ok? {
        ParseFieldsSucceeds(fields, index + 1, done + [field.(attrs := parsed.value.attrs)], parsed.value.assertions);
      }
    }
  }

  /** `e` is the error of the first own attribute of `attrs` that does not parse. */
  predicate FirstAttrError(member: Member, ty: Type, attrs: seq<Attribute>, e: Error) {
    exists k :: 0 <= k < |attrs| && IsOwn(attrs[k]) && FieldAttrAssertion(member, ty, attrs[k]) == Err(e)
      && forall j :: 0 <= j < k && IsOwn(attrs[j]) ==> FieldAttrAssertion(member, ty, attrs[j]).Ok?
  }

  /** The fields from `index` up to, not including, `end` all parse. */
  predicate FieldsParseUpTo(fields: seq<Field>, index: nat, end: nat) {
    forall j :: index <= j < end && j < |fields| ==> OwnAttrsParse(FieldMember(fields[j], j), fields[j].ty, fields[j].attrs)
  }

  /** `e` is the error of the first field from `index` on that does not parse, and within it of its
      first own attribute that does not parse. */
  predicate FirstFieldError(fields: seq<Field>, index: nat, e: Error) {
    exists i :: index <= i < |fields| && FieldsParseUpTo(fields, index, i)
      && FirstAttrError(FieldMember(fields[i], i), fields[i].ty, fields[i].attrs, e)
  }

  /** A failing field pass reports the first bad attribute of the first field that has one. */
  lemma {:induction false} ParseFieldsFirstError(fields: seq<Field>, index: nat, done: seq<Field>, found: seq<FieldAssertion>)
    requires index <= |fields|
    requires ParseFieldsFrom(fields, index, done, found).Err?
    ensures FirstFieldError(fields, index, ParseFieldsFrom(fields, index, done, found).error)
    decreases |fields| - index
  {
    var r := ParseFieldsFrom(fields, index, done, found);
    var field := fields[index];
    var member := FieldMember(field, index);
    var parsed := ParseFieldAttrs(member, field.ty, field.attrs, FieldResult([], found));
    if parsed.Err? {
      assert r.error == parsed.error;
      ParseFieldAttrsFirstError(member, field.ty, field.attrs, FieldResult([], found));
      assert FirstAttrError(member, field.ty, field.attrs, r.error);
      assert FieldsParseUpTo(fields, index, index);
    } else {
      ParseFieldAttrsMeaning(member, field.ty, field.attrs, FieldResult([], found));
      var done' := done + [field.(attrs := parsed.value.attrs)];
      assert r == ParseFieldsFrom(fields, index + 1, done', parsed.value.assertions);
      ParseFieldsFirstError(fields, index + 1, done', parsed.value.assertions);
      var i :| index + 1 <= i < |fields| && FieldsParseUpTo(fields, index + 1, i)
               && FirstAttrError(FieldMember(fields[i], i), fields[i].ty, fields[i].attrs, r.error);
      assert FieldsParseUpTo(fields, index, i);
    }
  }

  /** On success every field is stripped of its own attributes, and the assertions come field by
      field. */
  lemma {:induction false} ParseFieldsValue(fields: seq<Field>, index: nat, done: seq<Field>, found: seq<FieldAssertion>)
    requires index <= |fields|
    requires FieldsParse(fields, index)
    ensures ParseFieldsFrom(fields, index, done, found)
            == Ok((done + StrippedFields(fields[index..]), found + AllAssertions(fields, index)))
    decreases |fields| - index
  {
    if index < |fields| {
      var field := fields[index];
      var member := FieldMember(field, index);
      FieldsParseCons(fields, index);
      ParseFieldAttrsMeaning(member, field.ty, field.attrs, FieldResult([], found));
      var kept := KeptAttrs(field.attrs);
      var own := OwnAssertions(member, field.ty, field.attrs);
      assert [] + kept == kept;
      assert ParseFieldAttrs(member, field.ty, field.attrs, FieldResult([], found)) == Ok(FieldResult(kept, found + own));
      var done' := done + [field.(attrs := kept)];
      assert ParseFieldsFrom(fields, index, done, found) == ParseFieldsFrom(fields, index + 1, done', found + own);
      ParseFieldsValue(fields, index + 1, done', found + own);
      var rest := StrippedFields(fields[index + 1..]);
      StrippedFieldsCons(fields, index);
      assert StrippedFields(fields[index..]) == [field.(attrs := kept)] + rest;
      assert done' + rest == done + ([field.(attrs := kept)] + rest);
      var later := AllAssertions(fields, index + 1);
      assert AllAssertions(fields, index) == own + later;
      assert (found + own) + later == found + (own + later);
    } else {
      assert StrippedFields(fields[index..]) == [];
      assert done + [] == done && found + [] == found;
    }
  }

  /** The items the macro accepts: `size = ..`, or `generics = "..."` whose string parses. */
  predicate GoodContainerMeta(meta: Meta, parseArgs: GenericsParser) {
    meta.kind.MetaNameValue? && |meta.path| == 1
    && (meta.path[0] == "size"
        || (meta.path[0] == "generics" && meta.kind.value.ExprLit? && meta.kind.value.lit.LitStr?
            && parseArgs(meta.kind.value.lit.value).Ok?))
  }

  /** The error a rejected macro item reports. */
  function ContainerMetaError(meta: Meta, parseArgs: GenericsParser): Error {
    if !meta.kind.MetaNameValue? then RequireNameValue(meta).error
    else if |meta.path| != 1 then Error("expected this path to be an identifier")
    else if meta.path[0] == "generics" then
      if meta.kind.value.ExprLit? && meta.kind.value.lit.LitStr? then
        var args := parseArgs(meta.kind.value.lit.value);
        if args.Err? then args.error else Error("")
      else Error("expected generics in string")
    else Error("unknown attribute: " + meta.path[0])
  }

  /** One substitution list per `generics` item, in order. */
  function GenericsLists(metas: seq<Meta>, parseArgs: GenericsParser): seq<seq<GenericArgument>>
    requires forall i :: 0 <= i < |metas| ==> GoodContainerMeta(metas[i], parseArgs)
  {
    if metas == [] then []
    else
      assert forall i :: 0 <= i < |metas| - 1 ==> metas[1..][i] == metas[i + 1];
      assert GoodContainerMeta(metas[0], parseArgs);
      if metas[0].path == ["generics"] then [parseArgs(metas[0].kind.value.lit.value).value] + GenericsLists(metas[1..], parseArgs)
      else GenericsLists(metas[1..], parseArgs)
  }

  lemma {:induction false} ApplyContainerMetasMeaning(ast: Ast, metas: seq<Meta>, parseArgs: GenericsParser)
    ensures ApplyContainerMetas(ast, metas, parseArgs).Ok? <==> forall i :: 0 <= i < |metas| ==> GoodContainerMeta(metas[i], parseArgs)
    ensures ApplyContainerMetas(ast, metas, parseArgs).Ok? ==>
              var r := ApplyContainerMetas(ast, metas, parseArgs).value;
              r.item == ast.item && r.fieldAssertions == ast.fieldAssertions
              && r.generics == ast.generics + GenericsLists(metas, parseArgs)
              && LastWins(metas, "size", ast.size, r.size)
    ensures ApplyContainerMetas(ast, metas, parseArgs).Err? ==>
              exists i :: 0 <= i < |metas| && !GoodContainerMeta(metas[i], parseArgs)
                          && (forall j :: 0 <= j < i ==> GoodContainerMeta(metas[j], parseArgs))
                          && ApplyContainerMetas(ast, metas, parseArgs).error == ContainerMetaError(metas[i], parseArgs)
    decreases |metas|
  {
    if metas != [] {
      var r := ApplyContainerMetas(ast, metas, parseArgs);
      var tail := metas[1..];
      assert forall i :: 0 <= i < |tail| ==> tail[i] == metas[i + 1];
      var step := ApplyContainerMeta(ast, metas[0], parseArgs);
      assert step.Ok? <==> GoodContainerMeta(metas[0], parseArgs);
      if step.Ok? {
        ApplyContainerMetasMeaning(step.value, tail, parseArgs);
        if r.Ok? {
          LastWinsStep(metas, "size", ast.size, step.value.size, r.value.size);
          assert step.value.generics + GenericsLists(tail, parseArgs) == ast.generics + GenericsLists(metas, parseArgs);
        } else {
          var i :| 0 <= i < |tail| && !GoodContainerMeta(tail[i], parseArgs)
                   && (forall j :: 0 <= j < i ==> GoodContainerMeta(tail[j], parseArgs))
                   && r.error == ContainerMetaError(tail[i], parseArgs);
          assert metas[i + 1] == tail[i];
          forall j | 0 <= j < i + 1
            ensures GoodContainerMeta(metas[j], parseArgs)
          {
            if j > 0 {
              assert metas[j] == tail[j - 1];
            }
          }
        }
      } else {
        assert r.error == ContainerMetaError(metas[0], parseArgs);
      }
    }
  }

  /** Parsing succeeds exactly when every field attribute and every macro item is accepted. The
      result is the item with only its own attributes removed, the field assertions field by field,
      one substitution list per `generics` item, and the last `size` item as container size. */
  lemma ParseMeaning(metas: seq<Meta>, item: ItemStruct, parseArgs: GenericsParser)
    ensures ParseSpec(metas, item, parseArgs).Ok? <==>
              FieldsParse(FieldList(item.fields), 0) && forall i :: 0 <= i < |metas| ==> GoodContainerMeta(metas[i], parseArgs)
    ensures ParseSpec(metas, item, parseArgs).Ok? ==>
              var fields := FieldList(item.fields);
              var ast := ParseSpec(metas, item, parseArgs).value;
              ast.item == item.(fields := WithFieldList(item.fields, StrippedFields(fields)))
              && ast.fieldAssertions == AllAssertions(fields, 0)
              && ast.generics == GenericsLists(metas, parseArgs)
              && LastWins(metas, "size", None, ast.size)
  {
    var fields := FieldList(item.fields);
    ParseFieldsSucceeds(fields, 0, [], []);
    assert fields[0..] == fields;
    var parsed := ParseFieldsFrom(fields, 0, [], []);
    if parsed.Ok? {
      ParseFieldsValue(fields, 0, [], []);
      var stripped := item.(fields := WithFieldList(item.fields, parsed.value.0));
      ApplyContainerMetasMeaning(Ast(stripped, None, [], parsed.value.1), metas, parseArgs);
    }
  }

  /** Field attributes are processed first: a field error is reported whatever the macro items are. */
  lemma ParseFieldErrorFirst(metas: seq<Meta>, item: ItemStruct, parseArgs: GenericsParser)
    requires !FieldsParse(FieldList(item.fields), 0)
    ensures ParseSpec(metas, item, parseArgs).Err?
    ensures ParseSpec(metas, item, parseArgs) == ParseSpec([], item, parseArgs)
    ensures FirstFieldError(FieldList(item.fields), 0, ParseSpec(metas, item, parseArgs).error)
  {
    ParseFieldsSucceeds(FieldList(item.fields), 0, [], []);
    ParseFieldsFirstError(FieldList(item.fields), 0, [], []);
  }

  /** Without `generics` items there are no substitution lists. */
  lemma ParseWithoutGenerics(metas: seq<Meta>, item: ItemStruct, parseArgs: GenericsParser)
    requires forall i :: 0 <= i < |metas| ==> metas[i].path != ["generics"]
    requires ParseSpec(metas, item, parseArgs).Ok?
    ensures ParseSpec(metas, item, parseArgs).value.generics == []
  {
    ParseMeaning(metas, item, parseArgs);
    NoGenericsLists(metas, parseArgs);
  }

  lemma {:induction false} NoGenericsLists(metas: seq<Meta>, parseArgs: GenericsParser)
    requires forall i :: 0 <= i < |metas| ==> GoodContainerMeta(metas[i], parseArgs) && metas[i].path != ["generics"]
    ensures GenericsLists(metas, parseArgs) == []
  {
    if metas != [] {
      assert forall i :: 0 <= i < |metas| - 1 ==> metas[1..][i] == metas[i + 1];
      NoGenericsLists(metas[1..], parseArgs);
    }
  }
}
