/** The part of syn's abstract syntax that both macro pipelines read: types and paths, generics,
    attributes and meta items, fields, variants and item declarations. Spans, tokens and
    punctuation are not represented; two values are equal when syn's `PartialEq` (which ignores
    spans) would call them equal. */
module Syn {
  import opened Wrappers
  import opened Bytes

  type Ident = string

  /** Literals. Integer literals are kept as the natural number their digits denote. */
  datatype Lit =
    | LitStr(value: string)
    | LitInt(digits: nat)
    | LitByte(byte: Byte)
    | LitOther(text: string)

  /** Expressions: a literal, a path such as `HEADER_SIZE` or `u32`, or any other expression. */
  datatype Expr =
    | ExprLit(lit: Lit)
    | ExprPath(names: seq<Ident>)
    | ExprOther(text: string)

  /** `syn::Type`. Path types are represented exactly; the other forms carry their element types
      so that a rewrite which skips them can be seen to skip them. */
  datatype Type =
    | TypePath(qself: Option<QSelf>, path: Path)
    | TypeArray(elem: Type, len: Expr)
    | TypeReference(lifetime: Option<Ident>, mutable: bool, referent: Type)
    | TypeTuple(elems: seq<Type>)
    | TypeOther(text: string)

  /** The `<ty as Trait>` part of a qualified path: the first `position` segments of the path
      name the trait (position 0 for `<ty>::x`). */
  datatype QSelf = QSelf(ty: Type, position: nat)

  datatype Path = Path(leadingColon: bool, segments: seq<PathSegment>)

  datatype PathSegment = PathSegment(ident: Ident, arguments: PathArguments)

  datatype PathArguments =
    | NoArguments
    | AngleBracketed(args: seq<GenericArgument>)
    | Parenthesized(inputs: seq<Type>, output: Option<Type>)

  datatype GenericArgument =
    | LifetimeArg(lifetime: Ident)
    | TypeArg(ty: Type)
    | ConstArg(expr: Expr)
    | AssocType(name: Ident, assocTy: Type)
    | AssocConst(name: Ident, value: Expr)
    | Constraint(name: Ident, bounds: seq<TypeParamBound>)

  datatype TypeParamBound = TraitBound(path: Path) | LifetimeBound(lifetime: Ident)

  datatype GenericParam =
    | LifetimeParam(lifetime: Ident, outlives: seq<Ident>)
    | TypeParam(ident: Ident, bounds: seq<TypeParamBound>, defaultType: Option<Type>)
    | ConstParam(ident: Ident, ty: Type, defaultValue: Option<Expr>)

  datatype WherePredicate = WherePredicate(boundedTy: Type, bounds: seq<TypeParamBound>)

  datatype Generics = Generics(params: seq<GenericParam>, whereClause: seq<WherePredicate>)

  /** `syn::Meta`: `path`, `path(nested, ...)` or `path = value`. The contents of a list are
      taken as already split into nested meta items. */
  datatype Meta = Meta(path: seq<Ident>, kind: MetaKind)

  datatype MetaKind =
    | MetaPath
    | MetaList(nested: seq<Meta>)
    | MetaNameValue(value: Expr)

  /** An outer attribute `#[meta]`. */
  datatype Attribute = Attribute(meta: Meta)

  datatype Visibility = Public | Crate | Restricted(scope: seq<Ident>) | Inherited

  datatype Field = Field(attrs: seq<Attribute>, vis: Visibility, ident: Option<Ident>, ty: Type)

  datatype Fields =
    | FieldsNamed(named: seq<Field>)
    | FieldsUnnamed(unnamed: seq<Field>)
    | FieldsUnit

  datatype Variant = Variant(attrs: seq<Attribute>, ident: Ident, fields: Fields, discriminant: Option<Expr>)

  datatype ItemStruct = ItemStruct(attrs: seq<Attribute>, vis: Visibility, ident: Ident, generics: Generics, fields: Fields)

  datatype ItemEnum = ItemEnum(attrs: seq<Attribute>, vis: Visibility, ident: Ident, generics: Generics, variants: seq<Variant>)

  datatype Data =
    | DataStruct(fields: Fields)
    | DataEnum(variants: seq<Variant>)
    | DataUnion(unionFields: seq<Field>)

  /** The declaration a derive macro receives. */
  datatype DeriveInput = DeriveInput(attrs: seq<Attribute>, vis: Visibility, ident: Ident, generics: Generics, data: Data)

  /** A field's identity: its name, or its position for a tuple struct. */
  datatype Member = Named(name: Ident) | Unnamed(index: nat)

  /** `syn::Error`, reduced to its message. */
  datatype Error = Error(message: string)

  /** Every field of a declaration, whatever its shape (`Fields::iter`). */
  function FieldList(fields: Fields): seq<Field> {
    match fields
    case FieldsNamed(named) => named
    case FieldsUnnamed(unnamed) => unnamed
    case FieldsUnit => []
  }

  /** The same shape with its fields replaced. */
  function WithFieldList(fields: Fields, list: seq<Field>): (r: Fields)
    requires |list| == |FieldList(fields)|
    ensures FieldList(r) == list
  {
    match fields
    case FieldsNamed(_) => FieldsNamed(list)
    case FieldsUnnamed(_) => FieldsUnnamed(list)
    case FieldsUnit => FieldsUnit
  }

  /** `Path::is_ident`. */
  predicate IsIdent(path: seq<Ident>, name: Ident) {
    path == [name]
  }

  function PathString(path: seq<Ident>): string {
    if path == [] then "" else if |path| == 1 then path[0] else path[0] + "::" + PathString(path[1..])
  }

  /** `Path::require_ident`. */
  function RequireIdent(path: seq<Ident>): (r: Result<Ident, Error>)
    ensures r.Ok? <==> |path| == 1
    ensures r.Ok? ==> r.value == path[0]
  {
    if |path| == 1 then Ok(path[0]) else Err(Error("expected this path to be an identifier"))
  }

  /** `Meta::require_name_value`, keeping the value. */
  function RequireNameValue(meta: Meta): (r: Result<Expr, Error>)
    ensures r.Ok? <==> meta.kind.MetaNameValue?
    ensures r.Ok? ==> r.value == meta.kind.value
  {
    match meta.kind
    case MetaNameValue(value) => Ok(value)
    case MetaPath => Err(Error("expected a value for this attribute: `" + PathString(meta.path) + " = ...`"))
    case MetaList(_) => Err(Error("expected `=`"))
  }

  /** `meta.value()?` inside a nested-meta callback, followed by parsing the value: there must be
      `= value` after the key. */
  function NestedValue(meta: Meta): (r: Result<Expr, Error>)
    ensures r.Ok? <==> meta.kind.MetaNameValue?
    ensures r.Ok? ==> r.value == meta.kind.value
  {
    if meta.kind.MetaNameValue? then Ok(meta.kind.value) else Err(Error("expected `=`"))
  }

  /** The nested items `Attribute::parse_nested_meta` walks: the attribute must be in list form. */
  function AttrNestedMetas(attr: Attribute): (r: Result<seq<Meta>, Error>)
    ensures r.Ok? <==> attr.meta.kind.MetaList?
    ensures r.Ok? ==> r.value == attr.meta.kind.nested
  {
    match attr.meta.kind
    case MetaList(nested) => Ok(nested)
    case MetaPath => Err(Error("expected attribute arguments in parentheses: #[" + PathString(attr.meta.path) + "(...)]"))
    case MetaNameValue(_) => Err(Error("expected parentheses: #[" + PathString(attr.meta.path) + "(...)]"))
  }

  /** Parsing a value as an `Ident`: only a bare identifier is one. */
  function ParseIdent(value: Expr): (r: Result<Ident, Error>)
    ensures r.Ok? <==> value.ExprPath? && |value.names| == 1
    ensures r.Ok? ==> r.value == value.names[0]
  {
    if value.ExprPath? && |value.names| == 1 then Ok(value.names[0]) else Err(Error("expected identifier"))
  }

  /** Parsing a value as a `LitStr`. */
  function ParseLitStr(value: Expr): (r: Result<string, Error>)
    ensures r.Ok? <==> value.ExprLit? && value.lit.LitStr?
    ensures r.Ok? ==> r.value == value.lit.value
  {
    if value.ExprLit? && value.lit.LitStr? then Ok(value.lit.value) else Err(Error("expected string literal"))
  }

  /** A type that is a single identifier, such as the `T` of `<T as Trait>`. */
  function IdentType(ident: Ident): Type {
    TypePath(None, Path(false, [PathSegment(ident, NoArguments)]))
  }

  /** `syn::parse_str::<Punctuated<GenericArgument, Token![,]>>`, a collaborator outside this
      model: it turns the text of a generics string into arguments or reports a parse error. */
  type GenericsParser = string -> Result<seq<GenericArgument>, Error>

  // ---------------------------------------------------------------------------------------
  // Keyed meta items where a later key overwrites an earlier one.

  /** `after` is the value of the last `key = value` item of `metas`, or `before` if there is none. */
  ghost predicate LastWins(metas: seq<Meta>, key: Ident, before: Option<Expr>, after: Option<Expr>) {
    (after == before && forall i :: 0 <= i < |metas| ==> metas[i].path != [key])
    || exists i :: 0 <= i < |metas| && metas[i].path == [key] && metas[i].kind.MetaNameValue?
                   && after == Some(metas[i].kind.value)
                   && forall j :: i < j < |metas| ==> metas[j].path != [key]
  }

  lemma LastWinsStep(metas: seq<Meta>, key: Ident, before: Option<Expr>, next: Option<Expr>, after: Option<Expr>)
    requires metas != []
    requires LastWins(metas[1..], key, next, after)
    requires metas[0].path == [key] ==> metas[0].kind.MetaNameValue? && next == Some(metas[0].kind.value)
    requires metas[0].path != [key] ==> next == before
    ensures LastWins(metas, key, before, after)
  {
    var tail := metas[1..];
    if exists i :: 0 <= i < |tail| && tail[i].path == [key] && tail[i].kind.MetaNameValue?
                   && after == Some(tail[i].kind.value)
                   && forall j :: i < j < |tail| ==> tail[j].path != [key] {
      var i :| 0 <= i < |tail| && tail[i].path == [key] && tail[i].kind.MetaNameValue?
               && after == Some(tail[i].kind.value)
               && forall j :: i < j < |tail| ==> tail[j].path != [key];
      assert metas[i + 1] == tail[i];
      forall j | i + 1 < j < |metas|
        ensures metas[j].path != [key]
      {
        assert metas[j] == tail[j - 1];
      }
    } else {
      assert after == next && forall i :: 0 <= i < |tail| ==> tail[i].path != [key];
      if metas[0].path == [key] {
        forall j | 0 < j < |metas|
          ensures metas[j].path != [key]
        {
          assert metas[j] == tail[j - 1];
        }
      } else {
        forall j | 0 <= j < |metas|
          ensures metas[j].path != [key]
        {
          if j > 0 {
            assert metas[j] == tail[j - 1];
          }
        }
      }
    }
  }

  lemma LastWinsEmpty(key: Ident, value: Option<Expr>)
    ensures LastWins([], key, value, value)
  {
  }
}
