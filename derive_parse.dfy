/** Shape dispatch of the codec derive macro: a struct or an enum is accepted, a union rejected. */
module DeriveParse {
  import opened Wrappers
  import opened Syn

  datatype Ast = StructAst(structItem: ItemStruct) | EnumAst(enumItem: ItemEnum)

  /** `parse`: the declaration's parts move into the matching item unchanged. */
  function Parse(input: DeriveInput): (r: Result<Ast, Error>)
    ensures r.Err? <==> input.data.DataUnion?
    ensures r.Err? ==> r.error == Error("`union` is not supported")
    ensures r.Ok? ==> Attrs(r.value) == input.attrs
  {
    match input.data
    case DataStruct(fields) => Ok(StructAst(ItemStruct(input.attrs, input.vis, input.ident, input.generics, fields)))
    case DataEnum(variants) => Ok(EnumAst(ItemEnum(input.attrs, input.vis, input.ident, input.generics, variants)))
    case DataUnion(_) => Err(Error("`union` is not supported"))
  }

  /** `Ast::attrs`: the attributes of whichever item is held. */
  function Attrs(ast: Ast): seq<Attribute> {
    match ast
    case StructAst(item) => item.attrs
    case EnumAst(item) => item.attrs
  }

  /** The declaration an item came from. */
  function Unparse(ast: Ast): (input: DeriveInput)
    ensures !input.data.DataUnion?
  {
    match ast
    case StructAst(item) => DeriveInput(item.attrs, item.vis, item.ident, item.generics, DataStruct(item.fields))
    case EnumAst(item) => DeriveInput(item.attrs, item.vis, item.ident, item.generics, DataEnum(item.variants))
  }

  /** Nothing of a struct or enum is lost or changed: parsing and unparsing are inverse. */
  lemma ParseUnparse(ast: Ast)
    ensures Parse(Unparse(ast)) == Ok(ast)
  {
  }

  lemma UnparseParse(input: DeriveInput)
    requires !input.data.DataUnion?
    ensures Parse(input).Ok? && Unparse(Parse(input).value) == input
  {
  }

  /** A struct becomes a struct and an enum an enum, whatever its variants hold. */
  lemma ParseKeepsShape(input: DeriveInput)
    ensures input.data.DataStruct? ==>
              Parse(input).Ok? && Parse(input).value.StructAst? && Parse(input).value.structItem.fields == input.data.fields
    ensures input.data.DataEnum? ==>
              Parse(input).Ok? && Parse(input).value.EnumAst? && Parse(input).value.enumItem.variants == input.data.variants
  {
  }
}
