/** Lowering of the layout-assertion macro: each binding becomes a `type` or `const` item and each
    assertion a boolean fact `size_of::<T>() == size` or `offset_of!(C, f) == offset`. */
module LayoutLower {
  import opened Wrappers
  import opened Syn
  import opened LayoutAnalyse

  /** `type ident = ty;` or `const ident: ty = expr;`. */
  datatype Item =
    | TypeAlias(ident: Ident, ty: Type)
    | ConstDecl(ident: Ident, ty: Type, expr: Expr)

  /** `::core::mem::size_of::<ty>() == size` or `::core::mem::offset_of!(container, field) == offset`. */
  datatype Fact =
    | SizeOfEq(ty: Type, size: Expr)
    | OffsetOfEq(container: Type, field: Member, offset: Expr)

  datatype FactSet = FactSet(items: seq<Item>, facts: seq<Fact>)

  datatype Ir = Ir(item: ItemStruct, assertions: seq<FactSet>)

  function LowerItem(item: AssertionItem): Item {
    match item
    case TypeItem(ident, ty) => TypeAlias(ident, ty)
    case ConstItem(ident, ty, expr) => ConstDecl(ident, ty, expr)
  }

  function LowerAssertion(assertion: Assertion): Fact {
    match assertion
    case Size(ty, size) => SizeOfEq(ty, size)
    case Offset(container, field, offset) => OffsetOfEq(container, field, offset)
  }

  function LowerSet(group: AssertionSet): FactSet {
    FactSet(seq(|group.items|, i requires 0 <= i < |group.items| => LowerItem(group.items[i])),
            seq(|group.assertions|, i requires 0 <= i < |group.assertions| => LowerAssertion(group.assertions[i])))
  }

  /** `lower`: never fails, keeps the item, and maps every set, binding and assertion in order. */
  function Lower(model: LayoutModel): (r: Result<Ir, Error>)
    ensures r.Ok? && r.value.item == model.item
    ensures |r.value.assertions| == |model.assertions|
    ensures forall i :: 0 <= i < |model.assertions| ==>
              |r.value.assertions[i].items| == |model.assertions[i].items|
              && |r.value.assertions[i].facts| == |model.assertions[i].assertions|
  {
    Ok(Ir(model.item, seq(|model.assertions|, i requires 0 <= i < |model.assertions| => LowerSet(model.assertions[i]))))
  }

  // ---------------------------------------------------------------------------------------
  // Lowering loses nothing: reading the facts back gives the model.

  function RaiseItem(item: Item): AssertionItem {
    match item
    case TypeAlias(ident, ty) => TypeItem(ident, ty)
    case ConstDecl(ident, ty, expr) => ConstItem(ident, ty, expr)
  }

  function RaiseFact(fact: Fact): Assertion {
    match fact
    case SizeOfEq(ty, size) => Size(ty, size)
    case OffsetOfEq(container, field, offset) => Offset(container, field, offset)
  }

  function RaiseSet(group: FactSet): AssertionSet {
    AssertionSet(seq(|group.items|, i requires 0 <= i < |group.items| => RaiseItem(group.items[i])),
                 seq(|group.facts|, i requires 0 <= i < |group.facts| => RaiseFact(group.facts[i])))
  }

  function Raise(ir: Ir): LayoutModel {
    LayoutModel(ir.item, seq(|ir.assertions|, i requires 0 <= i < |ir.assertions| => RaiseSet(ir.assertions[i])))
  }

  lemma LowerSetRoundTrip(group: AssertionSet)
    ensures RaiseSet(LowerSet(group)) == group
  {
    var lowered := LowerSet(group);
    assert forall i :: 0 <= i < |group.items| ==> RaiseItem(LowerItem(group.items[i])) == group.items[i];
    assert forall i :: 0 <= i < |group.assertions| ==> RaiseFact(LowerAssertion(group.assertions[i])) == group.assertions[i];
    assert RaiseSet(lowered).items == group.items;
    assert RaiseSet(lowered).assertions == group.assertions;
  }

  /** Every binding, assertion and set survives lowering in its place. */
  lemma LowerRoundTrip(model: LayoutModel)
    ensures Raise(Lower(model).value) == model
  {
    var ir := Lower(model).value;
    forall i | 0 <= i < |model.assertions|
      ensures RaiseSet(ir.assertions[i]) == model.assertions[i]
    {
      LowerSetRoundTrip(model.assertions[i]);
    }
    assert Raise(ir).assertions == model.assertions;
  }
}
