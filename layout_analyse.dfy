/** Analysis of the layout-assertion macro: for each substitution list, check its arity, pair the
    declaration's parameters with the arguments by kind, and build the ordered size and offset
    assertions. */
module LayoutAnalyse {
  import opened Wrappers
  import opened Text
  import opened Syn
  import opened LayoutQualify
  import opened LayoutBounds
  import opened LayoutParse

  datatype Assertion =
    | Size(ty: Type, size: Expr)
    | Offset(container: Type, field: Member, offset: Expr)

  /** A binding made available to one assertion set: `type ident = ty;` or `const ident: ty = expr;`. */
  datatype AssertionItem =
    | ConstItem(ident: Ident, ty: Type, expr: Expr)
    | TypeItem(ident: Ident, ty: Type)

  datatype AssertionSet = AssertionSet(items: seq<AssertionItem>, assertions: seq<Assertion>)

  datatype LayoutModel = LayoutModel(item: ItemStruct, assertions: seq<AssertionSet>)

  /** How a parameter appears in the type's own generics (`split_for_impl().1`): lifetimes as
      lifetimes, type and const parameters by name. */
  function ParamArgument(param: GenericParam): GenericArgument {
    match param
    case LifetimeParam(lifetime, _) => LifetimeArg(lifetime)
    case TypeParam(ident, _, _) => TypeArg(IdentType(ident))
    case ConstParam(ident, _, _) => TypeArg(IdentType(ident))
  }

  /** The container type `Ident<params...>`, or plain `Ident` when there are no parameters. */
  function ContainerType(item: ItemStruct): (r: Type)
    ensures r.TypePath? && r.qself.None? && !r.path.leadingColon
    ensures |r.path.segments| == 1 && r.path.segments[0].ident == item.ident
    ensures item.generics.params == [] ==> r.path.segments[0].arguments == NoArguments
    ensures item.generics.params != [] ==>
              var arguments := r.path.segments[0].arguments;
              && arguments.AngleBracketed?
              && |arguments.args| == |item.generics.params|
              && forall i :: 0 <= i < |item.generics.params| ==>
                   (item.generics.params[i].LifetimeParam? ==> arguments.args[i] == LifetimeArg(item.generics.params[i].lifetime))
                   && (!item.generics.params[i].LifetimeParam? ==> arguments.args[i] == TypeArg(IdentType(item.generics.params[i].ident)))
  {
    var params := item.generics.params;
    var arguments := if params == [] then NoArguments
                     else AngleBracketed(seq(|params|, i requires 0 <= i < |params| => ParamArgument(params[i])));
    TypePath(None, Path(false, [PathSegment(item.ident, arguments)]))
  }

  function ParamKind(param: GenericParam): string {
    match param
    case LifetimeParam(_, _) => "lifetime"
    case TypeParam(_, _, _) => "type"
    case ConstParam(_, _, _) => "const"
  }

  /** A lifetime argument for a lifetime parameter is not implemented: the source panics. */
  predicate Unimplemented(param: GenericParam, arg: GenericArgument) {
    param.LifetimeParam? && arg.LifetimeArg?
  }

  predicate KindsMatch(param: GenericParam, arg: GenericArgument) {
    (param.TypeParam? && arg.TypeArg?) || (param.ConstParam? && arg.ConstArg?)
  }

  /** `AssertionItem::try_from`. */
  function PairItem(param: GenericParam, arg: GenericArgument): (r: Result<AssertionItem, Error>)
    requires !Unimplemented(param, arg)
  {
    if param.TypeParam? && arg.TypeArg? then Ok(TypeItem(param.ident, arg.ty))
    else if param.ConstParam? && arg.ConstArg? then Ok(ConstItem(param.ident, param.ty, arg.expr))
    else Err(Error(ParamKind(param) + " required as generic argument"))
  }

  /** Pairing the parameters with the arguments in order reaches the unimplemented case. */
  predicate PairingPanics(params: seq<GenericParam>, args: seq<GenericArgument>)
    requires |params| == |args|
  {
    |params| > 0
    && (Unimplemented(params[0], args[0])
        || (PairItem(params[0], args[0]).Ok? && PairingPanics(params[1..], args[1..])))
  }

  /** Zipping parameters with arguments and collecting the items, stopping at the first error. */
  function PairItems(params: seq<GenericParam>, args: seq<GenericArgument>): Result<seq<AssertionItem>, Error>
    requires |params| == |args| && !PairingPanics(params, args)
  {
    if params == [] then Ok([])
    else
      var item :- PairItem(params[0], args[0]);
      var rest :- PairItems(params[1..], args[1..]);
      Ok([item] + rest)
  }

  function ArityMiddle(): string {
    " generic arguments, but found "
  }

  function ArityMessage(params: nat, args: nat): string {
    "expected " + (NatToString(params) + (ArityMiddle() + NatToString(args)))
  }

  /** The assertions one field assertion contributes: its size (of the qualified field type), then
      its offset (within the container). */
  function FieldAssertionChecks(bound: BoundGenerics, container: Type, fa: FieldAssertion): (r: seq<Assertion>)
    ensures |r| == (if fa.size.Some? then 1 else 0) + (if fa.offset.Some? then 1 else 0)
    ensures fa.size.Some? ==> r[0] == Size(Qualify(bound, fa.ty), fa.size.value)
    ensures fa.offset.Some? ==> r[|r| - 1] == Offset(container, fa.field, fa.offset.value)
  {
    (if fa.size.Some? then [Size(Qualify(bound, fa.ty), fa.size.value)] else [])
    + (if fa.offset.Some? then [Offset(container, fa.field, fa.offset.value)] else [])
  }

  function FieldChecks(bound: BoundGenerics, container: Type, fas: seq<FieldAssertion>): seq<Assertion> {
    if fas == [] then []
    else FieldAssertionChecks(bound, container, fas[0]) + FieldChecks(bound, container, fas[1..])
  }

  /** The assertions of every set: field by field, then the container's size when declared. */
  function SetAssertions(ast: Ast): seq<Assertion> {
    var container := ContainerType(ast.item);
    FieldChecks(GetBoundGenerics(ast.item.generics), container, ast.fieldAssertions)
    + (if ast.size.Some? then [Size(container, ast.size.value)] else [])
  }

  predicate ListPanics(ast: Ast, args: seq<GenericArgument>) {
    |args| == |ast.item.generics.params| && PairingPanics(ast.item.generics.params, args)
  }

  /** One substitution list gives one assertion set. */
  function AnalyseList(ast: Ast, args: seq<GenericArgument>): Result<AssertionSet, Error>
    requires !ListPanics(ast, args)
  {
    var params := ast.item.generics.params;
    if |args| != |params| then Err(Error(ArityMessage(|params|, |args|)))
    else
      var items :- PairItems(params, args);
      Ok(AssertionSet(items, SetAssertions(ast)))
  }

  /** Analysing the lists in order reaches the unimplemented case. */
  predicate AnalysisPanics(ast: Ast, lists: seq<seq<GenericArgument>>) {
    |lists| > 0
    && (ListPanics(ast, lists[0]) || (AnalyseList(ast, lists[0]).Ok? && AnalysisPanics(ast, lists[1..])))
  }

  function AnalyseLists(ast: Ast, lists: seq<seq<GenericArgument>>): Result<seq<AssertionSet>, Error>
    requires !AnalysisPanics(ast, lists)
  {
    if lists == [] then Ok([])
    else
      var first :- AnalyseList(ast, lists[0]);
      var rest :- AnalyseLists(ast, lists[1..]);
      Ok([first] + rest)
  }

  /** `analyse`. */
  function Analyse(ast: Ast): Result<LayoutModel, Error>
    requires !AnalysisPanics(ast, ast.generics)
  {
    var sets :- AnalyseLists(ast, ast.generics);
    Ok(LayoutModel(ast.item, sets))
  }

  // ---------------------------------------------------------------------------------------
  // Properties.

  /** Analysis succeeds exactly when every list does, and then gives one set per list, in order
      and with the item unchanged; otherwise it reports the first failing list's error. */
  lemma {:induction false} AnalyseListsMeaning(ast: Ast, lists: seq<seq<GenericArgument>>)
    requires !AnalysisPanics(ast, lists)
    ensures AnalyseLists(ast, lists).Ok? <==> forall i :: 0 <= i < |lists| ==> !ListPanics(ast, lists[i]) && AnalyseList(ast, lists[i]).Ok?
    ensures AnalyseLists(ast, lists).Ok? ==>
              |AnalyseLists(ast, lists).value| == |lists|
              && forall i :: 0 <= i < |lists| ==> AnalyseLists(ast, lists).value[i] == AnalyseList(ast, lists[i]).value
    ensures AnalyseLists(ast, lists).Err? ==>
              exists i :: 0 <= i < |lists| && !ListPanics(ast, lists[i]) && AnalyseList(ast, lists[i]) == Err(AnalyseLists(ast, lists).error)
                          && forall j :: 0 <= j < i ==> !ListPanics(ast, lists[j]) && AnalyseList(ast, lists[j]).Ok?
    decreases |lists|
  {
    if lists != [] {
      var tail := lists[1..];
      assert forall i :: 0 <= i < |tail| ==> tail[i] == lists[i + 1];
      var first := AnalyseList(ast, lists[0]);
      if first.Ok? {
        AnalyseListsMeaning(ast, tail);
        var r := AnalyseLists(ast, lists);
        if r.Err? {
          var i :| 0 <= i < |tail| && !ListPanics(ast, tail[i]) && AnalyseList(ast, tail[i]) == Err(r.error)
                   && forall j :: 0 <= j < i ==> !ListPanics(ast, tail[j]) && AnalyseList(ast, tail[j]).Ok?;
          forall j | 0 <= j < i + 1
            ensures !ListPanics(ast, lists[j]) && AnalyseList(ast, lists[j]).Ok?
          {
            if j > 0 {
              assert lists[j] == tail[j - 1];
            }
          }
        }
      }
    }
  }

  /** Without substitution lists there are no assertion sets at all. */
  lemma AnalyseWithoutLists(ast: Ast)
    requires ast.generics == []
    ensures Analyse(ast) == Ok(LayoutModel(ast.item, []))
  {
  }

  /** The arity error names both counts, so the message determines them. */
  lemma ArityMessageInjective(p1: nat, a1: nat, p2: nat, a2: nat)
    requires ArityMessage(p1, a1) == ArityMessage(p2, a2)
    ensures p1 == p2 && a1 == a2
  {
    var s1 := NatToString(p1) + (ArityMiddle() + NatToString(a1));
    var s2 := NatToString(p2) + (ArityMiddle() + NatToString(a2));
    PrefixCancel("expected ", s1, s2);
    assert (ArityMiddle() + NatToString(a1))[0] == ' ';
    assert (ArityMiddle() + NatToString(a2))[0] == ' ';
    DigitPrefixUnique(NatToString(p1), ArityMiddle() + NatToString(a1), NatToString(p2), ArityMiddle() + NatToString(a2));
    NatToStringInjective(p1, p2);
    PrefixCancel(ArityMiddle(), NatToString(a1), NatToString(a2));
    NatToStringInjective(a1, a2);
  }

  lemma PrefixCancel(p: string, a: string, b: string)
    requires p + a == p + b
    ensures a == b
  {
    assert a == (p + a)[|p|..];
    assert b == (p + b)[|p|..];
  }

  /** A list of the wrong length fails with the arity message. */
  lemma ArityChecked(ast: Ast, args: seq<GenericArgument>)
    requires |args| != |ast.item.generics.params|
    ensures !ListPanics(ast, args)
    ensures AnalyseList(ast, args) == Err(Error(ArityMessage(|ast.item.generics.params|, |args|)))
  {
  }

  /** The item a matching pair gives, for a parameter and an argument of the same kind. */
  function ExpectedItem(param: GenericParam, arg: GenericArgument): AssertionItem
    requires KindsMatch(param, arg)
  {
    if param.TypeParam? then TypeItem(param.ident, arg.ty) else ConstItem(param.ident, param.ty, arg.expr)
  }

  /** Pairing succeeds exactly when every kind matches; then the items correspond one-to-one with
      the parameters, in order. Otherwise the first mismatch names the parameter's kind. */
  lemma {:induction false} PairItemsMeaning(params: seq<GenericParam>, args: seq<GenericArgument>)
    requires |params| == |args| && !PairingPanics(params, args)
    ensures PairItems(params, args).Ok? <==> forall i :: 0 <= i < |params| ==> KindsMatch(params[i], args[i])
    ensures PairItems(params, args).Ok? ==>
              var items := PairItems(params, args).value;
              |items| == |params| && forall i :: 0 <= i < |params| ==> items[i] == ExpectedItem(params[i], args[i])
    ensures PairItems(params, args).Err? ==>
              exists i :: 0 <= i < |params| && !KindsMatch(params[i], args[i])
                          && (forall j :: 0 <= j < i ==> KindsMatch(params[j], args[j]))
                          && PairItems(params, args).error == Error(ParamKind(params[i]) + " required as generic argument")
    decreases |params|
  {
    if params != [] {
      var ps := params[1..];
      var rest := args[1..];
      assert forall i :: 0 <= i < |ps| ==> ps[i] == params[i + 1] && rest[i] == args[i + 1];
      var first := PairItem(params[0], args[0]);
      if first.Ok? {
        PairItemsMeaning(ps, rest);
        var r := PairItems(params, args);
        if r.Err? {
          var i :| 0 <= i < |ps| && !KindsMatch(ps[i], rest[i]) && (forall j :: 0 <= j < i ==> KindsMatch(ps[j], rest[j]))
                   && r.error == Error(ParamKind(ps[i]) + " required as generic argument");
          forall j | 0 <= j < i + 1
            ensures KindsMatch(params[j], args[j])
          {
            if j > 0 {
              assert params[j] == ps[j - 1] && args[j] == rest[j - 1];
            }
          }
          assert params[i + 1] == ps[i] && args[i + 1] == rest[i];
        }
        if forall i :: 0 <= i < |params| ==> KindsMatch(params[i], args[i]) {
          assert forall i :: 0 <= i < |ps| ==> KindsMatch(ps[i], rest[i]);
        }
      }
    }
  }

  /** The assertions do not depend on the substitution list: the bound map and the container type
      come from the declaration alone, so all successful sets carry the same assertions. */
  lemma SetsShareAssertions(ast: Ast, args1: seq<GenericArgument>, args2: seq<GenericArgument>)
    requires !ListPanics(ast, args1) && !ListPanics(ast, args2)
    requires AnalyseList(ast, args1).Ok? && AnalyseList(ast, args2).Ok?
    ensures AnalyseList(ast, args1).value.assertions == AnalyseList(ast, args2).value.assertions == SetAssertions(ast)
  {
  }

  lemma {:induction false} FieldChecksAppend(bound: BoundGenerics, container: Type, a: seq<FieldAssertion>, b: seq<FieldAssertion>)
    ensures FieldChecks(bound, container, a + b) == FieldChecks(bound, container, a) + FieldChecks(bound, container, b)
    decreases |a|
  {
    if a == [] {
      assert a + b == b;
    } else {
      assert (a + b)[0] == a[0];
      assert (a + b)[1..] == a[1..] + b;
      FieldChecksAppend(bound, container, a[1..], b);
    }
  }

  /** Field assertion `k` contributes its checks as one contiguous block, after those of the field
      assertions before it: the order is field by field, size before offset. */
  lemma FieldChecksOrder(bound: BoundGenerics, container: Type, fas: seq<FieldAssertion>, k: nat)
    requires k < |fas|
    ensures FieldChecks(bound, container, fas)
            == FieldChecks(bound, container, fas[..k]) + FieldAssertionChecks(bound, container, fas[k]) + FieldChecks(bound, container, fas[k + 1..])
  {
    assert fas == fas[..k] + ([fas[k]] + fas[k + 1..]);
    FieldChecksAppend(bound, container, fas[..k], [fas[k]] + fas[k + 1..]);
    assert FieldChecks(bound, container, [fas[k]] + fas[k + 1..])
        == FieldAssertionChecks(bound, container, fas[k]) + FieldChecks(bound, container, fas[k + 1..]);
  }

  /** In a set, the checks of field `k` start after those of the fields before it: its size check
      on the qualified field type first, then its offset check in the container type. */
  lemma SetAssertionsField(ast: Ast, k: nat)
    requires k < |ast.fieldAssertions|
    ensures var bound := GetBoundGenerics(ast.item.generics);
            var container := ContainerType(ast.item);
            var fa := ast.fieldAssertions[k];
            var start := |FieldChecks(bound, container, ast.fieldAssertions[..k])|;
            var at := if fa.size.Some? then start + 1 else start;
            && (fa.size.Some? ==> start < |SetAssertions(ast)| && SetAssertions(ast)[start] == Size(Qualify(bound, fa.ty), fa.size.value))
            && (fa.offset.Some? ==> at < |SetAssertions(ast)| && SetAssertions(ast)[at] == Offset(container, fa.field, fa.offset.value))
  {
    var bound := GetBoundGenerics(ast.item.generics);
    var container := ContainerType(ast.item);
    var fas := ast.fieldAssertions;
    FieldChecksOrder(bound, container, fas, k);
    var before := FieldChecks(bound, container, fas[..k]);
    var own := FieldAssertionChecks(bound, container, fas[k]);
    var tail := FieldChecks(bound, container, fas[k + 1..]) + (if ast.size.Some? then [Size(container, ast.size.value)] else []);
    assert SetAssertions(ast) == before + (own + tail);
    forall j | 0 <= j < |own|
      ensures SetAssertions(ast)[|before| + j] == own[j]
    {
      assert (before + (own + tail))[|before| + j] == (own + tail)[j];
    }
  }

  /** Every offset check is about the container type, and every size check from a field is about
      that field's qualified type, which is resolved. */
  lemma {:induction false} FieldChecksShape(bound: BoundGenerics, container: Type, fas: seq<FieldAssertion>)
    requires TraitsResolved(bound)
    ensures forall a :: a in FieldChecks(bound, container, fas) ==>
              (a.Offset? ==> a.container == container) && (a.Size? ==> Resolved(bound, a.ty))
    decreases |fas|
  {
    if fas != [] {
      FieldChecksShape(bound, container, fas[1..]);
      QualifyResolves(bound, fas[0].ty);
    }
  }

  /** The container's size check, when declared, is the last assertion of every set. */
  lemma ContainerSizeLast(ast: Ast)
    requires ast.size.Some?
    ensures |SetAssertions(ast)| > 0 && SetAssertions(ast)[|SetAssertions(ast)| - 1] == Size(ContainerType(ast.item), ast.size.value)
  {
  }

  /** `T` with `MyType` gives a type item, `const N: usize` with `128` a const item, and `T` with
      `128` fails. */
  lemma PairItemExamples()
    ensures PairItem(TypeParam("T", [], None), TypeArg(IdentType("MyType"))) == Ok(TypeItem("T", IdentType("MyType")))
    ensures PairItem(ConstParam("N", IdentType("usize"), None), ConstArg(ExprLit(LitInt(128))))
         == Ok(ConstItem("N", IdentType("usize"), ExprLit(LitInt(128))))
    ensures PairItem(TypeParam("T", [], None), ConstArg(ExprLit(LitInt(128)))).Err?
  {
  }
}
