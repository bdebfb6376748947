/** The generic qualifier of the layout-assertion macro: rewrites `T::X` into `<T as Trait>::X`
    for every parameter `T` bound by exactly one trait, at every position of a type that it visits. */
module LayoutQualify {
  import opened Wrappers
  import opened Syn

  /** Parameter name to the path of the one trait that bounds it. */
  type BoundGenerics = map<Ident, Path>

  /** `<ident as trait_path>::rest`, as syn parses it: the trait's segments followed by the rest,
      with the self type standing before the first of them. */
  function AsTrait(ident: Ident, traitPath: Path, rest: seq<PathSegment>): Type {
    TypePath(Some(QSelf(IdentType(ident), |traitPath.segments|)), Path(traitPath.leadingColon, traitPath.segments + rest))
  }

  /** `qualify_generic`: a path type stays a path type, and every other type is returned as it is;
      what happens to a path is stated by `QualifyRewrites`, `QualifyKeepsUnbound` and
      `QualifyQualified`. */
  function Qualify(bound: BoundGenerics, ty: Type): (r: Type)
    ensures r.TypePath? <==> ty.TypePath?
    ensures !ty.TypePath? ==> r == ty
    decreases ty
  {
    match ty
    case TypePath(qself, path) =>
      if qself.None? && !path.leadingColon then
        var segments := QualifySegments(bound, path.segments);
        if |segments| <= 1 || segments[0].ident !in bound then TypePath(None, Path(false, segments))
        else AsTrait(segments[0].ident, bound[segments[0].ident], segments[1..])
      else if qself.Some? then
        TypePath(Some(QSelf(Qualify(bound, qself.value.ty), qself.value.position)),
                 Path(path.leadingColon, QualifySegments(bound, path.segments)))
      else ty
    case _ => ty
  }

  /** `qualify_path_segments`: every segment keeps its identifier; its arguments are visited. */
  function QualifySegments(bound: BoundGenerics, segments: seq<PathSegment>): (r: seq<PathSegment>)
    ensures |r| == |segments|
    ensures forall i :: 0 <= i < |r| ==> r[i].ident == segments[i].ident
    ensures forall i :: 0 <= i < |r| ==> r[i].arguments == QualifyArguments(bound, segments[i].arguments)
    decreases segments
  {
    if segments == [] then []
    else [QualifySegment(bound, segments[0])] + QualifySegments(bound, segments[1..])
  }

  function QualifySegment(bound: BoundGenerics, segment: PathSegment): (r: PathSegment)
    ensures r.ident == segment.ident
    decreases segment
  {
    PathSegment(segment.ident, QualifyArguments(bound, segment.arguments))
  }

  /** Inside `<...>` only type arguments are rewritten; inside `(...)` only the inputs. */
  function QualifyArguments(bound: BoundGenerics, arguments: PathArguments): (r: PathArguments)
    ensures arguments.NoArguments? ==> r == NoArguments
    ensures arguments.AngleBracketed? ==> r.AngleBracketed? && r.args == QualifyGenericArgs(bound, arguments.args)
    ensures arguments.Parenthesized? ==>
              r.Parenthesized? && r.output == arguments.output && r.inputs == QualifyTypes(bound, arguments.inputs)
    decreases arguments
  {
    match arguments
    case NoArguments => NoArguments
    case AngleBracketed(args) => AngleBracketed(QualifyGenericArgs(bound, args))
    case Parenthesized(inputs, output) => Parenthesized(QualifyTypes(bound, inputs), output)
  }

  function QualifyGenericArgs(bound: BoundGenerics, args: seq<GenericArgument>): (r: seq<GenericArgument>)
    ensures |r| == |args|
    ensures forall i :: 0 <= i < |r| ==> r[i] == QualifyGenericArg(bound, args[i])
    decreases args
  {
    if args == [] then []
    else
      [QualifyGenericArg(bound, args[0])] + QualifyGenericArgs(bound, args[1..])
  }

  /** Lifetime, const and binding arguments are kept; a type argument is qualified. */
  function QualifyGenericArg(bound: BoundGenerics, arg: GenericArgument): (r: GenericArgument)
    ensures !arg.TypeArg? ==> r == arg
    ensures arg.TypeArg? ==> r == TypeArg(Qualify(bound, arg.ty))
    decreases arg
  {
    match arg
    case TypeArg(ty) => TypeArg(Qualify(bound, ty))
    case other => other
  }

  function QualifyTypes(bound: BoundGenerics, tys: seq<Type>): (r: seq<Type>)
    ensures |r| == |tys|
    ensures forall i :: 0 <= i < |r| ==> r[i] == Qualify(bound, tys[i])
    decreases tys
  {
    if tys == [] then [] else [Qualify(bound, tys[0])] + QualifyTypes(bound, tys[1..])
  }

  // ---------------------------------------------------------------------------------------
  // What the qualifier does to each kind of path, for all inputs.

  /** The segments are visited one by one, so the visit of a tail is the tail of the visit. */
  lemma QualifySegmentsTail(bound: BoundGenerics, segments: seq<PathSegment>)
    requires segments != []
    ensures QualifySegments(bound, segments)[1..] == QualifySegments(bound, segments[1..])
  {
  }

  /** `T::rest` with `T` bound to `Trait` becomes `<T as Trait>::rest`, where the rest has its
      arguments visited and `T`'s own arguments are dropped. */
  lemma QualifyRewrites(bound: BoundGenerics, segments: seq<PathSegment>)
    requires |segments| >= 2 && segments[0].ident in bound
    ensures var r := Qualify(bound, TypePath(None, Path(false, segments)));
            var traitPath := bound[segments[0].ident];
            && r.qself == Some(QSelf(IdentType(segments[0].ident), |traitPath.segments|))
            && r.path.leadingColon == traitPath.leadingColon
            && r.path.segments == traitPath.segments + QualifySegments(bound, segments[1..])
  {
    QualifySegmentsTail(bound, segments);
  }

  /** A single identifier, or a path whose first identifier is not bound, keeps its shape; only the
      arguments of its segments are visited. */
  lemma QualifyKeepsUnbound(bound: BoundGenerics, segments: seq<PathSegment>)
    requires |segments| <= 1 || segments[0].ident !in bound
    ensures Qualify(bound, TypePath(None, Path(false, segments))) == TypePath(None, Path(false, QualifySegments(bound, segments)))
  {
  }

  /** An already qualified path has its self type qualified and its segments visited; the position
      and the leading `::` are kept. */
  lemma QualifyQualified(bound: BoundGenerics, qself: QSelf, path: Path)
    ensures Qualify(bound, TypePath(Some(qself), path))
         == TypePath(Some(QSelf(Qualify(bound, qself.ty), qself.position)), Path(path.leadingColon, QualifySegments(bound, path.segments)))
  {
  }

  /** A rooted path `::a::b` is returned as it is. */
  lemma QualifyRooted(bound: BoundGenerics, segments: seq<PathSegment>)
    ensures Qualify(bound, TypePath(None, Path(true, segments))) == TypePath(None, Path(true, segments))
  {
  }

  // ---------------------------------------------------------------------------------------
  // What qualification achieves: no eligible position is left ambiguous.

  /** A type has no ambiguous associated-type access at any position the qualifier visits: every
      unrooted, unqualified path of two or more segments starts with an unbound identifier. */
  predicate Resolved(bound: BoundGenerics, ty: Type)
    decreases ty
  {
    match ty
    case TypePath(qself, path) =>
      if qself.None? && !path.leadingColon then
        SegmentsResolved(bound, path.segments) && (|path.segments| >= 2 ==> path.segments[0].ident !in bound)
      else if qself.Some? then
        Resolved(bound, qself.value.ty) && SegmentsResolved(bound, path.segments)
      else true
    case _ => true
  }

  predicate SegmentsResolved(bound: BoundGenerics, segments: seq<PathSegment>)
    decreases segments
  {
    segments == [] || (ArgumentsResolved(bound, segments[0].arguments) && SegmentsResolved(bound, segments[1..]))
  }

  predicate ArgumentsResolved(bound: BoundGenerics, arguments: PathArguments)
    decreases arguments
  {
    match arguments
    case NoArguments => true
    case AngleBracketed(args) => GenericArgsResolved(bound, args)
    case Parenthesized(inputs, _) => TypesResolved(bound, inputs)
  }

  predicate GenericArgsResolved(bound: BoundGenerics, args: seq<GenericArgument>)
    decreases args
  {
    args == [] || (GenericArgResolved(bound, args[0]) && GenericArgsResolved(bound, args[1..]))
  }

  predicate GenericArgResolved(bound: BoundGenerics, arg: GenericArgument)
    decreases arg
  {
    arg.TypeArg? ==> Resolved(bound, arg.ty)
  }

  predicate TypesResolved(bound: BoundGenerics, tys: seq<Type>)
    decreases tys
  {
    tys == [] || (Resolved(bound, tys[0]) && TypesResolved(bound, tys[1..]))
  }

  /** The trait paths themselves are spliced in unvisited, so they must be resolved already. */
  predicate TraitsResolved(bound: BoundGenerics) {
    forall k :: k in bound ==> SegmentsResolved(bound, bound[k].segments)
  }

  lemma {:induction false} SegmentsResolvedAppend(bound: BoundGenerics, a: seq<PathSegment>, b: seq<PathSegment>)
    requires SegmentsResolved(bound, a) && SegmentsResolved(bound, b)
    ensures SegmentsResolved(bound, a + b)
    decreases a
  {
    if a != [] {
      var ab := a + b;
      assert ab[0] == a[0];
      assert ab[1..] == a[1..] + b;
      SegmentsResolvedAppend(bound, a[1..], b);
      assert ArgumentsResolved(bound, ab[0].arguments) && SegmentsResolved(bound, ab[1..]);
    } else {
      assert a + b == b;
    }
  }

  lemma {:induction false} SegmentsResolvedSuffix(bound: BoundGenerics, a: seq<PathSegment>)
    requires SegmentsResolved(bound, a) && |a| >= 1
    ensures SegmentsResolved(bound, a[1..])
  {
  }

  lemma IdentTypeResolved(bound: BoundGenerics, ident: Ident)
    ensures Resolved(bound, IdentType(ident))
  {
    assert IdentType(ident).path.segments[1..] == [];
  }

  /** After qualification, every visited position is resolved. */
  lemma {:induction false} QualifyResolves(bound: BoundGenerics, ty: Type)
    requires TraitsResolved(bound)
    ensures Resolved(bound, Qualify(bound, ty))
    decreases ty
  {
    match ty
    case TypePath(qself, path) =>
      if qself.None? && !path.leadingColon {
        var segments := QualifySegments(bound, path.segments);
        QualifySegmentsResolve(bound, path.segments);
        if |segments| >= 2 && segments[0].ident in bound {
          var id := segments[0].ident;
          SegmentsResolvedSuffix(bound, segments);
          SegmentsResolvedAppend(bound, bound[id].segments, segments[1..]);
          IdentTypeResolved(bound, id);
        }
      } else if qself.Some? {
        QualifyResolves(bound, qself.value.ty);
        QualifySegmentsResolve(bound, path.segments);
      }
    case _ =>
  }

  lemma {:induction false} QualifySegmentsResolve(bound: BoundGenerics, segments: seq<PathSegment>)
    requires TraitsResolved(bound)
    ensures SegmentsResolved(bound, QualifySegments(bound, segments))
    decreases segments
  {
    if segments != [] {
      QualifyArgumentsResolve(bound, segments[0].arguments);
      QualifySegmentsResolve(bound, segments[1..]);
    }
  }

  lemma {:induction false} QualifyArgumentsResolve(bound: BoundGenerics, arguments: PathArguments)
    requires TraitsResolved(bound)
    ensures ArgumentsResolved(bound, QualifyArguments(bound, arguments))
    decreases arguments
  {
    match arguments
    case NoArguments =>
    case AngleBracketed(args) => QualifyGenericArgsResolve(bound, args);
    case Parenthesized(inputs, _) => QualifyTypesResolve(bound, inputs);
  }

  lemma {:induction false} QualifyGenericArgsResolve(bound: BoundGenerics, args: seq<GenericArgument>)
    requires TraitsResolved(bound)
    ensures GenericArgsResolved(bound, QualifyGenericArgs(bound, args))
    decreases args
  {
    if args != [] {
      QualifyGenericArgResolves(bound, args[0]);
      QualifyGenericArgsResolve(bound, args[1..]);
    }
  }

  lemma {:induction false} QualifyGenericArgResolves(bound: BoundGenerics, arg: GenericArgument)
    requires TraitsResolved(bound)
    ensures GenericArgResolved(bound, QualifyGenericArg(bound, arg))
    decreases arg
  {
    if arg.TypeArg? {
      QualifyResolves(bound, arg.ty);
    }
  }

  lemma {:induction false} QualifyTypesResolve(bound: BoundGenerics, tys: seq<Type>)
    requires TraitsResolved(bound)
    ensures TypesResolved(bound, QualifyTypes(bound, tys))
    decreases tys
  {
    if tys != [] {
      QualifyResolves(bound, tys[0]);
      QualifyTypesResolve(bound, tys[1..]);
    }
  }

  /** A resolved type is left exactly as it is. */
  lemma {:induction false} QualifyFixesResolved(bound: BoundGenerics, ty: Type)
    requires Resolved(bound, ty)
    ensures Qualify(bound, ty) == ty
    decreases ty
  {
    match ty
    case TypePath(qself, path) =>
      if qself.None? && !path.leadingColon {
        QualifySegmentsFixResolved(bound, path.segments);
      } else if qself.Some? {
        QualifyFixesResolved(bound, qself.value.ty);
        QualifySegmentsFixResolved(bound, path.segments);
      }
    case _ =>
  }

  lemma {:induction false} QualifySegmentsFixResolved(bound: BoundGenerics, segments: seq<PathSegment>)
    requires SegmentsResolved(bound, segments)
    ensures QualifySegments(bound, segments) == segments
    decreases segments
  {
    if segments != [] {
      QualifyArgumentsFixResolved(bound, segments[0].arguments);
      QualifySegmentsFixResolved(bound, segments[1..]);
    }
  }

  lemma {:induction false} QualifyArgumentsFixResolved(bound: BoundGenerics, arguments: PathArguments)
    requires ArgumentsResolved(bound, arguments)
    ensures QualifyArguments(bound, arguments) == arguments
    decreases arguments
  {
    match arguments
    case NoArguments =>
    case AngleBracketed(args) => QualifyGenericArgsFixResolved(bound, args);
    case Parenthesized(inputs, _) => QualifyTypesFixResolved(bound, inputs);
  }

  lemma {:induction false} QualifyGenericArgsFixResolved(bound: BoundGenerics, args: seq<GenericArgument>)
    requires GenericArgsResolved(bound, args)
    ensures QualifyGenericArgs(bound, args) == args
    decreases args
  {
    if args != [] {
      QualifyGenericArgFixesResolved(bound, args[0]);
      QualifyGenericArgsFixResolved(bound, args[1..]);
    }
  }

  lemma {:induction false} QualifyGenericArgFixesResolved(bound: BoundGenerics, arg: GenericArgument)
    requires GenericArgResolved(bound, arg)
    ensures QualifyGenericArg(bound, arg) == arg
    decreases arg
  {
    if arg.TypeArg? {
      QualifyFixesResolved(bound, arg.ty);
    }
  }

  lemma {:induction false} QualifyTypesFixResolved(bound: BoundGenerics, tys: seq<Type>)
    requires TypesResolved(bound, tys)
    ensures QualifyTypes(bound, tys) == tys
    decreases tys
  {
    if tys != [] {
      QualifyFixesResolved(bound, tys[0]);
      QualifyTypesFixResolved(bound, tys[1..]);
    }
  }

  /** Qualifying twice is qualifying once, when the bound traits carry no ambiguous arguments. */
  lemma QualifyIdempotent(bound: BoundGenerics, ty: Type)
    requires TraitsResolved(bound)
    ensures Qualify(bound, Qualify(bound, ty)) == Qualify(bound, ty)
  {
    QualifyResolves(bound, ty);
    QualifyFixesResolved(bound, Qualify(bound, ty));
  }

  /** With no bound parameters nothing is rewritten. */
  lemma QualifyWithoutBounds(ty: Type)
    ensures Qualify(map[], ty) == ty
  {
    assert TraitsResolved(map[]);
    QualifyResolves(map[], ty);
    EverythingResolvedWithoutBounds(ty);
    QualifyFixesResolved(map[], ty);
  }

  lemma {:induction false} EverythingResolvedWithoutBounds(ty: Type)
    ensures Resolved(map[], ty)
    decreases ty
  {
    match ty
    case TypePath(qself, path) =>
      SegmentsResolvedWithoutBounds(path.segments);
      if qself.Some? {
        EverythingResolvedWithoutBounds(qself.value.ty);
      }
    case _ =>
  }

  lemma {:induction false} SegmentsResolvedWithoutBounds(segments: seq<PathSegment>)
    ensures SegmentsResolved(map[], segments)
    decreases segments
  {
    if segments != [] {
      match segments[0].arguments {
        case NoArguments =>
        case AngleBracketed(args) => GenericArgsResolvedWithoutBounds(args);
        case Parenthesized(inputs, _) => TypesResolvedWithoutBounds(inputs);
      }
      SegmentsResolvedWithoutBounds(segments[1..]);
    }
  }

  lemma {:induction false} GenericArgsResolvedWithoutBounds(args: seq<GenericArgument>)
    ensures GenericArgsResolved(map[], args)
    decreases args
  {
    if args != [] {
      GenericArgResolvedWithoutBounds(args[0]);
      GenericArgsResolvedWithoutBounds(args[1..]);
    }
  }

  lemma {:induction false} GenericArgResolvedWithoutBounds(arg: GenericArgument)
    ensures GenericArgResolved(map[], arg)
    decreases arg
  {
    if arg.TypeArg? {
      EverythingResolvedWithoutBounds(arg.ty);
    }
  }

  lemma {:induction false} TypesResolvedWithoutBounds(tys: seq<Type>)
    ensures TypesResolved(map[], tys)
    decreases tys
  {
    if tys != [] {
      EverythingResolvedWithoutBounds(tys[0]);
      TypesResolvedWithoutBounds(tys[1..]);
    }
  }

  // ---------------------------------------------------------------------------------------
  // The rewrites the qualifier's own unit tests expect, with `T: MyTrait` and
  // `U: some_module::OtherTrait`.

  function Seg(ident: Ident): PathSegment {
    PathSegment(ident, NoArguments)
  }

  /** An unqualified, unrooted path type such as `T::Item`. */
  function PlainType(segments: seq<PathSegment>): Type {
    TypePath(None, Path(false, segments))
  }

  function ExampleBounds(): BoundGenerics {
    map["T" := Path(false, [Seg("MyTrait")]), "U" := Path(false, [Seg("some_module"), Seg("OtherTrait")])]
  }

  /** `<self_ty as trait>::item`, for a single-segment trait. */
  function Projection(selfTy: Type, traitName: Ident, item: PathSegment): Type {
    TypePath(Some(QSelf(selfTy, 1)), Path(false, [Seg(traitName), item]))
  }

  /** `T::Item` with `T: MyTrait` becomes `<T as MyTrait>::Item`. */
  lemma QualifyAssociated()
    ensures Qualify(ExampleBounds(), PlainType([Seg("T"), Seg("Item")]))
         == Projection(IdentType("T"), "MyTrait", Seg("Item"))
  {
    assert QualifySegments(ExampleBounds(), [Seg("T"), Seg("Item")]) == [Seg("T"), Seg("Item")];
  }

  lemma QualifyExamples()
    ensures Qualify(ExampleBounds(), IdentType("T")) == IdentType("T")
    ensures Qualify(ExampleBounds(), PlainType([Seg("T"), Seg("Item")]))
         == Projection(IdentType("T"), "MyTrait", Seg("Item"))
    ensures Qualify(ExampleBounds(), Projection(PlainType([Seg("T"), Seg("Item")]), "OtherTrait", Seg("Item")))
         == Projection(Projection(IdentType("T"), "MyTrait", Seg("Item")), "OtherTrait", Seg("Item"))
    ensures Qualify(ExampleBounds(),
                    Projection(Projection(PlainType([Seg("T"), Seg("Item")]), "OtherTrait", Seg("Item")), "OtherOtherTrait", Seg("Item")))
         == Projection(Projection(Projection(IdentType("T"), "MyTrait", Seg("Item")), "OtherTrait", Seg("Item")), "OtherOtherTrait", Seg("Item"))
  {
    var b := ExampleBounds();
    QualifyAssociated();
    assert QualifySegments(b, [Seg("OtherTrait"), Seg("Item")]) == [Seg("OtherTrait"), Seg("Item")];
    assert QualifySegments(b, [Seg("OtherOtherTrait"), Seg("Item")]) == [Seg("OtherOtherTrait"), Seg("Item")];
    assert QualifySegments(b, [Seg("T")]) == [Seg("T")];
  }

  lemma QualifyArgumentExamples()
    ensures Qualify(ExampleBounds(), PlainType([PathSegment("SomeStruct", AngleBracketed([TypeArg(PlainType([Seg("T"), Seg("Item")]))]))]))
         == PlainType([PathSegment("SomeStruct", AngleBracketed([TypeArg(Projection(IdentType("T"), "MyTrait", Seg("Item")))]))])
    ensures Qualify(ExampleBounds(),
                    Projection(IdentType("K"), "TraitWithGeneric", PathSegment("Item", AngleBracketed([TypeArg(PlainType([Seg("T"), Seg("Item")]))]))))
         == Projection(IdentType("K"), "TraitWithGeneric", PathSegment("Item", AngleBracketed([TypeArg(Projection(IdentType("T"), "MyTrait", Seg("Item")))])))
  {
    var b := ExampleBounds();
    QualifyAssociated();
    assert QualifySegments(b, [Seg("K")]) == [Seg("K")];
    assert QualifyGenericArgs(b, [TypeArg(PlainType([Seg("T"), Seg("Item")]))])
        == [TypeArg(Projection(IdentType("T"), "MyTrait", Seg("Item")))];
  }
}
