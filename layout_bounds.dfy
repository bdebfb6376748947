/** The bound-generic map of the layout-assertion macro: which parameters of the declaration are
    bound by exactly one trait, and by which. */
module LayoutBounds {
  import opened Wrappers
  import opened Syn
  import opened LayoutQualify

  /** A parameter that enters the map: a type parameter whose inline bounds are one trait. */
  predicate SingleTraitBound(param: GenericParam) {
    param.TypeParam? && |param.bounds| == 1 && param.bounds[0].TraitBound?
  }

  /** Collecting the qualifying parameters into a map, left to right; a later parameter of the same
      name replaces an earlier one, as collecting pairs into a `HashMap` does. */
  function CollectBounds(params: seq<GenericParam>): BoundGenerics
    decreases |params|
  {
    if params == [] then map[]
    else
      var earlier := CollectBounds(params[..|params| - 1]);
      var last := params[|params| - 1];
      if SingleTraitBound(last) then earlier[last.ident := last.bounds[0].path] else earlier
  }

  /** `get_bound_generics`: a name is a key exactly when some type parameter of that name is bound
      by one trait, and it maps to the trait of the last such parameter. The where clause is not
      read (`GetBoundGenericsIgnoresWhere`). */
  function GetBoundGenerics(generics: Generics): (m: BoundGenerics)
    ensures forall name :: name in m <==> BoundsName(generics.params, name)
    ensures forall name :: name in m ==> LastBoundIs(generics.params, name, m[name])
  {
    BoundsMeaning(generics.params);
    CollectBounds(generics.params)
  }

  /** Some parameter of that name has a single trait bound. */
  predicate BoundsName(params: seq<GenericParam>, name: Ident) {
    exists i :: 0 <= i < |params| && SingleTraitBound(params[i]) && params[i].ident == name
  }

  /** The last parameter of that name with a single trait bound is bound by `path`. */
  predicate LastBoundIs(params: seq<GenericParam>, name: Ident, path: Path) {
    exists i :: 0 <= i < |params| && SingleTraitBound(params[i]) && params[i].ident == name
      && params[i].bounds[0].path == path
      && forall j :: i < j < |params| ==> !(SingleTraitBound(params[j]) && params[j].ident == name)
  }

  lemma BoundsMeaning(params: seq<GenericParam>)
    ensures forall name :: name in CollectBounds(params) <==> BoundsName(params, name)
    ensures forall name :: name in CollectBounds(params) ==> LastBoundIs(params, name, CollectBounds(params)[name])
  {
    forall name
      ensures name in CollectBounds(params) <==> BoundsName(params, name)
      ensures name in CollectBounds(params) ==> LastBoundIs(params, name, CollectBounds(params)[name])
    {
      BoundMembership(params, name);
      if name in CollectBounds(params) {
        BoundValue(params, name);
      }
    }
  }

  /** Two declarations with the same parameters and any where clauses give the same map. */
  lemma GetBoundGenericsIgnoresWhere(params: seq<GenericParam>, w1: seq<WherePredicate>, w2: seq<WherePredicate>)
    ensures GetBoundGenerics(Generics(params, w1)) == GetBoundGenerics(Generics(params, w2))
  {
  }

  /** A name is in the map exactly when some type parameter of that name has a single trait bound. */
  lemma {:induction false} BoundMembership(params: seq<GenericParam>, name: Ident)
    ensures name in CollectBounds(params) <==>
            exists i :: 0 <= i < |params| && SingleTraitBound(params[i]) && params[i].ident == name
    decreases |params|
  {
    if params != [] {
      var init := params[..|params| - 1];
      BoundMembership(init, name);
      if name in CollectBounds(params) && !(SingleTraitBound(params[|params| - 1]) && params[|params| - 1].ident == name) {
        var i :| 0 <= i < |init| && SingleTraitBound(init[i]) && init[i].ident == name;
        assert params[i] == init[i];
      }
      if exists i :: 0 <= i < |params| && SingleTraitBound(params[i]) && params[i].ident == name {
        var i :| 0 <= i < |params| && SingleTraitBound(params[i]) && params[i].ident == name;
        if i < |init| {
          assert init[i] == params[i];
        }
      }
    }
  }

  /** A name in the map carries the trait path of the last qualifying parameter of that name. */
  lemma {:induction false} BoundValue(params: seq<GenericParam>, name: Ident)
    requires name in CollectBounds(params)
    ensures exists i :: 0 <= i < |params| && SingleTraitBound(params[i]) && params[i].ident == name
              && CollectBounds(params)[name] == params[i].bounds[0].path
              && forall j :: i < j < |params| ==> !(SingleTraitBound(params[j]) && params[j].ident == name)
    decreases |params|
  {
    var init := params[..|params| - 1];
    var last := params[|params| - 1];
    if SingleTraitBound(last) && last.ident == name {
      assert CollectBounds(params)[name] == last.bounds[0].path;
    } else {
      BoundValue(init, name);
      var i :| 0 <= i < |init| && SingleTraitBound(init[i]) && init[i].ident == name
               && CollectBounds(init)[name] == init[i].bounds[0].path
               && forall j :: i < j < |init| ==> !(SingleTraitBound(init[j]) && init[j].ident == name);
      assert params[i] == init[i];
      forall j | i < j < |params|
        ensures !(SingleTraitBound(params[j]) && params[j].ident == name)
      {
        if j < |init| {
          assert params[j] == init[j];
        }
      }
    }
  }

  /** With distinct parameter names, a type parameter with a single trait bound maps to that
      trait's full path. */
  lemma BoundOfDistinct(params: seq<GenericParam>, i: nat)
    requires i < |params| && SingleTraitBound(params[i])
    requires forall j :: 0 <= j < |params| && j != i && (params[j].TypeParam? || params[j].ConstParam?) ==> params[j].ident != params[i].ident
    ensures params[i].ident in CollectBounds(params)
    ensures CollectBounds(params)[params[i].ident] == params[i].bounds[0].path
  {
    BoundMembership(params, params[i].ident);
    BoundValue(params, params[i].ident);
  }

  function TypeParamNamed(name: Ident, bounds: seq<TypeParamBound>): GenericParam {
    TypeParam(name, bounds, None)
  }

  function TraitNamed(names: seq<Ident>): TypeParamBound {
    TraitBound(Path(false, seq(|names|, i requires 0 <= i < |names| => Seg(names[i]))))
  }

  /** The map the unit tests expect for `<T>`, `<T: SomeTrait>`, `<T: SomeTrait + OtherTrait>`,
      `<T: some::path::SomeTrait>` and `<T: SomeTrait, U, V: OtherTrait>`. */
  lemma BoundExamples()
    ensures CollectBounds([TypeParamNamed("T", [])]) == map[]
    ensures CollectBounds([TypeParamNamed("T", [TraitNamed(["SomeTrait"])])]) == map["T" := TraitNamed(["SomeTrait"]).path]
    ensures CollectBounds([TypeParamNamed("T", [TraitNamed(["SomeTrait"]), TraitNamed(["OtherTrait"])])]) == map[]
    ensures CollectBounds([TypeParamNamed("T", [TraitNamed(["some", "path", "SomeTrait"])])])
         == map["T" := TraitNamed(["some", "path", "SomeTrait"]).path]
    ensures CollectBounds([TypeParamNamed("T", [TraitNamed(["SomeTrait"])]), TypeParamNamed("U", []), TypeParamNamed("V", [TraitNamed(["OtherTrait"])])])
         == map["T" := TraitNamed(["SomeTrait"]).path, "V" := TraitNamed(["OtherTrait"]).path]
    ensures CollectBounds([TypeParamNamed("T", [LifetimeBound("a")]), LifetimeParam("a", []), ConstParam("N", IdentType("usize"), None)]) == map[]
  {
    var ps := [TypeParamNamed("T", [TraitNamed(["SomeTrait"])]), TypeParamNamed("U", []), TypeParamNamed("V", [TraitNamed(["OtherTrait"])])];
    assert ps[..2][..1] == ps[..1];
    var qs := [TypeParamNamed("T", [LifetimeBound("a")]), LifetimeParam("a", []), ConstParam("N", IdentType("usize"), None)];
    assert qs[..2][..1] == qs[..1];
  }
}
