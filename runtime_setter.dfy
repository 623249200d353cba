/** Name-based access to the members of a struct (src/runtime_setter_stuff.hpp,
    copied verbatim in src/runtime_name_setter.cpp).

    A struct is its list of non-static data members, each a name and a type,
    with one value per member. Which member types can be assigned from which
    argument types, and what value an assignment stores, are given relations:
    the model is generic in both. */
module RuntimeSetter {
  import opened Basics

  datatype Member<Ty> = Member(name: string, ty: Ty)

  /** C++ gives the members of one struct distinct names. */
  predicate UniqueNames<Ty>(members: seq<Member<Ty>>) {
    forall i, j :: 0 <= i < j < |members| ==> members[i].name != members[j].name
  }

  // ---------------------------------------------------------------------
  // can_set_with_type

  /** can_set_with_type: the template-for over the members returns true at
      the first member whose type is assignable from `from`. */
  function CanSetWithType<Ty>(members: seq<Member<Ty>>, from: Ty, assignable: (Ty, Ty) -> bool): (r: bool)
    ensures r <==> exists i :: 0 <= i < |members| && assignable(members[i].ty, from)
  {
    if members == [] then false
    else if assignable(members[0].ty, from) then true
    else
      var r := CanSetWithType(members[1..], from, assignable);
      assert r ==> exists i :: 0 <= i < |members| && assignable(members[i].ty, from) by {
        if r {
          var i :| 0 <= i < |members[1..]| && assignable(members[1..][i].ty, from);
          assert members[i + 1] == members[1..][i];
        }
      }
      r
  }

  // ---------------------------------------------------------------------
  // set_by_name

  /** The member set_by_name assigns: the first from index k on whose name
      is `name` and whose type is assignable from `from`. */
  function SetTargetFrom<Ty>(members: seq<Member<Ty>>, name: string, from: Ty, assignable: (Ty, Ty) -> bool, k: nat): (r: Option<nat>)
    requires k <= |members|
    ensures r.Some? ==> k <= r.value < |members| && members[r.value].name == name && assignable(members[r.value].ty, from)
    ensures r.None? ==> forall i :: k <= i < |members| && members[i].name == name ==> !assignable(members[i].ty, from)
    decreases |members| - k
  {
    if k == |members| then None
    else if members[k].name == name && assignable(members[k].ty, from) then Some(k)
    else SetTargetFrom(members, name, from, assignable, k + 1)
  }

  function SetTarget<Ty>(members: seq<Member<Ty>>, name: string, from: Ty, assignable: (Ty, Ty) -> bool): Option<nat> {
    SetTargetFrom(members, name, from, assignable, 0)
  }

  /** The result of set_by_name and the member values after it. */
  function SetByNameSpec<Ty, Val>(members: seq<Member<Ty>>, values: seq<Val>, name: string, from: Ty, value: Val,
                                  assignable: (Ty, Ty) -> bool, convert: (Ty, Ty, Val) -> Val): (bool, seq<Val>)
    requires |values| == |members|
  {
    match SetTarget(members, name, from, assignable)
    case None => (false, values)
    case Some(i) => (true, values[i := convert(members[i].ty, from, value)])
  }

  /** set_by_name returns true iff a member named `name` exists and is
      assignable from `from`; that member then holds the converted value and
      every other member is unchanged; on false nothing changes. */
  lemma {:induction false} SetByNameMeaning<Ty, Val>(members: seq<Member<Ty>>, values: seq<Val>, name: string, from: Ty, value: Val,
                                  assignable: (Ty, Ty) -> bool, convert: (Ty, Ty, Val) -> Val)
    requires |values| == |members| && UniqueNames(members)
    ensures var (ok, after) := SetByNameSpec(members, values, name, from, value, assignable, convert);
      && |after| == |values|
      && (ok <==> exists i :: 0 <= i < |members| && members[i].name == name && assignable(members[i].ty, from))
      && (forall i :: 0 <= i < |members| && members[i].name == name && ok ==>
            after[i] == convert(members[i].ty, from, value))
      && (forall i :: 0 <= i < |members| && members[i].name != name ==> after[i] == values[i])
      && (!ok ==> after == values)
  {
  }

  /** Builds a struct value from its members and their initial values. */
  class Record<Ty(==), Val> {
    const members: seq<Member<Ty>>
    var values: seq<Val>

    ghost predicate Valid()
      reads this
    {
      |values| == |members| && UniqueNames(members)
    }

    constructor (members: seq<Member<Ty>>, values: seq<Val>)
      requires |values| == |members| && UniqueNames(members)
      ensures Valid()
      ensures this.members == members && this.values == values
    {
      this.members := members;
      this.values := values;
    }

    /** set_by_name: the static_assert demands that some member can take
        `from`; the loop assigns the first member with the name whose type
        is assignable, and reports whether it found one. */
    method SetByName(name: string, from: Ty, value: Val, assignable: (Ty, Ty) -> bool, convert: (Ty, Ty, Val) -> Val)
      returns (ok: bool)
      requires Valid()
      requires CanSetWithType(members, from, assignable)
      modifies this
      ensures Valid()
      ensures (ok, values) == SetByNameSpec(members, old(values), name, from, value, assignable, convert)
    {
      var i := 0;
      while i < |members|
        invariant 0 <= i <= |members|
        invariant SetTargetFrom(members, name, from, assignable, i) == SetTarget(members, name, from, assignable)
      {
        if members[i].name == name && assignable(members[i].ty, from) {
          values := values[i := convert(members[i].ty, from, value)];
          return true;
        }
        i := i + 1;
      }
      return false;
    }

    /** assign_variant_by_name: std::visit calls set_by_name with the type of
        the variant's active alternative. Every alternative is instantiated,
        so each must pass set_by_name's static_assert. */
    method AssignVariantByName(name: string, active: nat, value: Val, assignable: (Ty, Ty) -> bool, convert: (Ty, Ty, Val) -> Val)
      returns (ok: bool)
      requires Valid()
      requires active < |UniqueTypes(Types(members))|
      requires forall t :: t in UniqueTypes(Types(members)) ==> CanSetWithType(members, t, assignable)
      modifies this
      ensures Valid()
      ensures (ok, values) == SetByNameSpec(members, old(values), name, UniqueTypes(Types(members))[active], value, assignable, convert)
    {
      var alternatives := GetVariantOfUniqueTypes(Types(members));
      ok := SetByName(name, alternatives[active], value, assignable, convert);
    }
  }

  // ---------------------------------------------------------------------
  // get_variant_of_unique_types

  function Types<Ty>(members: seq<Member<Ty>>): (r: seq<Ty>)
    ensures |r| == |members| && forall i :: 0 <= i < |members| ==> r[i] == members[i].ty
  {
    if members == [] then [] else [members[0].ty] + Types(members[1..])
  }

  /** The member types with later repeats dropped. */
  function UniqueTypes<Ty(==)>(types: seq<Ty>): (r: seq<Ty>)
  {
    if types == [] then []
    else
      var prefix := UniqueTypes(types[..|types| - 1]);
      if types[|types| - 1] in prefix then prefix else prefix + [types[|types| - 1]]
  }

  /** get_variant_of_unique_types: keeps each type at its first occurrence. */
  method GetVariantOfUniqueTypes<Ty(==)>(types: seq<Ty>) returns (unique: seq<Ty>)
    ensures unique == UniqueTypes(types)
  {
    unique := [];
    var i := 0;
    while i < |types|
      invariant 0 <= i <= |types|
      invariant unique == UniqueTypes(types[..i])
    {
      assert types[..i + 1][..i] == types[..i];
      if types[i] !in unique {
        unique := unique + [types[i]];
      }
      i := i + 1;
    }
    assert types[..|types|] == types;
  }

  /** The position of the first occurrence of x. */
  function FirstIndex<T(==)>(s: seq<T>, x: T): (r: nat)
    requires x in s
    ensures r < |s| && s[r] == x && forall j :: 0 <= j < r ==> s[j] != x
  {
    if s[0] == x then 0 else 1 + FirstIndex(s[1..], x)
  }

  /** The alternatives are distinct, are exactly the member types, and come
      in the order in which each type first occurs. */
  lemma {:induction false} UniqueTypesCorrect<Ty>(types: seq<Ty>)
    ensures var u := UniqueTypes(types);
      && (forall i, j :: 0 <= i < j < |u| ==> u[i] != u[j])
      && (forall t :: t in u <==> t in types)
      && (forall i, j :: 0 <= i < j < |u| ==> FirstIndex(types, u[i]) < FirstIndex(types, u[j]))
  {
    if types != [] {
      var init, last := types[..|types| - 1], types[|types| - 1];
      UniqueTypesCorrect(init);
      var p := UniqueTypes(init);
      assert types == init + [last];
      forall t | t in init
        ensures FirstIndex(types, t) == FirstIndex(init, t)
      {
        FirstIndexPrefix(init, [last], t);
      }
      if last !in p {
        assert last !in init;
        assert FirstIndex(types, last) == |types| - 1 by {
          forall j | 0 <= j < |types| - 1
            ensures types[j] != last
          {
            assert types[j] == init[j];
          }
        }
        var u := p + [last];
        forall i, j | 0 <= i < j < |u|
          ensures FirstIndex(types, u[i]) < FirstIndex(types, u[j])
        {
          if j == |u| - 1 {
            assert u[i] == p[i] && p[i] in p;
            assert FirstIndex(types, u[i]) == FirstIndex(init, u[i]) < |init|;
          } else {
            assert u[i] == p[i] && u[j] == p[j];
          }
        }
      }
    }
  }

  lemma {:induction false} FirstIndexPrefix<T>(a: seq<T>, b: seq<T>, x: T)
    requires x in a
    ensures FirstIndex(a + b, x) == FirstIndex(a, x)
  {
    if a[0] != x {
      assert (a + b)[1..] == a[1..] + b;
      FirstIndexPrefix(a[1..], b, x);
    }
  }

  // ---------------------------------------------------------------------
  // get_by_name

  /** get_by_name: the member called `name`, as its position, or none.
      The const and non-const overloads are the same loop. */
  function GetByName<Ty>(members: seq<Member<Ty>>, name: string): (r: Option<nat>)
    ensures r.Some? ==> r.value < |members| && members[r.value].name == name
    ensures r.None? <==> forall i :: 0 <= i < |members| ==> members[i].name != name
  {
    if members == [] then None
    else if members[0].name == name then Some(0)
    else
      match GetByName(members[1..], name)
      case None => None
      case Some(i) => Some(i + 1)
  }

  /** With distinct names, get_by_name finds the one member with that name. */
  lemma {:induction false} GetByNameUnique<Ty>(members: seq<Member<Ty>>, name: string, i: nat)
    requires UniqueNames(members) && i < |members| && members[i].name == name
    ensures GetByName(members, name) == Some(i)
  {
  }

  /** The alternative of the pointer variant get_by_name returns for member i: its type's position among the unique types. */
  function Alternative<Ty(==)>(members: seq<Member<Ty>>, i: nat): (alt: nat)
    requires i < |members|
    ensures alt < |UniqueTypes(Types(members))| && UniqueTypes(Types(members))[alt] == members[i].ty
  {
    UniqueTypesCorrect(Types(members));
    assert Types(members)[i] == members[i].ty;
    assert members[i].ty in Types(members);
    FirstIndex(UniqueTypes(Types(members)), members[i].ty)
  }
}
