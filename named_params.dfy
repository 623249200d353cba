/** Calling a function with named arguments (src/named_params.cpp).

    A function is the list of its parameters' identifiers. A call supplies
    each argument under a name; get_param_mapping works out, for every
    parameter slot, which argument goes there, and get_tuple_params forwards
    the arguments in slot order. The same mapping loop, with an offset for
    leading positional arguments, is used by src/named_params2.cpp and
    src/named_construct.cpp.

    Argument names are fixed_strings widened to a common size and compared
    through view(); widening keeps the view (FixedString.WidenedView), so
    names here are their views. */
module NamedParams {
  import opened Basics

  /** std::ranges::find over the parameters, projected by identifier_of:
      the first parameter with the name, or the parameter count. */
  function FindParam(params: seq<string>, name: string): (r: nat)
    ensures r <= |params|
    ensures r < |params| ==> params[r] == name
    ensures forall j :: 0 <= j < r ==> params[j] != name
  {
    if params == [] then 0
    else if params[0] == name then 0
    else 1 + FindParam(params[1..], name)
  }

  /** What get_param_mapping leaves behind. Mapped(slots): argument
      slots[j] fills parameter offset + j. The other results do not compile:
      an unknown name (a static_assert, or a nullopt in named_construct), no
      names at all (std::ranges::max of an empty braced list cannot be
      deduced), a slot index past the array, and a slot never written (the
      array is then not a constant). */
  datatype MapResult =
    | Mapped(slots: seq<nat>)
    | UnknownName(name: string)
    | NoNames
    | OutOfRange(name: string)
    | Unset(slot: nat)

  /** The loop of get_param_mapping from the k-th name on, with the slots
      written so far (None: not written). */
  function MapFrom(params: seq<string>, names: seq<string>, offset: nat, k: nat, slots: seq<Option<nat>>): MapResult
    requires k <= |names|
    decreases |names| - k
  {
    if k == |names| then Finish(slots, 0)
    else
      var nameIndex := FindParam(params, names[k]);
      if nameIndex == |params| then UnknownName(names[k])
      // nameIndex - offset is a size_t: below the offset it wraps past every slot
      else if nameIndex < offset || nameIndex - offset >= |slots| then OutOfRange(names[k])
      else MapFrom(params, names, offset, k + 1, slots[nameIndex - offset := Some(k)])
  }

  /** Constant evaluation accepts the array only if every slot was written. */
  function Finish(slots: seq<Option<nat>>, j: nat): (r: MapResult)
    requires j <= |slots|
    ensures r.Mapped? <==> forall i :: j <= i < |slots| ==> slots[i].Some?
    ensures r.Mapped? ==> |r.slots| == |slots| - j && forall i :: j <= i < |slots| ==> r.slots[i - j] == slots[i].value
    ensures r.Unset? ==> j <= r.slot < |slots| && slots[r.slot].None?
    ensures r.Mapped? || r.Unset?
    decreases |slots| - j
  {
    if j == |slots| then Mapped([])
    else if slots[j].None? then Unset(j)
    else
      match Finish(slots, j + 1)
      case Mapped(rest) => Mapped([slots[j].value] + rest)
      case other => other
  }

  /** The fresh std::array: no slot written yet. */
  function Unwritten(n: nat): (r: seq<Option<nat>>)
    ensures |r| == n && forall j :: 0 <= j < n ==> r[j].None?
  {
    seq(n, _ => None)
  }

  function ParamMapping(params: seq<string>, names: seq<string>, offset: nat): MapResult {
    if names == [] then NoNames
    else MapFrom(params, names, offset, 0, Unwritten(|names|))
  }

  /** get_param_mapping: one slot per name; for the k-th name, the slot of
      its parameter (less the offset) receives k. */
  method GetParamMapping(params: seq<string>, names: seq<string>, offset: nat) returns (r: MapResult)
    ensures r == ParamMapping(params, names, offset)
  {
    if names == [] {
      return NoNames;
    }
    var toRet := new Option<nat>[|names|](_ => None);
    assert toRet[..] == Unwritten(|names|);
    var loc := 0;
    while loc < |names|
      invariant 0 <= loc <= |names|
      invariant ParamMapping(params, names, offset) == MapFrom(params, names, offset, loc, toRet[..])
    {
      var nameIndex := FindParam(params, names[loc]);
      if nameIndex == |params| {
        return UnknownName(names[loc]);
      }
      if nameIndex < offset || nameIndex - offset >= toRet.Length {
        return OutOfRange(names[loc]);
      }
      toRet[nameIndex - offset] := Some(loc);
      loc := loc + 1;
    }
    r := Finish(toRet[..], 0);
  }

  // ---------------------------------------------------------------------
  // What a mapping means

  /** Names are distinct. */
  predicate Distinct(names: seq<string>) {
    forall i, j :: 0 <= i < j < |names| ==> names[i] != names[j]
  }

  /** Every name is a parameter in the window offset .. offset + |names|. */
  predicate InWindow(params: seq<string>, names: seq<string>, offset: nat) {
    forall k :: 0 <= k < |names| ==> FoundInWindow(params, names, offset, k)
  }

  predicate FoundInWindow(params: seq<string>, names: seq<string>, offset: nat, k: nat)
    requires k < |names|
  {
    offset <= FindParam(params, names[k]) < offset + |names| && FindParam(params, names[k]) < |params|
  }

  /** The slot the k-th name is written to. */
  function Slot(params: seq<string>, names: seq<string>, offset: nat, k: nat): (r: nat)
    requires InWindow(params, names, offset) && k < |names|
    ensures r < |names| && offset + r < |params| && params[offset + r] == names[k]
  {
    assert FoundInWindow(params, names, offset, k);
    FindParam(params, names[k]) - offset
  }

  /** The slots written by the loop before the k-th name: a written slot
      holds an earlier name found there, and every earlier name's slot is
      written. */
  ghost predicate WrittenUpTo(params: seq<string>, names: seq<string>, offset: nat, k: nat, slots: seq<Option<nat>>)
    requires k <= |names| && InWindow(params, names, offset)
  {
    && |slots| == |names|
    && (forall j :: 0 <= j < |slots| && slots[j].Some? ==>
          slots[j].value < k && Slot(params, names, offset, slots[j].value) == j)
    && (forall k' :: 0 <= k' < k ==> slots[Slot(params, names, offset, k')].Some?)
  }

  /** One turn of the loop when the name is in the window. */
  lemma {:induction false} MapFromStep(params: seq<string>, names: seq<string>, offset: nat, k: nat, slots: seq<Option<nat>>)
    requires k < |names| && InWindow(params, names, offset) && |slots| == |names|
    ensures MapFrom(params, names, offset, k, slots) ==
      MapFrom(params, names, offset, k + 1, slots[Slot(params, names, offset, k) := Some(k)])
  {
  }

  lemma {:induction false} WrittenStep(params: seq<string>, names: seq<string>, offset: nat, k: nat, slots: seq<Option<nat>>)
    requires k < |names| && InWindow(params, names, offset)
    requires WrittenUpTo(params, names, offset, k, slots)
    ensures WrittenUpTo(params, names, offset, k + 1, slots[Slot(params, names, offset, k) := Some(k)])
  {
  }

  /** With every name in the window, the loop ends in Finish: either a
      mapping whose slot j names parameter offset + j, or an unset slot. */
  lemma {:induction false} MapFromMapped(params: seq<string>, names: seq<string>, offset: nat, k: nat, slots: seq<Option<nat>>)
    requires k <= |names| && InWindow(params, names, offset)
    requires WrittenUpTo(params, names, offset, k, slots)
    ensures var r := MapFrom(params, names, offset, k, slots);
      r.Mapped? || r.Unset?
    ensures var r := MapFrom(params, names, offset, k, slots);
      r.Mapped? ==>
        (&& |r.slots| == |names|
         && forall j :: 0 <= j < |names| ==> r.slots[j] < |names| && Slot(params, names, offset, r.slots[j]) == j)
    decreases |names| - k
  {
    if k == |names| {
      var r := Finish(slots, 0);
      if r.Mapped? {
        forall j | 0 <= j < |names|
          ensures r.slots[j] == slots[j].value
        {
          assert r.slots[j - 0] == slots[j].value;
        }
      }
    } else {
      MapFromStep(params, names, offset, k, slots);
      WrittenStep(params, names, offset, k, slots);
      MapFromMapped(params, names, offset, k + 1, slots[Slot(params, names, offset, k) := Some(k)]);
    }
  }

  /** Slot j of m names the argument for parameter offset + j. */
  predicate SlotsName(params: seq<string>, names: seq<string>, offset: nat, m: seq<nat>) {
    && |m| == |names|
    && offset + |names| <= |params|
    && forall j :: 0 <= j < |names| ==> m[j] < |names| && names[m[j]] == params[offset + j]
  }

  lemma {:induction false} MappedSlots(params: seq<string>, names: seq<string>, offset: nat, m: seq<nat>)
    requires names != [] && InWindow(params, names, offset)
    requires ParamMapping(params, names, offset) == Mapped(m)
    ensures SlotsName(params, names, offset, m)
  {
    MapFromMapped(params, names, offset, 0, Unwritten(|names|));
    forall j | 0 <= j < |names|
      ensures m[j] < |names| && offset + j < |params| && names[m[j]] == params[offset + j]
    {
      assert Slot(params, names, offset, m[j]) == j;
    }
    assert m[|names| - 1] < |names|;
  }

  /** A mapping that succeeds has one slot per name, each the index of a name. */
  lemma {:induction false} MappedInRange(params: seq<string>, names: seq<string>, offset: nat)
    ensures var r := ParamMapping(params, names, offset);
      r.Mapped? ==> |r.slots| == |names| && forall j :: 0 <= j < |names| ==> r.slots[j] < |names|
  {
    ParamMappingMeaning(params, names, offset);
  }

  /** A mapping exists exactly when every name is a parameter in the
      window and the names are distinct; slot j then holds the position of
      the argument named after parameter offset + j. */
  lemma {:induction false} ParamMappingMeaning(params: seq<string>, names: seq<string>, offset: nat)
    ensures ParamMapping(params, names, offset).Mapped? <==>
      names != [] && InWindow(params, names, offset) && Distinct(names)
    ensures ParamMapping(params, names, offset).Mapped? ==>
      SlotsName(params, names, offset, ParamMapping(params, names, offset).slots)
  {
    var r := ParamMapping(params, names, offset);
    if names != [] {
      var empty := Unwritten(|names|);
      if InWindow(params, names, offset) {
        MapFromMapped(params, names, offset, 0, empty);
        if Distinct(names) {
          DistinctFillsAll(params, names, offset, 0, empty);
        }
        if r.Mapped? {
          MappedIsDistinct(params, names, offset, r.slots);
          MappedSlots(params, names, offset, r.slots);
        }
      } else {
        MapFromOutside(params, names, offset, 0, empty);
      }
    }
  }

  /** A sequence without repeated elements. */
  predicate Injective(f: seq<nat>) {
    forall i, j :: 0 <= i < j < |f| ==> f[i] != f[j]
  }

  /** n distinct values below n are all the values below n. */
  lemma {:induction false} Onto(f: seq<nat>)
    requires forall i :: 0 <= i < |f| ==> f[i] < |f|
    requires Injective(f)
    ensures forall k: nat :: k < |f| ==> k in f
    decreases |f|, 1
  {
    if |f| > 0 {
      MaxPresent(f);
      var p :| 0 <= p < |f| && f[p] == |f| - 1;
      var g := WithoutMax(f, p);
      Onto(g);
      RestoreMax(f, p, g);
    }
  }

  /** Taking out the largest value leaves n - 1 distinct values below n - 1. */
  lemma {:induction false} WithoutMax(f: seq<nat>, p: nat) returns (g: seq<nat>)
    requires p < |f| && f[p] == |f| - 1
    requires forall i :: 0 <= i < |f| ==> f[i] < |f|
    requires Injective(f)
    ensures g == f[..p] + f[p + 1..]
    ensures forall i :: 0 <= i < |g| ==> g[i] < |g|
    ensures Injective(g)
  {
    g := f[..p] + f[p + 1..];
    assert forall i :: 0 <= i < |g| ==> g[i] == (if i < p then f[i] else f[i + 1]);
    forall i | 0 <= i < |g|
      ensures g[i] < |g|
    {
      if i < p {
        assert f[i] != f[p];
      } else {
        assert f[i + 1] != f[p];
      }
    }
  }

  /** Putting the largest value back covers every value below n. */
  lemma {:induction false} RestoreMax(f: seq<nat>, p: nat, g: seq<nat>)
    requires p < |f| && f[p] == |f| - 1
    requires g == f[..p] + f[p + 1..]
    requires forall k: nat :: k < |g| ==> k in g
    ensures forall k: nat :: k < |f| ==> k in f
  {
    forall k: nat | k < |f|
      ensures k in f
    {
      if k < |f| - 1 {
        assert k in g;
        var i :| 0 <= i < |g| && g[i] == k;
        if i < p {
          assert f[i] == k;
        } else {
          assert f[i + 1] == k;
        }
      }
    }
  }

  /** The largest value below n is among n distinct values below n. */
  lemma {:induction false} MaxPresent(f: seq<nat>)
    requires |f| > 0 && forall i :: 0 <= i < |f| ==> f[i] < |f|
    requires Injective(f)
    ensures |f| - 1 in f
    decreases |f|, 0
  {
    var n := |f|;
    if n - 1 !in f {
      var g := f[..n - 1];
      forall i | 0 <= i < |g|
        ensures g[i] < |g|
      {
        assert g[i] == f[i] && f[i] != n - 1;
      }
      Onto(g);
      Member(g, f[n - 1]);
      assert false;
    }
  }

  lemma {:induction false} Member(g: seq<nat>, x: nat)
    requires forall k: nat :: k < |g| ==> k in g
    requires x < |g|
    ensures x in g
  {
  }

  /** With distinct names every slot is written. */
  lemma {:induction false} DistinctFillsAll(params: seq<string>, names: seq<string>, offset: nat, k: nat, slots: seq<Option<nat>>)
    requires k <= |names| && InWindow(params, names, offset) && Distinct(names)
    requires WrittenUpTo(params, names, offset, k, slots)
    ensures MapFrom(params, names, offset, k, slots).Mapped?
    decreases |names| - k
  {
    if k == |names| {
      var f := seq(|names|, k' requires 0 <= k' < |names| => Slot(params, names, offset, k'));
      assert Injective(f) by {
        forall i, j | 0 <= i < j < |f|
          ensures f[i] != f[j]
        {
          assert params[offset + f[i]] == names[i];
          assert params[offset + f[j]] == names[j];
        }
      }
      Onto(f);
      forall j | 0 <= j < |slots|
        ensures slots[j].Some?
      {
        assert j in f;
        var k' :| 0 <= k' < |f| && f[k'] == j;
        assert slots[Slot(params, names, offset, k')].Some?;
      }
    } else {
      MapFromStep(params, names, offset, k, slots);
      WrittenStep(params, names, offset, k, slots);
      DistinctFillsAll(params, names, offset, k + 1, slots[Slot(params, names, offset, k) := Some(k)]);
    }
  }

  /** A name outside the window never yields a mapping. */
  lemma {:induction false} MapFromOutside(params: seq<string>, names: seq<string>, offset: nat, k: nat, slots: seq<Option<nat>>)
    requires k <= |names| && |slots| == |names|
    requires exists k' :: k <= k' < |names| && !FoundInWindow(params, names, offset, k')
    ensures !MapFrom(params, names, offset, k, slots).Mapped?
    decreases |names| - k
  {
    var nameIndex := FindParam(params, names[k]);
    if !(nameIndex == |params| || nameIndex < offset || nameIndex - offset >= |slots|) {
      assert FoundInWindow(params, names, offset, k);
      MapFromOutside(params, names, offset, k + 1, slots[nameIndex - offset := Some(k)]);
    }
  }

  /** Name u is the first name that stops the loop, and it stops it
      because it is not a parameter at all: every earlier name is a
      parameter in the window. */
  predicate FirstUnknown(params: seq<string>, names: seq<string>, offset: nat, u: nat) {
    && u < |names| && names[u] !in params
    && forall j :: 0 <= j < u ==> FoundInWindow(params, names, offset, j)
  }

  /** get_param_mapping gives UnknownName exactly when the first name that
      stops its loop is not a parameter, and it names that name. */
  lemma {:induction false} UnknownNameMeaning(params: seq<string>, names: seq<string>, offset: nat)
    ensures forall u: nat :: FirstUnknown(params, names, offset, u) ==>
      ParamMapping(params, names, offset) == UnknownName(names[u])
    ensures ParamMapping(params, names, offset).UnknownName? ==>
      exists u: nat :: FirstUnknown(params, names, offset, u) && names[u] == ParamMapping(params, names, offset).name
  {
    forall u: nat | FirstUnknown(params, names, offset, u)
      ensures ParamMapping(params, names, offset) == UnknownName(names[u])
    {
      MapFromUnknown(params, names, offset, 0, Unwritten(|names|), u);
    }
    if ParamMapping(params, names, offset).UnknownName? {
      var u := MapFromUnknownAt(params, names, offset, 0, Unwritten(|names|));
      assert FirstUnknown(params, names, offset, u);
    }
  }

  /** The loop from k on stops at the unknown name u when the names
      before it are in the window. */
  lemma {:induction false} MapFromUnknown(params: seq<string>, names: seq<string>, offset: nat, k: nat,
                                          slots: seq<Option<nat>>, u: nat)
    requires k <= u < |names| && |slots| == |names| && names[u] !in params
    requires forall j :: k <= j < u ==> FoundInWindow(params, names, offset, j)
    ensures MapFrom(params, names, offset, k, slots) == UnknownName(names[u])
    decreases u - k
  {
    var nameIndex := FindParam(params, names[k]);
    if k < u {
      assert FoundInWindow(params, names, offset, k);
      MapFromUnknown(params, names, offset, k + 1, slots[nameIndex - offset := Some(k)], u);
    }
  }

  /** An UnknownName from the loop names the first name that stops it. */
  lemma {:induction false} MapFromUnknownAt(params: seq<string>, names: seq<string>, offset: nat, k: nat,
                                            slots: seq<Option<nat>>) returns (u: nat)
    requires k <= |names| && |slots| == |names|
    requires MapFrom(params, names, offset, k, slots).UnknownName?
    ensures k <= u < |names| && names[u] !in params && names[u] == MapFrom(params, names, offset, k, slots).name
    ensures forall j :: k <= j < u ==> FoundInWindow(params, names, offset, j)
    decreases |names| - k
  {
    var nameIndex := FindParam(params, names[k]);
    if nameIndex == |params| {
      u := k;
    } else {
      assert FoundInWindow(params, names, offset, k);
      u := MapFromUnknownAt(params, names, offset, k + 1, slots[nameIndex - offset := Some(k)]);
    }
  }

  /** Every name of a mapped call is in the window, and two equal names
      would need one slot twice. */
  lemma {:induction false} MappedIsDistinct(params: seq<string>, names: seq<string>, offset: nat, m: seq<nat>)
    requires ParamMapping(params, names, offset) == Mapped(m)
    ensures InWindow(params, names, offset) && Distinct(names)
  {
    var empty := Unwritten(|names|);
    if !InWindow(params, names, offset) {
      MapFromOutside(params, names, offset, 0, empty);
    }
    MapFromMapped(params, names, offset, 0, empty);
    Onto(m);
    forall a, b | 0 <= a < b < |names|
      ensures names[a] != names[b]
    {
      assert a in m && b in m;
      var ja :| 0 <= ja < |m| && m[ja] == a;
      var jb :| 0 <= jb < |m| && m[jb] == b;
    }
  }

  // ---------------------------------------------------------------------
  // get_tuple_params and call_with_param_names

  /** get_tuple_params: the I-th forwarded argument is args[mapping[I]]. */
  function TupleParams<V>(mapping: seq<nat>, args: seq<V>): (r: seq<V>)
    requires forall i :: 0 <= i < |mapping| ==> mapping[i] < |args|
    ensures |r| == |mapping| && forall i :: 0 <= i < |mapping| ==> r[i] == args[mapping[i]]
  {
    seq(|mapping|, i requires 0 <= i < |mapping| => args[mapping[i]])
  }

  /** A named argument: param<"name">(value). */
  datatype Named<V> = Named(name: string, value: V)

  function Names<V>(args: seq<Named<V>>): (r: seq<string>)
    ensures |r| == |args| && forall i :: 0 <= i < |args| ==> r[i] == args[i].name
  {
    seq(|args|, i requires 0 <= i < |args| => args[i].name)
  }

  function Values<V>(args: seq<Named<V>>): (r: seq<V>)
    ensures |r| == |args| && forall i :: 0 <= i < |args| ==> r[i] == args[i].value
  {
    seq(|args|, i requires 0 <= i < |args| => args[i].value)
  }

  /** The arguments the function is applied to, or why the call does not compile. */
  datatype CallOutcome<V> = Calls(arguments: seq<V>) | DoesNotCompile(why: MapResult)

  /** all_params_have_identifiers (and its twin
      all_params_have_consistent_identifiers): a loop that fails at the
      first parameter without a name. */
  method AllParamsHaveIdentifiers(params: seq<Option<string>>) returns (r: bool)
    ensures r <==> forall i :: 0 <= i < |params| ==> params[i].Some?
  {
    for i := 0 to |params|
      invariant forall j :: 0 <= j < i ==> params[j].Some?
    {
      if params[i].None? {
        return false;
      }
    }
    return true;
  }

  function Identifiers(params: seq<Option<string>>): (r: seq<string>)
    requires forall i :: 0 <= i < |params| ==> params[i].Some?
    ensures |r| == |params| && forall i :: 0 <= i < |params| ==> r[i] == params[i].value
  {
    seq(|params|, i requires 0 <= i < |params| => params[i].value)
  }

  /** call_with_param_names: the requires clause wants every parameter
      named; a static_assert wants one argument per parameter, besides the
      object of a member function. The object goes first, then the named
      arguments in parameter order. */
  function CallWithParamNames<V>(params: seq<Option<string>>, self: Option<V>, args: seq<Named<V>>): (r: CallOutcome<V>)
    requires forall i :: 0 <= i < |params| ==> params[i].Some?
    requires |args| == |params|
  {
    match ParamMapping(Identifiers(params), Names(args), 0)
    case Mapped(m) =>
      MappedInRange(Identifiers(params), Names(args), 0);
      var tuple := TupleParams(m, Values(args));
      Calls(if self.Some? then [self.value] + tuple else tuple)
    case other => DoesNotCompile(other)
  }

  /** Parameter j receives x: x is the value of an argument named after it. */
  ghost predicate Receives<V>(params: seq<Option<string>>, args: seq<Named<V>>, j: nat, x: V)
    requires j < |params|
  {
    exists k :: 0 <= k < |args| && params[j] == Some(args[k].name) && x == args[k].value
  }

  /** Every parameter receives the value at its own place in xs. */
  ghost predicate ReceivesAll<V>(params: seq<Option<string>>, args: seq<Named<V>>, xs: seq<V>) {
    |xs| == |params| && forall j :: 0 <= j < |params| ==> Receives(params, args, j, xs[j])
  }

  /** When the argument names are a permutation of the parameter names,
      the object goes first and each parameter receives the argument named
      after it. */
  lemma {:induction false} CallPermutation<V>(params: seq<Option<string>>, self: Option<V>, args: seq<Named<V>>)
    requires forall i :: 0 <= i < |params| ==> params[i].Some?
    requires |args| == |params| && |args| > 0
    requires Distinct(Names(args))
    requires forall k :: 0 <= k < |args| ==> args[k].name in Identifiers(params)
    ensures CallWithParamNames(params, self, args).Calls?
    ensures |CallWithParamNames(params, self, args).arguments| == |params| + (if self.Some? then 1 else 0)
    ensures self.Some? ==> CallWithParamNames(params, self, args).arguments[0] == self.value
    ensures ReceivesAll(params, args, CallWithParamNames(params, self, args).arguments[(if self.Some? then 1 else 0)..])
  {
    var m, tuple := CallMapped(params, self, args);
    ArgumentsNamed(params, args, m, tuple);
    ObjectFirst(params, self, args, tuple, CallWithParamNames(params, self, args));
  }

  /** Putting the object first leaves the tuple after it. */
  lemma {:induction false} ObjectFirst<V>(params: seq<Option<string>>, self: Option<V>, args: seq<Named<V>>, tuple: seq<V>, r: CallOutcome<V>)
    requires ReceivesAll(params, args, tuple)
    requires r == Calls(if self.Some? then [self.value] + tuple else tuple)
    ensures r.Calls?
    ensures |r.arguments| == |params| + (if self.Some? then 1 else 0)
    ensures self.Some? ==> r.arguments[0] == self.value
    ensures ReceivesAll(params, args, r.arguments[(if self.Some? then 1 else 0)..])
  {
    assert r.arguments[(if self.Some? then 1 else 0)..] == tuple;
  }

  /** Under the same requirements the mapping succeeds, and the call
      applies the tuple it builds. */
  lemma {:induction false} CallMapped<V>(params: seq<Option<string>>, self: Option<V>, args: seq<Named<V>>)
    returns (m: seq<nat>, tuple: seq<V>)
    requires forall i :: 0 <= i < |params| ==> params[i].Some?
    requires |args| == |params| && |args| > 0
    requires Distinct(Names(args))
    requires forall k :: 0 <= k < |args| ==> args[k].name in Identifiers(params)
    ensures SlotsName(Identifiers(params), Names(args), 0, m)
    ensures tuple == TupleParams(m, Values(args))
    ensures CallWithParamNames(params, self, args) == Calls(if self.Some? then [self.value] + tuple else tuple)
  {
    var ids := Identifiers(params);
    var names := Names(args);
    NamesFound(ids, names);
    ParamMappingMeaning(ids, names, 0);
    assert ParamMapping(ids, names, 0).Mapped?;
    m := ParamMapping(ids, names, 0).slots;
    assert SlotsName(ids, names, 0, m);
    tuple := TupleParams(m, Values(args));
  }

  /** The tuple a mapping that names every slot builds gives each
      parameter the argument named after it. */
  lemma {:induction false} ArgumentsNamed<V>(params: seq<Option<string>>, args: seq<Named<V>>, m: seq<nat>, tuple: seq<V>)
    requires forall i :: 0 <= i < |params| ==> params[i].Some?
    requires |args| == |params| && SlotsName(Identifiers(params), Names(args), 0, m)
    requires tuple == TupleParams(m, Values(args))
    ensures ReceivesAll(params, args, tuple)
  {
    var ids := Identifiers(params);
    var names := Names(args);
    forall j | 0 <= j < |params|
      ensures Receives(params, args, j, tuple[j])
    {
      var k := m[j];
      assert k < |names| && names[k] == ids[j];
      assert params[j] == Some(args[k].name) && tuple[j] == args[k].value;
    }
  }

  /** Names that are all among as many parameters lie in the window. */
  lemma {:induction false} NamesFound(ids: seq<string>, names: seq<string>)
    requires |names| == |ids|
    requires forall k :: 0 <= k < |names| ==> names[k] in ids
    ensures InWindow(ids, names, 0)
  {
    forall k | 0 <= k < |names|
      ensures FindParam(ids, names[k]) < |ids|
    {
      var p :| 0 <= p < |ids| && ids[p] == names[k];
    }
  }

  // ---------------------------------------------------------------------
  // The calls of main

  /** The arguments main passes: ints, a unique_ptr (by its pointee) and
      the objects of member calls (by their type). */
  datatype Value = Int(i: int) | Ptr(pointee: int) | Object(typeName: string)

  /** test(a, b, see, ptr), s::func2(b, c) and s::func(x). */
  const TestParams: seq<Option<string>> := [Some("a"), Some("b"), Some("see"), Some("ptr")]
  const Func2Params: seq<Option<string>> := [Some("b"), Some("c")]
  const FuncParams: seq<Option<string>> := [Some("x")]

  /** test gets a = 1, b = 2, see = 3 and the pointer, whatever the order
      of the named arguments. */
  lemma {:induction false} TestCall()
    ensures CallWithParamNames(TestParams, None,
              [Named("see", Int(3)), Named("a", Int(1)), Named("ptr", Ptr(3)), Named("b", Int(2))])
            == Calls([Int(1), Int(2), Int(3), Ptr(3)])
  {
    var args := [Named("see", Int(3)), Named("a", Int(1)), Named("ptr", Ptr(3)), Named("b", Int(2))];
    var ids := Identifiers(TestParams);
    assert ids == ["a", "b", "see", "ptr"];
    assert Names(args) == ["see", "a", "ptr", "b"];
    FindsOfTest(ids);
    MappingOfTest(ids, Names(args));
    TupleOfTest(args);
  }

  lemma {:induction false} FindsOfTest(ids: seq<string>)
    requires ids == ["a", "b", "see", "ptr"]
    ensures FindParam(ids, "see") == 2 && FindParam(ids, "a") == 0
    ensures FindParam(ids, "ptr") == 3 && FindParam(ids, "b") == 1
  {
    assert ids[1..] == ["b", "see", "ptr"] && ids[1..][1..] == ["see", "ptr"] && ids[1..][1..][1..] == ["ptr"];
    assert FindParam(ids[1..][1..], "ptr") == 1;
    assert FindParam(ids[1..][1..], "see") == 0;
  }

  lemma {:induction false} MappingOfTest(ids: seq<string>, names: seq<string>)
    requires ids == ["a", "b", "see", "ptr"] && names == ["see", "a", "ptr", "b"]
    requires FindParam(ids, "see") == 2 && FindParam(ids, "a") == 0
    requires FindParam(ids, "ptr") == 3 && FindParam(ids, "b") == 1
    ensures ParamMapping(ids, names, 0) == Mapped([1, 3, 0, 2])
  {
    ParamMappingMeaning(ids, names, 0);
    var m := ParamMapping(ids, names, 0).slots;
    assert names[m[0]] == "a" && names[m[1]] == "b" && names[m[2]] == "see" && names[m[3]] == "ptr";
  }

  lemma {:induction false} TupleOfTest(args: seq<Named<Value>>)
    requires args == [Named("see", Int(3)), Named("a", Int(1)), Named("ptr", Ptr(3)), Named("b", Int(2))]
    ensures TupleParams([1, 3, 0, 2], Values(args)) == [Int(1), Int(2), Int(3), Ptr(3)]
  {
  }

  /** s::func2 gets b = 5, c = 10. */
  lemma {:induction false} Func2Call()
    ensures CallWithParamNames(Func2Params, None, [Named("c", Int(10)), Named("b", Int(5))])
            == Calls([Int(5), Int(10)])
  {
    assert Identifiers(Func2Params) == ["b", "c"];
    assert FindParam(["b", "c"], "c") == 1 && FindParam(["b", "c"], "b") == 0;
    ParamMappingMeaning(["b", "c"], ["c", "b"], 0);
    assert ParamMapping(["b", "c"], ["c", "b"], 0).slots == [1, 0];
  }

  /** s::func gets its object first, of the class or of a class derived
      from it. */
  lemma {:induction false} MemberCalls()
    ensures CallWithParamNames(FuncParams, Some(Object("s")), [Named("x", Int(40))])
            == Calls([Object("s"), Int(40)])
    ensures CallWithParamNames(FuncParams, Some(Object("derived")), [Named("x", Int(20))])
            == Calls([Object("derived"), Int(20)])
  {
    assert Identifiers(FuncParams) == ["x"];
    ParamMappingMeaning(["x"], ["x"], 0);
  }

  /** Two arguments under one name: the later one overwrites the slot of
      the earlier, another slot is never written, and the call does not
      compile. */
  lemma {:induction false} DuplicateNameLeavesSlotUnset()
    ensures CallWithParamNames(Func2Params, None, [Named("b", Int(1)), Named("b", Int(2))])
            == DoesNotCompile(Unset(1))
  {
    assert Identifiers(Func2Params) == ["b", "c"];
    var params, names := ["b", "c"], ["b", "b"];
    assert FindParam(params, "b") == 0;
    var s0, s1, s2: seq<Option<nat>> := [None, None], [Some(0), None], [Some(1), None];
    assert Unwritten(2) == s0;
    assert s0[0 := Some(0)] == s1 && s1[0 := Some(1)] == s2;
    assert MapFrom(params, names, 0, 0, s0) == MapFrom(params, names, 0, 1, s1);
    assert MapFrom(params, names, 0, 1, s1) == MapFrom(params, names, 0, 2, s2);
    assert ParamMapping(params, names, 0) == Unset(1);
  }

  /** A name that is not a parameter fails the static_assert; a function
      without parameters fails on the maximum of no name sizes. */
  lemma {:induction false} RejectedCalls()
    ensures CallWithParamNames(Func2Params, None, [Named("b", Int(1)), Named("d", Int(2))])
            == DoesNotCompile(UnknownName("d"))
    ensures CallWithParamNames<Value>([], None, []) == DoesNotCompile(NoNames)
  {
    assert Identifiers(Func2Params) == ["b", "c"];
    var params, names := ["b", "c"], ["b", "d"];
    assert params[1..] == ["c"] && params[1..][1..] == [];
    assert FindParam(params, "b") == 0 && FindParam(params, "d") == 2;
    var s0, s1: seq<Option<nat>> := [None, None], [Some(0), None];
    assert Unwritten(2) == s0;
    assert s0[0 := Some(0)] == s1;
    assert MapFrom(params, names, 0, 0, s0) == MapFrom(params, names, 0, 1, s1);
    assert ParamMapping(params, names, 0) == UnknownName("d");
  }
}
