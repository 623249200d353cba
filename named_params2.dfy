/** Named arguments after positional ones (src/named_params2.cpp).

    A call lists positional arguments first and then named ones. The
    positional arguments fill the first parameters in order; the named ones
    must name the remaining parameters, and get_param_mapping maps them with
    the count of positional arguments as its offset. The same assembly
    builds the arguments of the one constructor annotated as the named
    constructor (named_construct). */
module NamedParams2 {
  import opened Basics
  import NamedParams

  /** An argument: a plain value, or param<"name">(value). */
  datatype Arg<V> = Positional(value: V) | Param(name: string, value: V)

  // ---------------------------------------------------------------------
  // The is_named positions

  /** first_named_param: the first named argument, or the argument count. */
  function FirstNamed<V>(args: seq<Arg<V>>): (r: nat)
    ensures r <= |args|
    ensures forall i :: 0 <= i < r ==> args[i].Positional?
    ensures r < |args| ==> args[r].Param?
  {
    if args == [] then 0
    else if args[0].Param? then 0
    else 1 + FirstNamed(args[1..])
  }

  /** last_value_param: one past the last positional argument, or 0. */
  function LastPositional<V>(args: seq<Arg<V>>): (r: nat)
    ensures r <= |args|
    ensures forall i :: r <= i < |args| ==> args[i].Param?
    ensures r > 0 ==> args[r - 1].Positional?
  {
    if args == [] then 0
    else if args[|args| - 1].Positional? then |args|
    else LastPositional(args[..|args| - 1])
  }

  /** last_named_param: one past the last named argument, or 0. */
  function LastNamed<V>(args: seq<Arg<V>>): (r: nat)
    ensures r <= |args|
    ensures forall i :: r <= i < |args| ==> args[i].Positional?
    ensures r > 0 ==> args[r - 1].Param?
  {
    if args == [] then 0
    else if args[|args| - 1].Param? then |args|
    else LastNamed(args[..|args| - 1])
  }

  /** No positional argument follows a named one. */
  predicate PositionalFirst<V>(args: seq<Arg<V>>) {
    forall i, j :: 0 <= i < j < |args| && args[i].Param? ==> args[j].Param?
  }

  /** The static_assert first_named_param >= last_value_param holds exactly
      when no positional argument follows a named one. */
  lemma {:induction false} OrderCheckMeaning<V>(args: seq<Arg<V>>)
    ensures FirstNamed(args) >= LastPositional(args) <==> PositionalFirst(args)
  {
    var p, q := FirstNamed(args), LastPositional(args);
    if p < q {
      assert args[p].Param? && args[q - 1].Positional?;
    }
  }

  // ---------------------------------------------------------------------
  // make_index_seq

  /** low, low + 1, ..., high - 1; nothing when high <= low. */
  function IndexRange(low: nat, high: nat): (r: seq<nat>)
    ensures |r| == (if low <= high then high - low else 0)
    ensures forall i :: 0 <= i < |r| ==> r[i] == low + i
  {
    if low < high then seq(high - low, i requires 0 <= i < high - low => low + i) else []
  }

  /** make_index_seq_impl: the loop that pushes low .. high. */
  method MakeIndexSeq(low: nat, high: nat) returns (indices: seq<nat>)
    ensures indices == IndexRange(low, high)
  {
    indices := [];
    var i := low;
    while i < high
      invariant low <= i && (i <= high || i == low)
      invariant |indices| == i - low && forall k :: 0 <= k < |indices| ==> indices[k] == low + k
    {
      indices := indices + [i];
      i := i + 1;
    }
  }

  // ---------------------------------------------------------------------
  // Assembling the arguments

  /** The arguments the callable is applied to, or why the call does not
      compile. */
  datatype Outcome<V> =
    | Calls(arguments: seq<V>)
    | OutOfOrder
    | NotOneNamedConstructor(count: nat)
    | WrongArgCount(given: nat, expected: nat)
    | DoesNotCompile(why: NamedParams.MapResult)

  /** get_value_params over make_index_sequence<last_value_param>. */
  function PositionalValues<V>(args: seq<Arg<V>>): (r: seq<V>)
    ensures |r| == LastPositional(args)
    ensures forall i :: 0 <= i < |r| ==> r[i] == args[i].value
  {
    seq(LastPositional(args), i requires 0 <= i < LastPositional(args) => args[i].value)
  }

  /** The arguments get_named_params sees: those at
      make_index_seq<first_named_param, last_named_param>. */
  function NamedArgs<V>(args: seq<Arg<V>>): (r: seq<Arg<V>>)
    ensures var idx := IndexRange(FirstNamed(args), LastNamed(args));
      |r| == |idx| && forall i :: 0 <= i < |r| ==> idx[i] < |args| && r[i] == args[idx[i]]
  {
    var idx := IndexRange(FirstNamed(args), LastNamed(args));
    seq(|idx|, i requires 0 <= i < |idx| => args[idx[i]])
  }

  /** When positional arguments come first, the named arguments are all
      those from first_named_param on. */
  lemma {:induction false} NamedArgsAreTheRest<V>(args: seq<Arg<V>>)
    requires PositionalFirst(args)
    ensures FirstNamed(args) < |args| ==> NamedArgs(args) == args[FirstNamed(args)..]
    ensures FirstNamed(args) == |args| ==> NamedArgs(args) == []
    ensures forall i :: 0 <= i < |NamedArgs(args)| ==> NamedArgs(args)[i].Param?
  {
    var p := FirstNamed(args);
    if p < |args| {
      LastNamedOfOrdered(args);
      NamedArgsFrom(args, p);
    }
  }

  /** The last argument of an ordered call with a named one is named. */
  lemma {:induction false} LastNamedOfOrdered<V>(args: seq<Arg<V>>)
    requires PositionalFirst(args) && FirstNamed(args) < |args|
    ensures LastNamed(args) == |args|
  {
    var p := FirstNamed(args);
    assert args[p].Param?;
    assert args[|args| - 1].Param?;
  }

  lemma {:induction false} NamedArgsFrom<V>(args: seq<Arg<V>>, p: nat)
    requires PositionalFirst(args) && p == FirstNamed(args) < |args| && LastNamed(args) == |args|
    ensures NamedArgs(args) == args[p..]
    ensures forall i :: 0 <= i < |NamedArgs(args)| ==> NamedArgs(args)[i].Param?
  {
    var r := NamedArgs(args);
    assert |r| == |args| - p;
    forall i | 0 <= i < |r|
      ensures r[i] == args[p + i] && r[i].Param?
    {
      assert args[p].Param?;
    }
  }

  lemma {:induction false} NamedArgAt<V>(args: seq<Arg<V>>, k: nat)
    requires PositionalFirst(args) && FirstNamed(args) <= k < |args|
    ensures |NamedArgs(args)| == |args| - FirstNamed(args)
    ensures NamedArgs(args)[k - FirstNamed(args)] == args[k]
    ensures forall i :: 0 <= i < |NamedArgs(args)| ==> NamedArgs(args)[i].Param?
    ensures ParamNames(NamedArgs(args))[k - FirstNamed(args)] == args[k].name
  {
    var p := FirstNamed(args);
    NamedArgsAreTheRest(args);
    assert p < |args| && NamedArgs(args) == args[p..];
    RestAt(args, p, NamedArgs(args), k);
  }

  /** The k-th argument is at k - p among the arguments from p on. */
  lemma {:induction false} RestAt<V>(args: seq<Arg<V>>, p: nat, named: seq<Arg<V>>, k: nat)
    requires p <= k < |args| && named == args[p..]
    requires forall i :: 0 <= i < |named| ==> named[i].Param?
    ensures |named| == |args| - p
    ensures named[k - p] == args[k]
    ensures forall i :: 0 <= i < |named| ==> named[i].Param?
    ensures ParamNames(named)[k - p] == args[k].name
  {
    assert named[k - p] == args[k];
  }

  function ParamNames<V>(named: seq<Arg<V>>): (r: seq<string>)
    requires forall i :: 0 <= i < |named| ==> named[i].Param?
    ensures |r| == |named| && forall i :: 0 <= i < |named| ==> r[i] == named[i].name
  {
    seq(|named|, i requires 0 <= i < |named| => named[i].name)
  }

  function ArgValues<V>(named: seq<Arg<V>>): (r: seq<V>)
    ensures |r| == |named| && forall i :: 0 <= i < |named| ==> r[i] == named[i].value
  {
    seq(|named|, i requires 0 <= i < |named| => named[i].value)
  }

  /** The body of call_with_param_names_impl and named_construct after the
      order check: prefix (the object, if any), then the positional values,
      then the named ones in parameter order. */
  function Assemble<V>(params: seq<string>, prefix: seq<V>, args: seq<Arg<V>>): (r: Outcome<V>)
    requires PositionalFirst(args)
    ensures r.Calls? || r.DoesNotCompile?
  {
    NamedArgsAreTheRest(args);
    var named := NamedArgs(args);
    match NamedParams.ParamMapping(params, ParamNames(named), FirstNamed(args))
    case Mapped(m) =>
      NamedParams.MappedInRange(params, ParamNames(named), FirstNamed(args));
      Calls(prefix + PositionalValues(args) + NamedParams.TupleParams(m, ArgValues(named)))
    case other => DoesNotCompile(other)
  }

  /** call_with_param_names: one argument per parameter besides the object
      of a member function (a static_assert), positional arguments first
      (another), then the assembled call. */
  function CallWithParamNames<V>(params: seq<string>, self: Option<V>, args: seq<Arg<V>>): Outcome<V> {
    if |args| != |params| then WrongArgCount(|args|, |params|)
    else if FirstNamed(args) < LastPositional(args) then OutOfOrder
    else
      OrderCheckMeaning(args);
      Assemble(params, if self.Some? then [self.value] else [], args)
  }

  /** The named arguments name exactly the parameters after the positional
      ones, each once. */
  predicate NamesTheRest<V>(params: seq<string>, args: seq<Arg<V>>)
    requires PositionalFirst(args)
  {
    NamedArgsAreTheRest(args);
    var named := NamedArgs(args);
    && named != []
    && NamedParams.InWindow(params, ParamNames(named), FirstNamed(args))
    && NamedParams.Distinct(ParamNames(named))
  }

  /** Parameter j receives, at position at + j of the arguments, the value
      of a named argument (from position p on) that bears its name. */
  ghost predicate ReceivesNamed<V>(params: seq<string>, args: seq<Arg<V>>, arguments: seq<V>, at: nat, p: nat, j: nat) {
    && j < |params|
    && at + j < |arguments|
    && exists k :: p <= k < |args| && args[k].Param? && args[k].name == params[j] && arguments[at + j] == args[k].value
  }

  /** Assemble succeeds exactly when the named arguments name the remaining
      parameters, each once; the p positional values then fill the first p
      parameters and every later parameter receives the argument named
      after it. */
  lemma {:induction false} AssembleMeaning<V>(params: seq<string>, prefix: seq<V>, args: seq<Arg<V>>)
    requires PositionalFirst(args)
    ensures Assemble(params, prefix, args).Calls? <==> NamesTheRest(params, args)
    ensures var r := Assemble(params, prefix, args);
      r.Calls? ==>
        (&& |r.arguments| == |prefix| + |args|
         && r.arguments[..|prefix|] == prefix
         && (forall j :: 0 <= j < FirstNamed(args) ==> r.arguments[|prefix| + j] == args[j].value)
         && (forall j :: FirstNamed(args) <= j < |args| ==>
              ReceivesNamed(params, args, r.arguments, |prefix|, FirstNamed(args), j)))
  {
    AssembleCallsIff(params, prefix, args);
    if Assemble(params, prefix, args).Calls? {
      AssembleCalls(params, prefix, args);
    }
  }

  lemma {:induction false} AssembleCallsIff<V>(params: seq<string>, prefix: seq<V>, args: seq<Arg<V>>)
    requires PositionalFirst(args)
    ensures Assemble(params, prefix, args).Calls? <==> NamesTheRest(params, args)
  {
    NamedArgsAreTheRest(args);
    var names := ParamNames(NamedArgs(args));
    NamedParams.ParamMappingMeaning(params, names, FirstNamed(args));
    assert Assemble(params, prefix, args).Calls? <==> NamedParams.ParamMapping(params, names, FirstNamed(args)).Mapped?;
  }

  lemma {:induction false} LastPositionalOfOrdered<V>(args: seq<Arg<V>>)
    requires PositionalFirst(args) && FirstNamed(args) < |args|
    ensures LastPositional(args) == FirstNamed(args)
  {
    var p := FirstNamed(args);
    var l := LastPositional(args);
    assert args[p].Param?;
    assert l > 0 ==> args[l - 1].Positional?;
    assert p > 0 ==> args[p - 1].Positional?;
  }

  /** What a successful assembly passes. */
  lemma {:induction false} AssembleCalls<V>(params: seq<string>, prefix: seq<V>, args: seq<Arg<V>>)
    requires PositionalFirst(args) && Assemble(params, prefix, args).Calls?
    ensures var r := Assemble(params, prefix, args);
      && |r.arguments| == |prefix| + |args|
      && r.arguments[..|prefix|] == prefix
      && (forall j :: 0 <= j < FirstNamed(args) ==> r.arguments[|prefix| + j] == args[j].value)
      && (forall j :: FirstNamed(args) <= j < |args| ==>
            ReceivesNamed(params, args, r.arguments, |prefix|, FirstNamed(args), j))
  {
    NamedArgsAreTheRest(args);
    var p := FirstNamed(args);
    var named := NamedArgs(args);
    var names := ParamNames(named);
    NamedParams.ParamMappingMeaning(params, names, p);
    assert NamedParams.ParamMapping(params, names, p).Mapped?;
    var m := NamedParams.ParamMapping(params, names, p).slots;
    assert NamedParams.SlotsName(params, names, p, m);
    var tuple := NamedParams.TupleParams(m, ArgValues(named));
    var positional := PositionalValues(args);
    assert Assemble(params, prefix, args) == Calls(prefix + positional + tuple);
    LastPositionalOfOrdered(args);
    assert named == args[p..];
    forall i | 0 <= i < |m|
      ensures p + i < |params| && p + m[i] < |args| && args[p + m[i]].Param? &&
        args[p + m[i]].name == params[p + i] && tuple[i] == args[p + m[i]].value
    {
      assert m[i] < |names| && p + i < |params| && names[m[i]] == params[p + i];
      NamedSlot(params, args, p, named, names, m, i);
    }
    Shape(params, args, p, prefix, positional, tuple, m, prefix + positional + tuple);
  }

  lemma {:induction false} NamedSlot<V>(params: seq<string>, args: seq<Arg<V>>, p: nat, named: seq<Arg<V>>, names: seq<string>, m: seq<nat>, i: nat)
    requires p <= |args| && named == args[p..] && forall k :: 0 <= k < |named| ==> named[k].Param?
    requires names == ParamNames(named)
    requires |m| == |names| && i < |m| && forall j :: 0 <= j < |m| ==> m[j] < |names|
    requires p + i < |params| && names[m[i]] == params[p + i]
    ensures args[p + m[i]].Param? && args[p + m[i]].name == params[p + i]
    ensures NamedParams.TupleParams(m, ArgValues(named))[i] == args[p + m[i]].value
  {
  }

  /** The layout prefix + positional + tuple, slot by slot. */
  lemma {:induction false} Shape<V>(params: seq<string>, args: seq<Arg<V>>, p: nat, prefix: seq<V>, positional: seq<V>, tuple: seq<V>, m: seq<nat>,
                 arguments: seq<V>)
    requires arguments == prefix + positional + tuple
    requires p <= |args| && |positional| == p && forall i :: 0 <= i < p ==> positional[i] == args[i].value
    requires |tuple| == |args| - p && |m| == |tuple|
    requires forall i :: 0 <= i < |m| ==>
      p + i < |params| && p + m[i] < |args| && args[p + m[i]].Param? &&
      args[p + m[i]].name == params[p + i] && tuple[i] == args[p + m[i]].value
    ensures && |arguments| == |prefix| + |args|
      && arguments[..|prefix|] == prefix
      && (forall j :: 0 <= j < p ==> arguments[|prefix| + j] == args[j].value)
      && (forall j :: p <= j < |args| ==> ReceivesNamed(params, args, arguments, |prefix|, p, j))
  {
    forall j | p <= j < |args|
      ensures ReceivesNamed(params, args, arguments, |prefix|, p, j)
    {
      var k := p + m[j - p];
      assert arguments[|prefix| + j] == tuple[j - p];
    }
    assert arguments[..|prefix|] == prefix;
    forall j | 0 <= j < p
      ensures arguments[|prefix| + j] == args[j].value
    {
      assert arguments[|prefix| + j] == positional[j];
    }
  }

  /** The static_asserts and the assembly together: a call compiles exactly
      when positional arguments come first and the named ones name the
      remaining parameters, each once. */
  lemma {:induction false} CallMeaning<V>(params: seq<string>, self: Option<V>, args: seq<Arg<V>>)
    ensures CallWithParamNames(params, self, args).WrongArgCount? <==> |args| != |params|
    ensures CallWithParamNames(params, self, args).Calls? <==>
      |args| == |params| && PositionalFirst(args) && NamesTheRest(params, args)
    ensures CallWithParamNames(params, self, args).OutOfOrder? <==>
      |args| == |params| && !PositionalFirst(args)
  {
    OrderCheckMeaning(args);
    if PositionalFirst(args) {
      AssembleMeaning(params, if self.Some? then [self.value] else [], args);
    }
  }

  /** A call without named arguments does not compile: get_param_mapping
      is instantiated with no names. */
  lemma {:induction false} AllPositionalRejected<V>(params: seq<string>, self: Option<V>, args: seq<Arg<V>>)
    requires |args| == |params|
    requires forall i :: 0 <= i < |args| ==> args[i].Positional?
    ensures CallWithParamNames(params, self, args) == DoesNotCompile(NamedParams.NoNames)
  {
    assert PositionalFirst(args);
    OrderCheckMeaning(args);
    NamedArgsAreTheRest(args);
  }

  /** A named argument that names one of the positional parameters: its
      slot index wraps below zero and the write is out of range. */
  lemma {:induction false} NamingPositionalParameter<V>(params: seq<string>, self: Option<V>, args: seq<Arg<V>>, k: nat)
    requires |args| == |params| && PositionalFirst(args)
    requires FirstNamed(args) <= k < |args| && args[k].Param?
    requires NamedParams.FindParam(params, args[k].name) < FirstNamed(args)
    ensures !CallWithParamNames(params, self, args).Calls?
  {
    var prefix := if self.Some? then [self.value] else [];
    PositionalNameOutside(params, args, k);
    AssembleCallsIff(params, prefix, args);
    OrderCheckMeaning(args);
    assert CallWithParamNames(params, self, args) == Assemble(params, prefix, args);
  }

  /** The named arguments do not name the remaining parameters when one of
      them names a positional parameter. */
  lemma {:induction false} PositionalNameOutside<V>(params: seq<string>, args: seq<Arg<V>>, k: nat)
    requires PositionalFirst(args)
    requires FirstNamed(args) <= k < |args| && args[k].Param?
    requires NamedParams.FindParam(params, args[k].name) < FirstNamed(args)
    ensures !NamesTheRest(params, args)
  {
    var p := FirstNamed(args);
    NamedArgAt(args, k);
    var names := ParamNames(NamedArgs(args));
    assert !NamedParams.FoundInWindow(params, names, p, k - p);
  }

  // ---------------------------------------------------------------------
  // named_construct

  /** A constructor: its parameters' identifiers and the values of its
      annotations. */
  datatype Constructor = Constructor(params: seq<string>, annotations: seq<string>)

  /** The value the [[=named_constructor]] annotation carries. */
  const NamedConstructorTag := "named_constructor"

  /** has_annotation: a loop over the annotations with an early return. */
  method HasAnnotation(annotations: seq<string>, toCheck: string) returns (r: bool)
    ensures r <==> toCheck in annotations
  {
    for i := 0 to |annotations|
      invariant toCheck !in annotations[..i]
    {
      if annotations[i] == toCheck {
        return true;
      }
    }
    return false;
  }

  /** The constructors that carry the annotation, in declaration order. */
  function NamedConstructors(ctors: seq<Constructor>): (r: seq<Constructor>)
    ensures forall c :: c in r <==> c in ctors && NamedConstructorTag in c.annotations
    ensures |r| <= |ctors|
  {
    if ctors == [] then []
    else
      var rest := NamedConstructors(ctors[1..]);
      if NamedConstructorTag in ctors[0].annotations then [ctors[0]] + rest else rest
  }

  /** named_construct: exactly one constructor must carry the annotation
      (an assert, which fails constant evaluation), positional arguments
      come first, and the arguments are assembled by that constructor's
      parameter names. No argument count is checked before the constructor
      call. */
  function NamedConstruct<V>(ctors: seq<Constructor>, args: seq<Arg<V>>): Outcome<V> {
    var named := NamedConstructors(ctors);
    if |named| != 1 then NotOneNamedConstructor(|named|)
    else if FirstNamed(args) < LastPositional(args) then OutOfOrder
    else
      OrderCheckMeaning(args);
      Assemble(named[0].params, [], args)
  }

  /** The arguments are assembled against the parameters of the one
      annotated constructor, whatever other constructors there are. The
      assembled arguments then go to a constructor call of the class, whose
      overload resolution picks among all its constructors; that choice is
      outside this model. */
  lemma {:induction false} NamedConstructUsesAnnotated<V>(ctors: seq<Constructor>, c: Constructor, args: seq<Arg<V>>)
    requires NamedConstructors(ctors) == [c]
    requires PositionalFirst(args)
    ensures NamedConstruct(ctors, args) == Assemble(c.params, [], args)
  {
    OrderCheckMeaning(args);
  }

  /** What reaches the constructor call: one value per argument, and no
      more values than the annotated constructor has parameters (fewer when
      it has parameters no argument names). */
  lemma {:induction false} NamedConstructArity<V>(ctors: seq<Constructor>, c: Constructor, args: seq<Arg<V>>)
    requires NamedConstructors(ctors) == [c]
    ensures var r := NamedConstruct(ctors, args);
      r.Calls? ==> |r.arguments| == |args| <= |c.params|
  {
    OrderCheckMeaning(args);
    if PositionalFirst(args) {
      AssembleMeaning(c.params, [], args);
      NamedArgsAreTheRest(args);
      var r := Assemble(c.params, [], args);
      if r.Calls? {
        assert FirstNamed(args) < |args|;
        assert ReceivesNamed(c.params, args, r.arguments, 0, FirstNamed(args), |args| - 1);
      }
    }
  }

  // ---------------------------------------------------------------------
  // The calls of main

  /** func(a, b, c), s::func(a, b, c) and add(lhs, rhs). */
  const AbcParams := ["a", "b", "c"]
  const AddParams := ["lhs", "rhs"]

  /** The constructors of s: the annotated s(a, b, c) and s(). */
  const SConstructors := [Constructor(AbcParams, [NamedConstructorTag]), Constructor([], [])]

  lemma {:induction false} AbcFound()
    ensures NamedParams.FindParam(AbcParams, "a") == 0
    ensures NamedParams.FindParam(AbcParams, "b") == 1
    ensures NamedParams.FindParam(AbcParams, "c") == 2
  {
    assert AbcParams[1..] == ["b", "c"] && AbcParams[1..][1..] == ["c"];
  }

  /** Assemble once the mapping is known. */
  lemma {:induction false} AssembleOf<V>(params: seq<string>, prefix: seq<V>, args: seq<Arg<V>>, named: seq<Arg<V>>, m: seq<nat>)
    requires PositionalFirst(args) && named == NamedArgs(args)
    requires forall i :: 0 <= i < |named| ==> named[i].Param?
    requires NamedParams.ParamMapping(params, ParamNames(named), FirstNamed(args)) == NamedParams.Mapped(m)
    requires forall i :: 0 <= i < |m| ==> m[i] < |named|
    ensures Assemble(params, prefix, args) ==
      Calls(prefix + PositionalValues(args) + NamedParams.TupleParams(m, ArgValues(named)))
  {
  }

  /** One positional argument, then c and b by name: slot b takes the
      second named argument, slot c the first. */
  lemma {:induction false} MappingCb()
    ensures NamedParams.ParamMapping(AbcParams, ["c", "b"], 1) == NamedParams.Mapped([1, 0])
  {
    AbcFound();
    var names := ["c", "b"];
    assert NamedParams.FoundInWindow(AbcParams, names, 1, 0);
    assert NamedParams.FoundInWindow(AbcParams, names, 1, 1);
    NamedParams.ParamMappingMeaning(AbcParams, names, 1);
    var m := NamedParams.ParamMapping(AbcParams, names, 1).slots;
    assert names[m[0]] == "b" && names[m[1]] == "c";
  }

  /** func(10, c = 30, b = 20) gets a = 10, b = 20, c = 30. */
  lemma {:induction false} FuncCall()
    ensures CallWithParamNames(AbcParams, None, [Positional(10), Param("c", 30), Param("b", 20)]) == Calls([10, 20, 30])
  {
    var args := [Positional(10), Param("c", 30), Param("b", 20)];
    CbCall(args, []);
    assert CallWithParamNames(AbcParams, None, args) == Assemble(AbcParams, [], args);
  }

  /** named_construct<s>(10, c = 30, b = 20) calls s(10, 20, 30). */
  lemma {:induction false} ConstructS()
    ensures NamedConstruct(SConstructors, [Positional(10), Param("c", 30), Param("b", 20)]) == Calls([10, 20, 30])
  {
    var args := [Positional(10), Param("c", 30), Param("b", 20)];
    var ctor := Constructor(AbcParams, [NamedConstructorTag]);
    assert SConstructors[1..] == [Constructor([], [])];
    assert NamedConstructors(SConstructors) == [ctor];
    CbCall(args, []);
    NamedConstructUsesAnnotated(SConstructors, ctor, args);
  }

  lemma {:induction false} CbCall(args: seq<Arg<int>>, prefix: seq<int>)
    requires args == [Positional(10), Param("c", 30), Param("b", 20)]
    ensures PositionalFirst(args) && FirstNamed(args) >= LastPositional(args)
    ensures Assemble(AbcParams, prefix, args) == Calls(prefix + [10, 20, 30])
  {
    assert args[1..] == [Param("c", 30), Param("b", 20)] && args[1..][1..] == [Param("b", 20)];
    assert FirstNamed(args) == 1;
    assert args[..2] == [Positional(10), Param("c", 30)] && args[..2][..1] == [Positional(10)];
    assert LastPositional(args) == 1;
    assert PositionalFirst(args);
    NamedArgsAreTheRest(args);
    var named := NamedArgs(args);
    assert named == [Param("c", 30), Param("b", 20)];
    assert ParamNames(named) == ["c", "b"];
    MappingCb();
    AssembleOf(AbcParams, prefix, args, named, [1, 0]);
    assert PositionalValues(args) == [10];
    assert NamedParams.TupleParams([1, 0], ArgValues(named)) == [20, 30];
  }

  /** s::func(s{}, 10, 20, c = 30) gets the object, then 10, 20, 30. */
  lemma {:induction false} MemberFuncCall()
    ensures CallWithParamNames(AbcParams, Some(0), [Positional(10), Positional(20), Param("c", 30)]) == Calls([0, 10, 20, 30])
  {
    var args := [Positional(10), Positional(20), Param("c", 30)];
    assert args[1..] == [Positional(20), Param("c", 30)] && args[1..][1..] == [Param("c", 30)];
    assert FirstNamed(args) == 2;
    assert args[..2] == [Positional(10), Positional(20)];
    assert LastPositional(args) == 2;
    assert PositionalFirst(args);
    NamedArgsAreTheRest(args);
    var named := NamedArgs(args);
    assert named == [Param("c", 30)];
    assert ParamNames(named) == ["c"];
    MappingC();
    AssembleOf(AbcParams, [0], args, named, [0]);
    assert PositionalValues(args) == [10, 20];
    assert NamedParams.TupleParams([0], ArgValues(named)) == [30];
  }

  lemma {:induction false} MappingC()
    ensures NamedParams.ParamMapping(AbcParams, ["c"], 2) == NamedParams.Mapped([0])
  {
    AbcFound();
    assert NamedParams.FoundInWindow(AbcParams, ["c"], 2, 0);
    NamedParams.ParamMappingMeaning(AbcParams, ["c"], 2);
  }

  /** add(rhs = 20, lhs = 10) == 30. */
  lemma {:induction false} AddCall()
    ensures var r := CallWithParamNames(AddParams, None, [Param("rhs", 20), Param("lhs", 10)]);
      r == Calls([10, 20]) && r.arguments[0] + r.arguments[1] == 30
  {
    var args := [Param("rhs", 20), Param("lhs", 10)];
    assert FirstNamed(args) == 0;
    assert args[..1] == [Param("rhs", 20)];
    assert LastPositional(args) == 0;
    assert PositionalFirst(args);
    NamedArgsAreTheRest(args);
    var named := NamedArgs(args);
    assert named == args;
    assert ParamNames(named) == ["rhs", "lhs"];
    MappingAdd();
    AssembleOf(AddParams, [], args, named, [1, 0]);
    assert PositionalValues(args) == [];
    assert NamedParams.TupleParams([1, 0], ArgValues(named)) == [10, 20];
  }

  lemma {:induction false} MappingAdd()
    ensures NamedParams.ParamMapping(AddParams, ["rhs", "lhs"], 0) == NamedParams.Mapped([1, 0])
  {
    var names := ["rhs", "lhs"];
    assert AddParams[1..] == ["rhs"];
    assert NamedParams.FindParam(AddParams, "lhs") == 0 && NamedParams.FindParam(AddParams, "rhs") == 1;
    assert NamedParams.FoundInWindow(AddParams, names, 0, 0);
    assert NamedParams.FoundInWindow(AddParams, names, 0, 1);
    NamedParams.ParamMappingMeaning(AddParams, names, 0);
    var m := NamedParams.ParamMapping(AddParams, names, 0).slots;
    assert names[m[0]] == "lhs" && names[m[1]] == "rhs";
  }

  /** func(1, 2, 3) names nothing and does not compile; func(c = 30, 10, 20)
      puts a named argument first. */
  lemma {:induction false} RejectedCalls()
    ensures CallWithParamNames(AbcParams, None, [Positional(1), Positional(2), Positional(3)]) ==
      DoesNotCompile(NamedParams.NoNames)
    ensures CallWithParamNames(AbcParams, None, [Param("c", 30), Positional(10), Positional(20)]).OutOfOrder?
  {
    AllPositionalRejected(AbcParams, None, [Positional(1), Positional(2), Positional(3)]);
    var args := [Param("c", 30), Positional(10), Positional(20)];
    assert !PositionalFirst(args) by {
      assert args[0].Param? && args[1].Positional?;
    }
    CallMeaning(AbcParams, None, args);
  }
}
