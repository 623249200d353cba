/** Constructing an object with named arguments (src/named_construct.cpp).

    The candidates are the constructors with as many parameters as there
    are arguments, the implicit copy and move constructors among them. For
    each candidate, get_param_mapping maps the named arguments onto the
    parameters after the positional ones; a name the candidate does not
    have makes that mapping absent (std::nullopt), while an index below the
    offset or a slot left unwritten still fails to compile, and so does a
    search for a name that reaches a parameter without an identifier. Exactly
    one candidate may have a mapping: the loop that looks for it asserts
    that no second one exists, and without any the index stays at SIZE_MAX
    and indexes past the mappings. */
module NamedConstruct {
  import opened Basics
  import NamedParams
  import NamedParams2

  type Arg<V> = NamedParams2.Arg<V>

  /** A constructor, by its parameters: each one's identifier, or None for
      a parameter without one, such as that of an implicit copy or move
      constructor. */
  type Candidate = seq<Option<string>>

  /** The constructors whose parameter count is the argument count. */
  function Candidates(ctors: seq<Candidate>, argc: nat): (r: seq<Candidate>)
    ensures forall c :: c in r <==> c in ctors && |c| == argc
    ensures |r| <= |ctors|
  {
    if ctors == [] then []
    else
      var rest := Candidates(ctors[1..], argc);
      if |ctors[0]| == argc then [ctors[0]] + rest else rest
  }

  /** std::ranges::find(params, name, identifier_of): the first parameter
      whose identifier is the name, or the first without an identifier,
      where identifier_of is not a constant expression; the count when
      there is neither. */
  function IdentifierStop(params: Candidate, name: string): (r: nat)
    ensures r <= |params|
    ensures r < |params| ==> params[r].None? || params[r] == Some(name)
    ensures forall j :: 0 <= j < r ==> params[j].Some? && params[j] != Some(name)
  {
    if params == [] then 0
    else if params[0].None? || params[0] == Some(name) then 0
    else 1 + IdentifierStop(params[1..], name)
  }

  /** The search for the name calls identifier_of on a parameter without an identifier. */
  predicate ReachesUnnamed(params: Candidate, name: string) {
    IdentifierStop(params, name) < |params| && params[IdentifierStop(params, name)].None?
  }

  /** No name's search reaches a parameter without an identifier. */
  predicate AllReadable(params: Candidate, names: seq<string>) {
    forall k :: 0 <= k < |names| ==> !ReachesUnnamed(params, names[k])
  }

  /** The first name whose search reaches a parameter without an identifier. */
  function FirstUnreadable(params: Candidate, names: seq<string>): (r: Option<string>)
    ensures r.None? <==> AllReadable(params, names)
    ensures r.Some? ==> r.value in names && ReachesUnnamed(params, r.value)
  {
    if names == [] then None
    else if ReachesUnnamed(params, names[0]) then Some(names[0])
    else
      var rest := FirstUnreadable(params, names[1..]);
      assert forall k :: 1 <= k < |names| ==> names[k] == names[1..][k - 1];
      rest
  }

  /** The identifiers, "" standing for a missing one; IdsAgree shows that no
      search that stops short of a missing identifier can tell. */
  function Ids(params: Candidate): (r: seq<string>)
    ensures |r| == |params|
    ensures forall i :: 0 <= i < |params| ==> r[i] == (if params[i].Some? then params[i].value else "")
  {
    seq(|params|, i requires 0 <= i < |params| => if params[i].Some? then params[i].value else "")
  }

  /** A search that reaches no parameter without an identifier finds what
      find over the identifiers finds. */
  lemma {:induction false} IdsAgree(params: Candidate, name: string)
    requires !ReachesUnnamed(params, name)
    ensures NamedParams.FindParam(Ids(params), name) == IdentifierStop(params, name)
  {
  }

  /** Why a mapping does not compile: get_param_mapping's own failures, or
      identifier_of on a parameter without an identifier. */
  datatype Failure = MapFails(result: NamedParams.MapResult) | NoIdentifier(name: string)

  /** What get_param_mapping gives for one candidate: a mapping, nullopt
      (a name the candidate lacks), or a compile error. */
  datatype Mapping = Valid(slots: seq<nat>) | Absent | Fails(why: Failure)

  /** Every name's index is a static constexpr of its own expansion of the
      template for, so all of them are evaluated, also after a nullopt
      return: one search that reaches a parameter without an identifier
      fails the mapping, whatever the others do. */
  function MappingOf(params: Candidate, names: seq<string>, offset: nat): (r: Mapping)
    ensures (r.Fails? && r.why.NoIdentifier?) <==> !AllReadable(params, names)
    ensures r.Fails? && r.why.NoIdentifier? ==> r.why.name in names && ReachesUnnamed(params, r.why.name)
    ensures r.Valid? <==> AllReadable(params, names) && NamedParams.ParamMapping(Ids(params), names, offset).Mapped?
    ensures r.Absent? <==> AllReadable(params, names) && NamedParams.ParamMapping(Ids(params), names, offset).UnknownName?
  {
    match FirstUnreadable(params, names)
    case Some(name) => Fails(NoIdentifier(name))
    case None =>
      match NamedParams.ParamMapping(Ids(params), names, offset)
      case Mapped(m) => Valid(m)
      case UnknownName(_) => Absent
      case other => Fails(MapFails(other))
  }

  /** The param_mappings array: one mapping per candidate. */
  function Mappings(cands: seq<Candidate>, names: seq<string>, offset: nat): (r: seq<Mapping>)
    ensures |r| == |cands| && forall i :: 0 <= i < |cands| ==> r[i] == MappingOf(cands[i], names, offset)
  {
    seq(|cands|, i requires 0 <= i < |cands| => MappingOf(cands[i], names, offset))
  }

  /** The template for that fills param_mappings. */
  method FillMappings(cands: seq<Candidate>, names: seq<string>, offset: nat) returns (toRet: array<Mapping>)
    ensures fresh(toRet) && toRet[..] == Mappings(cands, names, offset)
  {
    toRet := new Mapping[|cands|](_ => Absent);
    var i := 0;
    while i < |cands|
      invariant 0 <= i <= |cands| && toRet.Length == |cands|
      invariant forall j :: 0 <= j < i ==> toRet[j] == MappingOf(cands[j], names, offset)
    {
      toRet[i] := MappingOf(cands[i], names, offset);
      i := i + 1;
    }
  }

  // ---------------------------------------------------------------------
  // Choosing the valid mapping

  /** size_t(-1), the index's starting value. */
  const SizeMax: nat := 0x1_0000_0000_0000_0000 - 1

  /** The index loop: the one valid mapping, SizeMax when there is none,
      or the first two when the assert fails. */
  datatype Choice = Index(i: nat) | SecondValid(first: nat, second: nat)

  /** The loop from i on, with the index found so far. */
  function Scan(mappings: seq<Mapping>, i: nat, valid: nat): Choice
    requires i <= |mappings|
    decreases |mappings| - i
  {
    if i == |mappings| then Index(valid)
    else if mappings[i].Valid? then
      if valid != SizeMax then SecondValid(valid, i) else Scan(mappings, i + 1, i)
    else Scan(mappings, i + 1, valid)
  }

  /** The loop of the index lambda. */
  method ValidIndex(mappings: seq<Mapping>) returns (r: Choice)
    ensures r == Scan(mappings, 0, SizeMax)
  {
    var validIndex: nat := SizeMax;
    var i := 0;
    while i < |mappings|
      invariant 0 <= i <= |mappings|
      invariant Scan(mappings, 0, SizeMax) == Scan(mappings, i, validIndex)
    {
      if mappings[i].Valid? {
        if validIndex != SizeMax {
          return SecondValid(validIndex, i);
        }
        validIndex := i;
      }
      i := i + 1;
    }
    return Index(validIndex);
  }

  /** The mapping at k is the only valid one. */
  predicate OnlyValid(mappings: seq<Mapping>, k: nat) {
    && k < |mappings| && mappings[k].Valid?
    && forall j :: 0 <= j < |mappings| && j != k ==> !mappings[j].Valid?
  }

  predicate NoneValid(mappings: seq<Mapping>) {
    forall j :: 0 <= j < |mappings| ==> !mappings[j].Valid?
  }

  /** Exactly one valid mapping gives its index; none gives SizeMax; two
      or more stop at the second, naming the first two. */
  lemma {:induction false} ValidIndexMeaning(mappings: seq<Mapping>)
    requires |mappings| < SizeMax
    ensures var r := Scan(mappings, 0, SizeMax);
      && (r.Index? ==> (r.i < |mappings| && OnlyValid(mappings, r.i)) || (r.i == SizeMax && NoneValid(mappings)))
      && (r.SecondValid? ==>
            r.first < r.second < |mappings| && mappings[r.first].Valid? && mappings[r.second].Valid?)
    ensures forall k: nat :: OnlyValid(mappings, k) ==> Scan(mappings, 0, SizeMax) == Index(k)
    ensures NoneValid(mappings) <==> Scan(mappings, 0, SizeMax) == Index(SizeMax)
  {
    ScanNone(mappings, 0);
  }

  /** Scan with nothing found yet. */
  lemma {:induction false} ScanNone(mappings: seq<Mapping>, i: nat)
    requires i <= |mappings| < SizeMax
    requires forall j :: 0 <= j < i ==> !mappings[j].Valid?
    ensures var r := Scan(mappings, i, SizeMax);
      && (r.Index? ==> (r.i < |mappings| && OnlyValid(mappings, r.i)) || (r.i == SizeMax && NoneValid(mappings)))
      && (r.SecondValid? ==>
            r.first < r.second < |mappings| && mappings[r.first].Valid? && mappings[r.second].Valid?)
    decreases |mappings| - i
  {
    if i < |mappings| {
      if mappings[i].Valid? {
        ScanOne(mappings, i, i + 1);
      } else {
        ScanNone(mappings, i + 1);
      }
    }
  }

  /** Scan once the mapping at index k was found. */
  lemma {:induction false} ScanOne(mappings: seq<Mapping>, k: nat, i: nat)
    requires k < i <= |mappings| < SizeMax && mappings[k].Valid?
    requires forall j :: 0 <= j < i && j != k ==> !mappings[j].Valid?
    ensures var r := Scan(mappings, i, k);
      && (r.Index? ==> r.i == k && OnlyValid(mappings, k))
      && (r.SecondValid? ==> r.first == k && k < r.second < |mappings| && mappings[r.second].Valid?)
    decreases |mappings| - i
  {
    if i < |mappings| && !mappings[i].Valid? {
      ScanOne(mappings, k, i + 1);
    }
  }

  // ---------------------------------------------------------------------
  // named_construct

  /** The result: the candidate whose mapping was used and the arguments
      the builder passes, or why named_construct does not compile. */
  datatype Construction<V> =
    | Builds(candidate: Candidate, arguments: seq<V>)
    | OutOfOrder
    | MappingFails(why: Failure)
    | NoCandidate
    | SecondCandidate(first: Candidate, second: Candidate)

  /** The compile error of the first failing mapping, if any. */
  function FirstFailure(mappings: seq<Mapping>): (r: Option<Failure>)
    ensures r.None? <==> forall j :: 0 <= j < |mappings| ==> !mappings[j].Fails?
    ensures r.Some? ==> exists j :: 0 <= j < |mappings| && mappings[j] == Fails(r.value)
  {
    if mappings == [] then None
    else if mappings[0].Fails? then Some(mappings[0].why)
    else FirstFailure(mappings[1..])
  }

  /** The named arguments' names, once positional arguments come first. */
  function ArgNames<V>(args: seq<Arg<V>>): seq<string>
    requires NamedParams2.PositionalFirst(args)
  {
    NamedParams2.NamedArgsAreTheRest(args);
    NamedParams2.ParamNames(NamedParams2.NamedArgs(args))
  }

  /** named_construct<ToConstruct>(args...): positional arguments first
      (a static_assert), the mappings of all candidates (any compile error
      among them is fatal), then the one valid candidate. Which
      constructor C++ overload resolution then calls with these arguments
      is not modelled. */
  function NamedConstruct<V>(ctors: seq<Candidate>, args: seq<Arg<V>>): Construction<V>
    requires |ctors| < SizeMax
  {
    if NamedParams2.FirstNamed(args) < NamedParams2.LastPositional(args) then OutOfOrder
    else
      NamedParams2.OrderCheckMeaning(args);
      var cands := Candidates(ctors, |args|);
      Choose(cands, Mappings(cands, ArgNames(args), NamedParams2.FirstNamed(args)), args)
  }

  /** After the mappings: a failing one is fatal, then the index loop. The
      candidate that builds is the only one with a mapping, and the
      arguments are its assembled call. */
  function Choose<V>(cands: seq<Candidate>, mappings: seq<Mapping>, args: seq<Arg<V>>): (r: Construction<V>)
    requires NamedParams2.PositionalFirst(args) && |cands| < SizeMax
    requires mappings == Mappings(cands, ArgNames(args), NamedParams2.FirstNamed(args))
    ensures r.Builds? ==>
      && (exists k: nat :: OnlyValid(mappings, k) && cands[k] == r.candidate)
      && NamedParams2.Assemble(Ids(r.candidate), [], args) == NamedParams2.Calls(r.arguments)
    ensures r.SecondCandidate? ==> !NoneValid(mappings) && forall k: nat :: !OnlyValid(mappings, k)
    ensures r.NoCandidate? ==> NoneValid(mappings)
    ensures r.MappingFails? <==> exists j :: 0 <= j < |mappings| && mappings[j].Fails?
    ensures r.Builds? || r.MappingFails? || r.NoCandidate? || r.SecondCandidate?
  {
    match FirstFailure(mappings)
    case Some(why) => MappingFails(why)
    case None =>
      ValidIndexMeaning(mappings);
      match Scan(mappings, 0, SizeMax)
      case SecondValid(a, b) => SecondCandidate(cands[a], cands[b])
      case Index(i) =>
        if i >= |cands| then NoCandidate
        else
          BuildsAssembled(cands[i], args);
          Builds(cands[i], NamedParams2.Assemble(Ids(cands[i]), [], args).arguments)
  }

  /** A valid mapping for a candidate means its assembly succeeds. */
  lemma {:induction false} BuildsAssembled<V>(c: Candidate, args: seq<Arg<V>>)
    requires NamedParams2.PositionalFirst(args)
    requires MappingOf(c, ArgNames(args), NamedParams2.FirstNamed(args)).Valid?
    ensures NamedParams2.Assemble(Ids(c), [], args).Calls?
  {
    NamedParams2.NamedArgsAreTheRest(args);
  }

  /** The candidate's mapping exists. */
  predicate Covers<V>(c: Candidate, args: seq<Arg<V>>)
    requires NamedParams2.PositionalFirst(args)
  {
    MappingOf(c, ArgNames(args), NamedParams2.FirstNamed(args)).Valid?
  }

  /** When named_construct builds, positional arguments come first and
      exactly one candidate covers the named arguments; that candidate has
      one parameter per argument, and the arguments give every parameter
      its value. NamedConstructCases gives the converse. */
  lemma {:induction false} NamedConstructMeaning<V>(ctors: seq<Candidate>, args: seq<Arg<V>>)
    requires |ctors| < SizeMax
    ensures NamedConstruct(ctors, args).OutOfOrder? <==> !NamedParams2.PositionalFirst(args)
    ensures var r := NamedConstruct(ctors, args);
      r.Builds? ==>
        && NamedParams2.PositionalFirst(args)
        && r.candidate in ctors && |r.candidate| == |args|
        && NamedParams2.NamesTheRest(Ids(r.candidate), args)
        && NamedParams2.Assemble(Ids(r.candidate), [], args) == NamedParams2.Calls(r.arguments)
        && (exists k :: 0 <= k < |Candidates(ctors, |args|)| && Candidates(ctors, |args|)[k] == r.candidate &&
              forall j :: 0 <= j < |Candidates(ctors, |args|)| && j != k ==> !Covers(Candidates(ctors, |args|)[j], args))
  {
    NamedParams2.OrderCheckMeaning(args);
    var r := NamedConstruct(ctors, args);
    if r.Builds? {
      var cands := Candidates(ctors, |args|);
      var mappings := Mappings(cands, ArgNames(args), NamedParams2.FirstNamed(args));
      assert r == Choose(cands, mappings, args);
      ChooseBuilds(cands, mappings, args);
      NamedParams2.AssembleCallsIff(Ids(r.candidate), [], args);
    }
  }

  /** The candidate Choose builds is one of them, and no other one covers
      the named arguments. */
  lemma {:induction false} ChooseBuilds<V>(cands: seq<Candidate>, mappings: seq<Mapping>, args: seq<Arg<V>>)
    requires NamedParams2.PositionalFirst(args) && |cands| < SizeMax
    requires mappings == Mappings(cands, ArgNames(args), NamedParams2.FirstNamed(args))
    requires Choose(cands, mappings, args).Builds?
    ensures var c := Choose(cands, mappings, args).candidate;
      && c in cands
      && exists k :: 0 <= k < |cands| && cands[k] == c && forall j :: 0 <= j < |cands| && j != k ==> !Covers(cands[j], args)
  {
    var r := Choose(cands, mappings, args);
    var k: nat :| OnlyValid(mappings, k) && cands[k] == r.candidate;
    forall j | 0 <= j < |cands| && j != k
      ensures !Covers(cands[j], args)
    {
      assert !mappings[j].Valid?;
    }
  }

  /** A candidate's mapping is nullopt exactly when no name's search reaches
      a parameter without an identifier and the first named argument that
      stops get_param_mapping's loop names none of its parameters. */
  lemma {:induction false} MappingAbsentMeaning(c: Candidate, names: seq<string>, offset: nat)
    ensures MappingOf(c, names, offset).Absent? <==>
      AllReadable(c, names) && exists u: nat :: NamedParams.FirstUnknown(Ids(c), names, offset, u)
    ensures MappingOf(c, names, offset).Absent? ==> exists u :: 0 <= u < |names| && Some(names[u]) !in c
  {
    NamedParams.UnknownNameMeaning(Ids(c), names, offset);
    if MappingOf(c, names, offset).Absent? {
      var u: nat :| NamedParams.FirstUnknown(Ids(c), names, offset, u);
      forall i | 0 <= i < |c|
        ensures c[i] != Some(names[u])
      {
        assert Ids(c)[i] != names[u];
      }
    }
  }

  /** No candidate's mapping is a compile error. */
  predicate NoMappingFails<V>(cands: seq<Candidate>, args: seq<Arg<V>>)
    requires NamedParams2.PositionalFirst(args)
  {
    forall j :: 0 <= j < |cands| ==> !MappingOf(cands[j], ArgNames(args), NamedParams2.FirstNamed(args)).Fails?
  }

  /** Candidate k is the only one that covers the named arguments. */
  predicate CoversAlone<V>(cands: seq<Candidate>, args: seq<Arg<V>>, k: nat)
    requires NamedParams2.PositionalFirst(args)
  {
    && k < |cands| && Covers(cands[k], args)
    && forall j :: 0 <= j < |cands| && j != k ==> !Covers(cands[j], args)
  }

  /** Two candidates cover the named arguments. */
  predicate TwoCover<V>(cands: seq<Candidate>, args: seq<Arg<V>>)
    requires NamedParams2.PositionalFirst(args)
  {
    exists a, b :: 0 <= a < b < |cands| && Covers(cands[a], args) && Covers(cands[b], args)
  }

  /** Two different candidates that cover the named arguments. */
  lemma {:induction false} TwoCoverOf<V>(cands: seq<Candidate>, args: seq<Arg<V>>, a: nat, b: nat)
    requires NamedParams2.PositionalFirst(args) && a < |cands| && b < |cands| && a != b
    ensures Covers(cands[a], args) && Covers(cands[b], args) ==> TwoCover(cands, args)
  {
    if Covers(cands[a], args) && Covers(cands[b], args) {
      if a < b {
        assert 0 <= a < b < |cands| && Covers(cands[a], args) && Covers(cands[b], args);
      } else {
        assert 0 <= b < a < |cands| && Covers(cands[b], args) && Covers(cands[a], args);
      }
    }
  }

  /** Every outcome of Choose, by the candidates' mappings: a failing
      mapping is fatal; otherwise one covering candidate builds, none is
      NoCandidate, and two stop at the assert. */
  lemma {:induction false} ChooseCases<V>(cands: seq<Candidate>, mappings: seq<Mapping>, args: seq<Arg<V>>)
    requires NamedParams2.PositionalFirst(args) && |cands| < SizeMax
    requires mappings == Mappings(cands, ArgNames(args), NamedParams2.FirstNamed(args))
    ensures Choose(cands, mappings, args).MappingFails? <==> !NoMappingFails(cands, args)
    ensures Choose(cands, mappings, args).Builds? <==> NoMappingFails(cands, args) && exists k: nat :: CoversAlone(cands, args, k)
    ensures Choose(cands, mappings, args).NoCandidate? <==>
      NoMappingFails(cands, args) && forall j :: 0 <= j < |cands| ==> !Covers(cands[j], args)
    ensures Choose(cands, mappings, args).SecondCandidate? <==> NoMappingFails(cands, args) && TwoCover(cands, args)
  {
    ChooseFails(cands, mappings, args);
    ChooseBuildsIff(cands, mappings, args);
    ChooseNoCandidateIff(cands, mappings, args);
    ChooseSecondIff(cands, mappings, args);
  }

  lemma {:induction false} ChooseFails<V>(cands: seq<Candidate>, mappings: seq<Mapping>, args: seq<Arg<V>>)
    requires NamedParams2.PositionalFirst(args) && |cands| < SizeMax
    requires mappings == Mappings(cands, ArgNames(args), NamedParams2.FirstNamed(args))
    ensures Choose(cands, mappings, args).MappingFails? <==> !NoMappingFails(cands, args)
  {
    if !NoMappingFails(cands, args) {
      var j :| 0 <= j < |cands| && MappingOf(cands[j], ArgNames(args), NamedParams2.FirstNamed(args)).Fails?;
      assert mappings[j].Fails?;
    }
  }

  lemma {:induction false} ChooseBuildsIff<V>(cands: seq<Candidate>, mappings: seq<Mapping>, args: seq<Arg<V>>)
    requires NamedParams2.PositionalFirst(args) && |cands| < SizeMax
    requires mappings == Mappings(cands, ArgNames(args), NamedParams2.FirstNamed(args))
    ensures Choose(cands, mappings, args).Builds? <==> NoMappingFails(cands, args) && exists k: nat :: CoversAlone(cands, args, k)
  {
    var r := Choose(cands, mappings, args);
    ChooseFails(cands, mappings, args);
    ValidIndexMeaning(mappings);
    if NoMappingFails(cands, args) && exists k: nat :: CoversAlone(cands, args, k) {
      var k: nat :| CoversAlone(cands, args, k);
      assert OnlyValid(mappings, k);
    }
    if r.Builds? {
      var k: nat :| OnlyValid(mappings, k) && cands[k] == r.candidate;
      assert CoversAlone(cands, args, k);
    }
  }

  lemma {:induction false} ChooseNoCandidateIff<V>(cands: seq<Candidate>, mappings: seq<Mapping>, args: seq<Arg<V>>)
    requires NamedParams2.PositionalFirst(args) && |cands| < SizeMax
    requires mappings == Mappings(cands, ArgNames(args), NamedParams2.FirstNamed(args))
    ensures Choose(cands, mappings, args).NoCandidate? <==>
      NoMappingFails(cands, args) && forall j :: 0 <= j < |cands| ==> !Covers(cands[j], args)
  {
    ChooseFails(cands, mappings, args);
    ValidIndexMeaning(mappings);
    assert forall j :: 0 <= j < |cands| ==> (mappings[j].Valid? <==> Covers(cands[j], args));
  }

  lemma {:induction false} ChooseSecondIff<V>(cands: seq<Candidate>, mappings: seq<Mapping>, args: seq<Arg<V>>)
    requires NamedParams2.PositionalFirst(args) && |cands| < SizeMax
    requires mappings == Mappings(cands, ArgNames(args), NamedParams2.FirstNamed(args))
    ensures Choose(cands, mappings, args).SecondCandidate? <==> NoMappingFails(cands, args) && TwoCover(cands, args)
  {
    var r := Choose(cands, mappings, args);
    ChooseFails(cands, mappings, args);
    if r.SecondCandidate? {
      var j :| 0 <= j < |mappings| && mappings[j].Valid?;
      assert !OnlyValid(mappings, j);
      var i :| 0 <= i < |mappings| && i != j && mappings[i].Valid?;
      TwoCoverOf(cands, args, j, i);
    }
    if NoMappingFails(cands, args) && TwoCover(cands, args) {
      var a, b :| 0 <= a < b < |cands| && Covers(cands[a], args) && Covers(cands[b], args);
      assert mappings[a].Valid? && mappings[b].Valid?;
    }
  }

  /** Every outcome of named_construct: out of order exactly when a named
      argument comes before a positional one; then a failing mapping is
      fatal, among them a search that reaches a parameter without an
      identifier (MappingOf); otherwise it builds exactly when one candidate covers the
      named arguments, finds no candidate when none does, and stops at the
      assert when two do. */
  lemma {:induction false} NamedConstructCases<V>(ctors: seq<Candidate>, args: seq<Arg<V>>)
    requires |ctors| < SizeMax
    ensures var r, cands := NamedConstruct(ctors, args), Candidates(ctors, |args|);
      && (r.MappingFails? <==> NamedParams2.PositionalFirst(args) && !NoMappingFails(cands, args))
      && (r.Builds? <==>
            NamedParams2.PositionalFirst(args) && NoMappingFails(cands, args) && exists k: nat :: CoversAlone(cands, args, k))
      && (r.NoCandidate? <==>
            NamedParams2.PositionalFirst(args) && NoMappingFails(cands, args) &&
            forall j :: 0 <= j < |cands| ==> !Covers(cands[j], args))
      && (r.SecondCandidate? <==>
            NamedParams2.PositionalFirst(args) && NoMappingFails(cands, args) && TwoCover(cands, args))
  {
    NamedParams2.OrderCheckMeaning(args);
    if NamedParams2.PositionalFirst(args) {
      var cands := Candidates(ctors, |args|);
      var mappings := Mappings(cands, ArgNames(args), NamedParams2.FirstNamed(args));
      assert NamedConstruct(ctors, args) == Choose(cands, mappings, args);
      ChooseCases(cands, mappings, args);
    }
  }

  /** Two candidates that both cover the named arguments stop at the
      assert, unless some candidate's mapping fails first. */
  lemma {:induction false} TwoCandidatesRejected<V>(ctors: seq<Candidate>, args: seq<Arg<V>>, a: nat, b: nat)
    requires |ctors| < SizeMax && NamedParams2.PositionalFirst(args)
    requires a < b < |Candidates(ctors, |args|)|
    requires Covers(Candidates(ctors, |args|)[a], args) && Covers(Candidates(ctors, |args|)[b], args)
    ensures NamedConstruct(ctors, args).SecondCandidate? || NamedConstruct(ctors, args).MappingFails?
  {
    NamedParams2.OrderCheckMeaning(args);
    var cands := Candidates(ctors, |args|);
    var mappings := Mappings(cands, ArgNames(args), NamedParams2.FirstNamed(args));
    assert NamedConstruct(ctors, args) == Choose(cands, mappings, args);
    assert mappings[a].Valid? && mappings[b].Valid?;
    assert !NoneValid(mappings);
    forall k: nat | OnlyValid(mappings, k)
      ensures false
    {
    }
  }

  // ---------------------------------------------------------------------
  // The struct s of main

  datatype S = S(x: int, y: int)

  /** s(x, y, mult) scales both coordinates; s(x, y) stores them. */
  function MakeS(arguments: seq<int>): (r: Option<S>)
    ensures |arguments| == 2 ==> r == Some(S(arguments[0], arguments[1]))
    ensures |arguments| == 3 ==> r == Some(S(arguments[0] * arguments[2], arguments[1] * arguments[2]))
    ensures |arguments| != 2 && |arguments| != 3 ==> r.None?
  {
    if |arguments| == 3 then Some(S(arguments[0] * arguments[2], arguments[1] * arguments[2]))
    else if |arguments| == 2 then Some(S(arguments[0], arguments[1]))
    else None
  }

  const XY: Candidate := [Some("x"), Some("y")]
  const XYMult: Candidate := [Some("x"), Some("y"), Some("mult")]

  /** The constructors of s: the two written ones and the implicit copy
      and move constructors, whose one parameter has no identifier. */
  const SConstructors: seq<Candidate> := [XYMult, XY, [None], [None]]

  /** named_construct<s>(y = 20, x = 10) builds s{10, 20}. */
  lemma {:induction false} ConstructByNames()
    ensures var r := NamedConstruct(SConstructors, [NamedParams2.Param("y", 20), NamedParams2.Param("x", 10)]);
      r.Builds? && r.candidate == XY && MakeS(r.arguments) == Some(S(10, 20))
  {
    var args: seq<Arg<int>> := [NamedParams2.Param("y", 20), NamedParams2.Param("x", 10)];
    ByNamesArgs();
    TwoArgCandidates();
    MappingYx();
    MappingOfYx();
    var mappings := Mappings([XY], ["y", "x"], 0);
    assert mappings == [Valid([1, 0])];
    assert Scan(mappings, 0, SizeMax) == Index(0);
    assert NamedConstruct(SConstructors, args) == Choose([XY], mappings, args);
    ByNamesAssembled();
  }

  /** (x, y) has an identifier for every parameter, so the names y, x are read and mapped. */
  lemma {:induction false} MappingOfYx()
    ensures Ids(XY) == ["x", "y"] && AllReadable(XY, ["y", "x"])
    ensures MappingOf(XY, ["y", "x"], 0) == Valid([1, 0])
  {
    assert Ids(XY) == ["x", "y"];
    assert IdentifierStop(XY, "x") == 0;
    assert XY[1..] == [Some("y")];
    assert IdentifierStop(XY, "y") == 1;
    MappingYx();
  }

  lemma {:induction false} ByNamesArgs()
    ensures var args: seq<Arg<int>> := [NamedParams2.Param("y", 20), NamedParams2.Param("x", 10)];
      && NamedParams2.FirstNamed(args) == 0 && NamedParams2.LastPositional(args) == 0
      && NamedParams2.PositionalFirst(args) && ArgNames(args) == ["y", "x"]
  {
    var args: seq<Arg<int>> := [NamedParams2.Param("y", 20), NamedParams2.Param("x", 10)];
    assert NamedParams2.FirstNamed(args) == 0;
    assert args[..1] == [NamedParams2.Param("y", 20)];
    assert NamedParams2.LastPositional(args) == 0;
    NamedParams2.OrderCheckMeaning(args);
    NamedParams2.NamedArgsAreTheRest(args);
    assert NamedParams2.NamedArgs(args) == args;
  }

  lemma {:induction false} ByNamesAssembled()
    ensures var args: seq<Arg<int>> := [NamedParams2.Param("y", 20), NamedParams2.Param("x", 10)];
      NamedParams2.PositionalFirst(args) &&
      NamedParams2.Assemble(Ids(XY), [], args) == NamedParams2.Calls([10, 20])
  {
    var args: seq<Arg<int>> := [NamedParams2.Param("y", 20), NamedParams2.Param("x", 10)];
    ByNamesArgs();
    MappingYx();
    MappingOfYx();
    NamedParams2.NamedArgsAreTheRest(args);
    var named := NamedParams2.NamedArgs(args);
    assert named == args;
    NamedParams2.AssembleOf(["x", "y"], [], args, named, [1, 0]);
    assert NamedParams2.PositionalValues(args) == [];
    assert NamedParams.TupleParams([1, 0], NamedParams2.ArgValues(named)) == [10, 20];
  }

  lemma {:induction false} TwoArgCandidates()
    ensures Candidates(SConstructors, 2) == [XY]
    ensures Candidates(SConstructors, 3) == [XYMult]
    ensures Candidates(SConstructors, 1) == [[None], [None]]
  {
    var none: seq<Candidate> := [[None]];
    var nones: seq<Candidate> := [[None], [None]];
    assert |XYMult| == 3 && |XY| == 2;
    assert SConstructors[1..] == [XY] + nones;
    assert nones[1..] == none && none[1..] == [];
    assert Candidates(none, 2) == [] && Candidates(none, 3) == [] && Candidates(none, 1) == none;
    assert Candidates(nones, 2) == [] && Candidates(nones, 3) == [] && Candidates(nones, 1) == nones;
    assert Candidates([XY] + nones, 2) == [XY] && Candidates([XY] + nones, 3) == [];
    assert Candidates([XY] + nones, 1) == nones;
  }

  lemma {:induction false} MappingYx()
    ensures NamedParams.ParamMapping(["x", "y"], ["y", "x"], 0) == NamedParams.Mapped([1, 0])
  {
    var params, names := ["x", "y"], ["y", "x"];
    assert params[1..] == ["y"];
    assert NamedParams.FindParam(params, "x") == 0 && NamedParams.FindParam(params, "y") == 1;
    assert NamedParams.FoundInWindow(params, names, 0, 0);
    assert NamedParams.FoundInWindow(params, names, 0, 1);
    NamedParams.ParamMappingMeaning(params, names, 0);
    var m := NamedParams.ParamMapping(params, names, 0).slots;
    assert names[m[0]] == "x" && names[m[1]] == "y";
  }

  /** named_construct<s>(10, 20, mult = 2) builds s{20, 40}. */
  lemma {:induction false} ConstructWithMult()
    ensures var r := NamedConstruct(SConstructors, [NamedParams2.Positional(10), NamedParams2.Positional(20), NamedParams2.Param("mult", 2)]);
      r.Builds? && r.candidate == XYMult && MakeS(r.arguments) == Some(S(20, 40))
  {
    var args: seq<Arg<int>> := [NamedParams2.Positional(10), NamedParams2.Positional(20), NamedParams2.Param("mult", 2)];
    MultArgs(args);
    TwoArgCandidates();
    MappingMult();
    MappingOfMult();
    var mappings := Mappings([XYMult], ["mult"], 2);
    assert mappings == [Valid([0])];
    assert Scan(mappings, 0, SizeMax) == Index(0);
    assert NamedConstruct(SConstructors, args) == Choose([XYMult], mappings, args);
    MultAssembled(args);
  }

  lemma {:induction false} MultAssembled(args: seq<Arg<int>>)
    requires args == [NamedParams2.Positional(10), NamedParams2.Positional(20), NamedParams2.Param("mult", 2)]
    ensures NamedParams2.PositionalFirst(args)
    ensures NamedParams2.Assemble(Ids(XYMult), [], args) == NamedParams2.Calls([10, 20, 2])
  {
    MultArgs(args);
    MappingMult();
    MappingOfMult();
    var named := NamedParams2.NamedArgs(args);
    NamedParams2.AssembleOf(["x", "y", "mult"], [], args, named, [0]);
    assert NamedParams.TupleParams([0], NamedParams2.ArgValues(named)) == [2];
  }

  lemma {:induction false} MultArgs(args: seq<Arg<int>>)
    requires args == [NamedParams2.Positional(10), NamedParams2.Positional(20), NamedParams2.Param("mult", 2)]
    ensures NamedParams2.FirstNamed(args) == 2 && NamedParams2.LastPositional(args) == 2
    ensures NamedParams2.PositionalFirst(args)
    ensures NamedParams2.NamedArgs(args) == [NamedParams2.Param("mult", 2)]
    ensures NamedParams2.PositionalValues(args) == [10, 20]
    ensures ArgNames(args) == ["mult"]
  {
    assert args[1..] == [NamedParams2.Positional(20), NamedParams2.Param("mult", 2)];
    assert args[1..][1..] == [NamedParams2.Param("mult", 2)];
    assert NamedParams2.FirstNamed(args[1..][1..]) == 0;
    assert NamedParams2.FirstNamed(args[1..]) == 1;
    assert args[..2] == [NamedParams2.Positional(10), NamedParams2.Positional(20)];
    assert NamedParams2.LastPositional(args) == 2;
    NamedParams2.NamedArgsAreTheRest(args);
  }

  lemma {:induction false} MappingMult()
    ensures NamedParams.ParamMapping(["x", "y", "mult"], ["mult"], 2) == NamedParams.Mapped([0])
  {
    var params := ["x", "y", "mult"];
    assert params[1..] == ["y", "mult"] && params[1..][1..] == ["mult"];
    assert NamedParams.FindParam(params, "mult") == 2;
    assert NamedParams.FoundInWindow(params, ["mult"], 2, 0);
    NamedParams.ParamMappingMeaning(params, ["mult"], 2);
  }

  /** (x, y, mult) has an identifier for every parameter, so the name mult is read and mapped. */
  lemma {:induction false} MappingOfMult()
    ensures Ids(XYMult) == ["x", "y", "mult"] && AllReadable(XYMult, ["mult"])
    ensures MappingOf(XYMult, ["mult"], 2) == Valid([0])
  {
    assert Ids(XYMult) == ["x", "y", "mult"];
    assert XYMult[1..] == [Some("y"), Some("mult")] && XYMult[1..][1..] == [Some("mult")];
    assert IdentifierStop(XYMult, "mult") == 2;
    MappingMult();
  }

  // ---------------------------------------------------------------------
  // Implicit constructors

  /** A candidate whose first parameter has no identifier, such as an
      implicit copy or move constructor when there is one argument, stops
      every call with a named argument: the first search calls
      identifier_of on that parameter. */
  lemma {:induction false} UnnamedFirstRejects<V>(ctors: seq<Candidate>, args: seq<Arg<V>>, c: Candidate)
    requires |ctors| < SizeMax && NamedParams2.PositionalFirst(args)
    requires c in ctors && |c| == |args| && c != [] && c[0].None?
    requires exists i :: 0 <= i < |args| && args[i].Param?
    ensures NamedConstruct(ctors, args).MappingFails?
  {
    var cands := Candidates(ctors, |args|);
    var j :| 0 <= j < |cands| && cands[j] == c;
    var i :| 0 <= i < |args| && args[i].Param?;
    NamedParams2.NamedArgsAreTheRest(args);
    NamedParams2.OrderCheckMeaning(args);
    var names := ArgNames(args);
    assert names != [] by {
      NamedArgsNonEmpty(args, i);
    }
    assert IdentifierStop(c, names[0]) == 0;
    assert !AllReadable(c, names);
    NamedConstructCases(ctors, args);
  }

  /** A call with a named argument has a name to search for. */
  lemma {:induction false} NamedArgsNonEmpty<V>(args: seq<Arg<V>>, i: nat)
    requires NamedParams2.PositionalFirst(args) && i < |args| && args[i].Param?
    ensures ArgNames(args) != []
  {
    NamedParams2.NamedArgsAreTheRest(args);
  }

  /** struct t { t(int v); } has the implicit copy and move constructors
      beside it, each with one parameter without an identifier. */
  const TConstructors: seq<Candidate> := [[Some("v")], [None], [None]]

  /** named_construct<t>(v = 1) does not compile: the search for v in the
      copy constructor's parameters calls identifier_of on one that has none. */
  lemma {:induction false} ImplicitCopyRejects()
    ensures NamedConstruct(TConstructors, [NamedParams2.Param("v", 1)]) == MappingFails(NoIdentifier("v"))
  {
    var args: seq<Arg<int>> := [NamedParams2.Param("v", 1)];
    OneNamedArg();
    TCandidates();
    TMappings();
    assert NamedConstruct(TConstructors, args) == Choose(TConstructors, Mappings(TConstructors, ["v"], 0), args);
  }

  /** The one argument v = 1 is named, comes in order and is named v. */
  lemma {:induction false} OneNamedArg()
    ensures var args: seq<Arg<int>> := [NamedParams2.Param("v", 1)];
      && NamedParams2.FirstNamed(args) == 0 && !(NamedParams2.FirstNamed(args) < NamedParams2.LastPositional(args))
      && NamedParams2.PositionalFirst(args) && ArgNames(args) == ["v"]
  {
    var args: seq<Arg<int>> := [NamedParams2.Param("v", 1)];
    assert NamedParams2.FirstNamed(args) == 0;
    assert args[..0] == [];
    NamedParams2.OrderCheckMeaning(args);
    NamedParams2.NamedArgsAreTheRest(args);
    assert NamedParams2.NamedArgs(args) == args;
  }

  /** All three constructors of t take one parameter. */
  lemma {:induction false} TCandidates()
    ensures Candidates(TConstructors, 1) == TConstructors
  {
    var none: seq<Candidate> := [[None]];
    assert TConstructors[1..] == [[None]] + none && none[1..] == [];
    assert Candidates(none, 1) == none;
    assert Candidates([[None]] + none, 1) == [[None]] + none;
  }

  /** t(int v) maps v; the copy constructor's mapping is the first that fails. */
  lemma {:induction false} TMappings()
    ensures var mappings := Mappings(TConstructors, ["v"], 0);
      !mappings[0].Fails? && mappings[1] == Fails(NoIdentifier("v")) &&
      FirstFailure(mappings) == Some(NoIdentifier("v"))
  {
    var mappings := Mappings(TConstructors, ["v"], 0);
    assert IdentifierStop([None], "v") == 0;
    assert !ReachesUnnamed([Some("v")], "v") by {
      assert IdentifierStop([Some("v")], "v") == 0;
    }
    assert AllReadable([Some("v")], ["v"]);
    assert !mappings[0].Fails?;
    assert mappings[1] == Fails(NoIdentifier("v"));
    assert FirstFailure(mappings[1..]) == Some(NoIdentifier("v"));
  }
}
