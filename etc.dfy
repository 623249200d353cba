/** Two small stateful helpers of src/etc.cpp.

    named_variant<named_pair<Name, T>...> is a tagged union whose
    alternatives are told apart by name, not by type: `index_` says which
    member of the union is live. Alternatives are found by comparing
    fixed_strings with ==, so their names are FixedStr values. The value of
    the live member is one value of a type parameter V; which C++ type it
    has follows from the index.

    delim_outputter writes ", " before every element but the first. */
module Etc {
  import opened Basics
  import opened FixedString

  // ---------------------------------------------------------------------
  // named_variant

  /** get_index_by_name: the first member whose name compares equal, or
      none, where the source throws "Name not found". */
  function IndexByName(names: seq<FixedStr>, name: FixedStr): (r: Option<nat>)
    ensures r.Some? ==> r.value < |names| && CrossEqual(name, names[r.value])
    ensures r.Some? ==> forall j :: 0 <= j < r.value ==> !CrossEqual(name, names[j])
    ensures r.None? ==> forall j :: 0 <= j < |names| ==> !CrossEqual(name, names[j])
  {
    if names == [] then None
    else if CrossEqual(name, names[0]) then Some(0)
    else
      match IndexByName(names[1..], name)
      case None => None
      case Some(i) => Some(i + 1)
  }

  /** get_index_by_name as written: a template for over the indices with an
      early return. */
  method GetIndexByName(names: seq<FixedStr>, name: FixedStr) returns (r: Option<nat>)
    ensures r == IndexByName(names, name)
  {
    var i := 0;
    while i < |names|
      invariant 0 <= i <= |names|
      invariant forall j :: 0 <= j < i ==> !CrossEqual(name, names[j])
    {
      if CrossEqual(name, names[i]) {
        return Some(i);
      }
      i := i + 1;
    }
    return None;
  }

  /** With literal names, the index is that of the first member spelled
      the same. */
  lemma {:induction false} IndexByLiteral(texts: seq<string>, name: string, i: nat)
    requires '\0' !in name && forall j :: 0 <= j < |texts| ==> '\0' !in texts[j]
    requires i < |texts| && texts[i] == name && forall j :: 0 <= j < i ==> texts[j] != name
    ensures IndexByName(Lits(texts), Lit(name)) == Some(i)
  {
    forall j | 0 <= j <= i
      ensures CrossEqual(Lit(name), Lits(texts)[j]) <==> j == i
    {
      CrossEqualLiterals(name, texts[j]);
    }
  }

  function Lits(texts: seq<string>): (r: seq<FixedStr>)
    ensures |r| == |texts| && forall j :: 0 <= j < |texts| ==> r[j] == Lit(texts[j])
  {
    seq(|texts|, j requires 0 <= j < |texts| => Lit(texts[j]))
  }

  class NamedVariant<V> {
    const names: seq<FixedStr>
    var index: nat
    var storage: V

    ghost predicate Valid()
      reads this
    {
      index < |names|
    }

    /** create<Name>(val): the private constructor stores val in the
        member with Name's index and makes that index current. A name that
        is not a member does not compile. */
    constructor Create(names: seq<FixedStr>, name: FixedStr, val: V)
      requires IndexByName(names, name).Some?
      ensures Valid()
      ensures this.names == names && index == IndexByName(names, name).value && storage == val
    {
      this.names := names;
      var i := GetIndexByName(names, name);
      storage := val;
      index := i.value;
    }

    /** get<Name>(): null unless Name's index is the current one, else the
        stored value. */
    function Get(name: FixedStr): (r: Option<V>)
      reads this
      requires IndexByName(names, name).Some?
      ensures r.Some? <==> IndexByName(names, name).value == index
    {
      if IndexByName(names, name).value != index then None else Some(storage)
    }

    /** set<Name>(value): assigns a freshly created variant to *this.
        Afterwards only Name, and names that compare equal to it, give a
        value. */
    method Set(name: FixedStr, value: V)
      requires Valid() && IndexByName(names, name).Some?
      modifies this
      ensures Valid()
      ensures Get(name) == Some(value)
      ensures forall other :: IndexByName(names, other).Some? ==>
        (Get(other).Some? <==> IndexByName(names, other) == IndexByName(names, name))
    {
      var i := GetIndexByName(names, name);
      storage := value;
      index := i.value;
    }
  }

  /** The values main stores: an int member or the double one. */
  datatype Num = Int(i: int) | Double(d: real)

  /** The sequence of main: named_variant<"wow": int, "wow2": int,
      "double": double>; a = create<"wow">(10); b = create<"wow">(20);
      b.set<"wow2">(10); b.set<"double">(20). Two members of one type stay
      distinct alternatives. */
  method MainExample() returns (aWow2: Option<Num>, aWow: Option<Num>, bWow: Option<Num>,
                                bWow2: Option<Num>, bDouble: Option<Num>)
    ensures aWow2 == None && aWow == Some(Int(10))
    ensures bWow == None && bWow2 == Some(Int(10))
    ensures bDouble == Some(Double(20.0))
  {
    var texts := ["wow", "wow2", "double"];
    var names := Lits(texts);
    IndexByLiteral(texts, "wow", 0);
    IndexByLiteral(texts, "wow2", 1);
    IndexByLiteral(texts, "double", 2);
    var a := new NamedVariant<Num>.Create(names, Lit("wow"), Int(10));
    aWow2 := a.Get(Lit("wow2"));
    aWow := a.Get(Lit("wow"));
    var b := new NamedVariant<Num>.Create(names, Lit("wow"), Int(20));
    b.Set(Lit("wow2"), Int(10));
    bWow := b.Get(Lit("wow"));
    bWow2 := b.Get(Lit("wow2"));
    b.Set(Lit("double"), Double(20.0));
    bDouble := b.Get(Lit("double"));
  }

  // ---------------------------------------------------------------------
  // delim_outputter

  /** The output iterator: `*iter = c; ++iter` appends c. */
  class CharSink {
    var text: seq<char>

    constructor ()
      ensures text == []
    {
      text := [];
    }
  }

  class DelimOutputter {
    const iter: CharSink
    var first: bool

    constructor (iter: CharSink)
      ensures this.iter == iter && first
    {
      this.iter := iter;
      first := true;
    }

    /** operator(): nothing the first time, ", " every later time. */
    method Call()
      modifies this, iter
      ensures !first
      ensures iter.text == old(iter.text) + (if old(first) then "" else ", ")
    {
      if !first {
        iter.text := iter.text + [','];
        iter.text := iter.text + [' '];
      }
      first := false;
    }
  }

  /** Items separated by ", ". */
  function Separated(items: seq<string>): string {
    if |items| <= 1 then (if items == [] then "" else items[0])
    else Separated(items[..|items| - 1]) + ", " + items[|items| - 1]
  }

  /** How the debug formatter uses the outputter: a call before each item. */
  method WriteSeparated(items: seq<string>, sink: CharSink)
    modifies sink
    ensures sink.text == old(sink.text) + Separated(items)
  {
    var outputDelim := new DelimOutputter(sink);
    var i := 0;
    while i < |items|
      invariant 0 <= i <= |items|
      invariant outputDelim.iter == sink && outputDelim.first == (i == 0)
      invariant sink.text == old(sink.text) + Separated(items[..i])
    {
      outputDelim.Call();
      assert items[..i + 1][..i] == items[..i];
      sink.text := sink.text + items[i];
      i := i + 1;
    }
    assert items[..|items|] == items;
  }

  /** n items give n - 1 separators. */
  lemma {:induction false} SeparatedLength(items: seq<string>)
    ensures |Separated(items)| == Lengths(items) + (if items == [] then 0 else 2 * (|items| - 1))
  {
    if |items| > 1 {
      var init := items[..|items| - 1];
      SeparatedLength(init);
      LengthsSnoc(init, items[|items| - 1]);
      assert init + [items[|items| - 1]] == items;
    } else if |items| == 1 {
      assert items[1..] == [];
    }
  }

  function Lengths(items: seq<string>): nat {
    if items == [] then 0 else |items[0]| + Lengths(items[1..])
  }

  lemma {:induction false} LengthsSnoc(items: seq<string>, last: string)
    ensures Lengths(items + [last]) == Lengths(items) + |last|
  {
    if items != [] {
      assert (items + [last])[1..] == items[1..] + [last];
      LengthsSnoc(items[1..], last);
    } else {
      assert [last][1..] == [];
    }
  }
}
