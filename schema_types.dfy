// The records the three JSON Schema compilers (src/json_schema.cpp,
// src/json_schema2/main.cpp and src/json_schema3.cpp) generate with
// define_aggregate, and the registry of records already defined.

module SchemaTypes {
  import opened Basics
  import opened JsonParse

  /** The C++ types type_mapping names: std::nullptr_t, bool, double, std::int64_t, std::string. */
  datatype Prim = NullPtr | Bool | Double | Int64 | StdString

  /** The type of a generated data member. */
  datatype FieldType =
    | Prim(kind: Prim)        // a type_mapping entry
    | Rec(name: string)       // the record defs_struct<name>
    | Vec(elem: FieldType)    // std::vector<elem>
    | Opt(inner: FieldType)   // std::optional<inner>
    | Bag                     // the additional_properties map

  /** One data_member_spec: a name and a type. */
  datatype Field = Field(name: string, ty: FieldType)

  /** One define_aggregate call: the record's name and its members in order. */
  datatype Record = Record(name: string, fields: seq<Field>)

  /** Why constant evaluation (or compilation) stops. Threw(Diverges) is
      not an exception: it stands for parse_json_str's loop, which never
      ends, so evaluation never finishes and the program does not compile. */
  datatype Why =
    | Threw(error: ParseError)     // parse_json or get_by_key threw
    | BadVariantAccess             // std::get of the wrong json_value alternative
    | AssertionFailed              // a failed assert or static_assert
    | EmptyRange                   // std::ranges::max of an empty range
    | AlreadyDefined(name: string) // define_aggregate of a record that is already complete

  datatype Outcome<+T> = Done(value: T) | Stopped(why: Why)

  /** type_mapping, in the order the source lists it. */
  const TypeMapping: seq<(string, Prim)> :=
    [("null", NullPtr), ("boolean", Bool), ("number", Double), ("integer", Int64), ("string", StdString)]

  /** The type_mapping entry for a JSON Schema type name, written out name by name. */
  function PrimNamed(name: string): Option<Prim> {
    if name == "null" then Some(NullPtr)
    else if name == "boolean" then Some(Bool)
    else if name == "number" then Some(Double)
    else if name == "integer" then Some(Int64)
    else if name == "string" then Some(StdString)
    else None
  }

  /** Searching type_mapping by name finds exactly the five JSON Schema primitive type names. */
  lemma {:induction false} TypeMappingExact(name: string)
    ensures Lookup(TypeMapping, name) == PrimNamed(name)
  {
    var m := TypeMapping;
    if name != "null" {
      assert Lookup(m, name) == Lookup(m[1..], name);
      if name != "boolean" {
        assert Lookup(m[1..], name) == Lookup(m[2..], name) by { assert m[1..][1..] == m[2..]; }
        if name != "number" {
          assert Lookup(m[2..], name) == Lookup(m[3..], name) by { assert m[2..][1..] == m[3..]; }
          if name != "integer" {
            assert Lookup(m[3..], name) == Lookup(m[4..], name) by { assert m[3..][1..] == m[4..]; }
            if name != "string" {
              assert Lookup(m[4..], name) == Lookup(m[5..], name) by { assert m[4..][1..] == m[5..]; }
            }
          }
        }
      }
    }
  }

  /** The fields of the record called name, if one is defined. */
  function Find(defs: seq<Record>, name: string): (r: Option<seq<Field>>)
  {
    if defs == [] then None
    else if defs[0].name == name then Some(defs[0].fields)
    else Find(defs[1..], name)
  }

  /** A name is found exactly when some record has it. */
  lemma {:induction false} FindMeaning(defs: seq<Record>, name: string)
    ensures Find(defs, name).Some? <==> exists i :: 0 <= i < |defs| && defs[i].name == name
  {
    if defs != [] && defs[0].name != name {
      FindMeaning(defs[1..], name);
      if exists i :: 0 <= i < |defs| && defs[i].name == name {
        var i :| 0 <= i < |defs| && defs[i].name == name;
        assert defs[1..][i - 1] == defs[i];
      }
      if Find(defs, name).Some? {
        var i :| 0 <= i < |defs[1..]| && defs[1..][i].name == name;
        assert defs[i + 1].name == name;
      }
    }
    if defs != [] && defs[0].name == name {
      assert defs[0].name == name;
    }
  }

  /** define_aggregate: a name can be completed once; the record goes after those already defined. */
  function Define(defs: seq<Record>, name: string, fields: seq<Field>): Option<seq<Record>> {
    if Find(defs, name).Some? then None else Some(defs + [Record(name, fields)])
  }

  /** No two records share a name. */
  predicate Unique(defs: seq<Record>) {
    forall i, j :: 0 <= i < j < |defs| ==> defs[i].name != defs[j].name
  }

  /** Define refuses a name already used, keeps the records before it, and makes the
      new name resolve to its fields, so the registry stays free of duplicates. */
  lemma {:induction false} DefineMeaning(defs: seq<Record>, name: string, fields: seq<Field>)
    requires Unique(defs)
    ensures Define(defs, name, fields).None? <==> exists i :: 0 <= i < |defs| && defs[i].name == name
    ensures Define(defs, name, fields).Some? ==>
      Unique(Define(defs, name, fields).value) && defs <= Define(defs, name, fields).value
      && Find(Define(defs, name, fields).value, name) == Some(fields)
  {
    FindMeaning(defs, name);
    if Find(defs, name).None? {
      FindAfter(defs, [Record(name, fields)], name);
      assert [Record(name, fields)][1..] == [];
    }
  }

  /** Looking past records that do not carry the name. */
  lemma {:induction false} FindAfter(defs: seq<Record>, more: seq<Record>, name: string)
    requires Find(defs, name).None?
    ensures Find(defs + more, name) == Find(more, name)
  {
    if defs != [] {
      assert (defs + more)[1..] == defs[1..] + more;
      FindAfter(defs[1..], more, name);
    } else {
      assert defs + more == more;
    }
  }

  /** get_by_key finds the first pair with the key. */
  lemma {:induction false} LookupAt<V>(ps: seq<(string, V)>, i: nat, key: string)
    requires i < |ps| && ps[i].0 == key && forall j :: 0 <= j < i ==> ps[j].0 != key
    ensures Lookup(ps, key) == Some(ps[i].1)
  {
    LookupFirstMatch(ps, key);
  }

  /** get_by_key misses only when no pair has the key. */
  lemma {:induction false} LookupMissing<V>(ps: seq<(string, V)>, key: string)
    requires forall j :: 0 <= j < |ps| ==> ps[j].0 != key
    ensures Lookup(ps, key) == None
  {
    LookupFirstMatch(ps, key);
  }

  /** Some record in d has that name. */
  ghost predicate Named(d: seq<Record>, name: string) {
    exists i :: 0 <= i < |d| && d[i].name == name
  }

  /** A name defined stays defined as the registry grows. */
  lemma {:induction false} NamedGrows(d1: seq<Record>, d2: seq<Record>, name: string)
    requires d1 <= d2 && Named(d1, name)
    ensures Named(d2, name)
  {
    var i :| 0 <= i < |d1| && d1[i].name == name;
    assert d2[i] == d1[i];
  }

  /** The record defined last. */
  function Last(d: seq<Record>): Record
    requires |d| > 0
  {
    d[|d| - 1]
  }
}
