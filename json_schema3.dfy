// src/json_schema3.cpp: the third schema compiler. Every object schema
// becomes a record; nested objects become records of their own, named by
// their path; arrays become vectors of a primitive or of a $defs record.

module JsonSchema3 {
  import opened Basics
  import opened JsonParse
  import opened SchemaTypes

  /** The JSON tree handle_object walks. It has the boolean alternative that the
      std::get<bool> of additionalProperties expects; json_parse.hpp's values embed into it. */
  datatype Node =
    | NInt(i: int)
    | NStr(s: string)
    | NBool(b: bool)
    | NObj(pairs: seq<(string, Node)>)
    | NArr(elems: seq<Node>)

  function Embed(v: JsonValue): Node
    decreases v
  {
    match v
    case JInt(i) => NInt(i)
    case JStr(s) => NStr(s)
    case JObj(ps) => NObj(EmbedPairs(ps))
    case JArr(es) => NArr(EmbedElems(es))
  }

  function EmbedPairs(ps: seq<(string, JsonValue)>): seq<(string, Node)>
    decreases ps
  {
    if ps == [] then [] else assert ps[0].1 < ps[0]; [(ps[0].0, Embed(ps[0].1))] + EmbedPairs(ps[1..])
  }

  function EmbedElems(es: seq<JsonValue>): seq<Node>
    decreases es
  {
    if es == [] then [] else [Embed(es[0])] + EmbedElems(es[1..])
  }

  /** A measure for the recursion through nested property schemas. */
  function Size(n: Node): nat
    decreases n
  {
    if n.NObj? then 1 + PairsSize(n.pairs) else 1
  }

  function PairsSize(ps: seq<(string, Node)>): nat
    decreases ps
  {
    if ps == [] then 0 else assert ps[0].1 < ps[0]; Size(ps[0].1) + PairsSize(ps[1..])
  }

  /** A value found by get_by_key is no larger than the pairs it was found in. */
  lemma {:induction false} LookupSize(ps: seq<(string, Node)>, key: string)
    ensures Lookup(ps, key).Some? ==> Size(Lookup(ps, key).value) <= PairsSize(ps)
    decreases ps
  {
    if ps != [] && ps[0].0 != key {
      LookupSize(ps[1..], key);
    }
  }

  const DefStart: string := "#/$defs/"
  const BagField: Field := Field("additional_properties", Bag)

  // ---------------------------------------------------------------------
  // handle_field and handle_array

  /** handle_field: the schema's "type" names a primitive, or the assert fails. */
  function HandleField(def: seq<(string, Node)>): Outcome<FieldType> {
    match Lookup(def, "type")
    case None => Stopped(Threw(NoMatchingKey))
    case Some(t) =>
      if !t.NStr? then Stopped(BadVariantAccess)
      else match Lookup(TypeMapping, t.s)
        case None => Stopped(AssertionFailed)
        case Some(p) => Done(Prim(p))
  }

  /** handle_array: items with a "type" give a vector of that primitive; otherwise
      items must hold a "$ref" into "#/$defs/", and the vector holds that record. */
  function HandleArray(def: seq<(string, Node)>): Outcome<FieldType> {
    match Lookup(def, "items")
    case None => Stopped(Threw(NoMatchingKey))
    case Some(items) =>
      if !items.NObj? then Stopped(BadVariantAccess)
      else if Lookup(items.pairs, "type").Some? then
        match HandleField(items.pairs)
        case Stopped(w) => Stopped(w)
        case Done(t) => Done(Vec(t))
      else match Lookup(items.pairs, "$ref")
        case None => Stopped(Threw(NoMatchingKey))
        case Some(ref) =>
          if !ref.NStr? then Stopped(BadVariantAccess)
          else if !(DefStart <= ref.s) then Stopped(AssertionFailed)
          else Done(Vec(Rec(ref.s[|DefStart|..])))
  }

  // ---------------------------------------------------------------------
  // handle_object

  /** The strings of a "required" array; any other element is a bad variant access. */
  function Strings(es: seq<Node>): Outcome<seq<string>>
  {
    if es == [] then Done([])
    else if !es[0].NStr? then Stopped(BadVariantAccess)
    else match Strings(es[1..])
      case Stopped(w) => Stopped(w)
      case Done(ss) => Done([es[0].s] + ss)
  }

  /** required_fields: the "required" array, or nothing when the key is absent. */
  function RequiredNames(def: seq<(string, Node)>): Outcome<seq<string>> {
    match Lookup(def, "required")
    case None => Done([])
    case Some(req) => if !req.NArr? then Stopped(BadVariantAccess) else Strings(req.elems)
  }

  /** The type of one property, and the registry after any record it defines. */
  function PropertyType(defs: seq<Record>, structName: string, name: string, props: Node): Outcome<(FieldType, seq<Record>)>
    decreases Size(props), 1
  {
    if !props.NObj? then Stopped(BadVariantAccess)
    else match Lookup(props.pairs, "type")
      case None => Stopped(Threw(NoMatchingKey))
      case Some(t) =>
        if !t.NStr? then Stopped(BadVariantAccess)
        else if t.s == "object" then HandleObject(defs, structName + "::" + name, props.pairs)
        else if t.s == "array" then Keep(HandleArray(props.pairs), defs)
        else Keep(HandleField(props.pairs), defs)
  }

  function Keep(t: Outcome<FieldType>, defs: seq<Record>): Outcome<(FieldType, seq<Record>)> {
    match t
    case Stopped(w) => Stopped(w)
    case Done(ty) => Done((ty, defs))
  }

  /** A property becomes a member of its own type when required, and of std::optional of it otherwise. */
  function Member(name: string, ty: FieldType, required: seq<string>): Field {
    if name in required then Field(name, ty) else Field(name, Opt(ty))
  }

  /** The members for the properties in order, and the registry after their nested records. */
  function Properties(defs: seq<Record>, structName: string, required: seq<string>, pp: seq<(string, Node)>)
    : Outcome<(seq<Field>, seq<Record>)>
    decreases PairsSize(pp), 2
  {
    if pp == [] then Done(([], defs))
    else match PropertyType(defs, structName, pp[0].0, pp[0].1)
      case Stopped(w) => Stopped(w)
      case Done((ty, defs1)) =>
        Ahead([Member(pp[0].0, ty, required)], Properties(defs1, structName, required, pp[1..]))
  }

  /** Members already pushed, in front of what the rest of the loop yields. */
  function Ahead(fields: seq<Field>, rest: Outcome<(seq<Field>, seq<Record>)>): Outcome<(seq<Field>, seq<Record>)> {
    match rest
    case Stopped(w) => Stopped(w)
    case Done((fs, defs)) => Done((fields + fs, defs))
  }

  /** The additional_properties member is appended when additionalProperties is absent or true. */
  function WithBag(def: seq<(string, Node)>, fields: seq<Field>): Outcome<seq<Field>> {
    match Lookup(def, "additionalProperties")
    case None => Done(fields + [BagField])
    case Some(a) =>
      if !a.NBool? then Stopped(BadVariantAccess)
      else if a.b then Done(fields + [BagField])
      else Done(fields)
  }

  /** handle_object: the record structName with one member per property; the type is that record. */
  function HandleObject(defs: seq<Record>, structName: string, def: seq<(string, Node)>): Outcome<(FieldType, seq<Record>)>
    decreases PairsSize(def), 0
  {
    match RequiredNames(def)
    case Stopped(w) => Stopped(w)
    case Done(required) =>
      match Lookup(def, "properties")
      case None => Stopped(Threw(NoMatchingKey))
      case Some(p) =>
        if !p.NObj? then Stopped(BadVariantAccess)
        else
          LookupSize(def, "properties");
          match Properties(defs, structName, required, p.pairs)
          case Stopped(w) => Stopped(w)
          case Done((fields, defs1)) =>
            match WithBag(def, fields)
            case Stopped(w) => Stopped(w)
            case Done(all) =>
              match Define(defs1, structName, all)
              case None => Stopped(AlreadyDefined(structName))
              case Some(defs2) => Done((Rec(structName), defs2))
  }

  // ---------------------------------------------------------------------
  // define_schema_types

  /** Each "$defs" entry in order, as an object record named by its key. */
  function DefsLoop(defs: seq<Record>, entries: seq<(string, Node)>): Outcome<seq<Record>>
    decreases entries
  {
    if entries == [] then Done(defs)
    else if !entries[0].1.NObj? then Stopped(BadVariantAccess)
    else match HandleObject(defs, entries[0].0, entries[0].1.pairs)
      case Stopped(w) => Stopped(w)
      case Done((_, defs1)) => DefsLoop(defs1, entries[1..])
  }

  /** The optional "$defs" object. */
  function DefineDefs(defs: seq<Record>, json: seq<(string, Node)>): Outcome<seq<Record>> {
    match Lookup(json, "$defs")
    case None => Done(defs)
    case Some(d) => if !d.NObj? then Stopped(BadVariantAccess) else DefsLoop(defs, d.pairs)
  }

  /** define_schema_types on a parsed schema: the $defs records, then the root record structName. */
  function DefineOn(defs: seq<Record>, structName: string, json: Node): Outcome<seq<Record>> {
    if !json.NObj? then Stopped(BadVariantAccess)
    else match DefineDefs(defs, json.pairs)
      case Stopped(w) => Stopped(w)
      case Done(defs1) => AfterRootType(defs1, structName, json.pairs)
  }

  /** The root's "type" must be present and a string; its value is not looked at. */
  function AfterRootType(defs: seq<Record>, structName: string, json: seq<(string, Node)>): Outcome<seq<Record>> {
    match Lookup(json, "type")
    case None => Stopped(Threw(NoMatchingKey))
    case Some(t) =>
      if !t.NStr? then Stopped(BadVariantAccess)
      else match HandleObject(defs, structName, json)
        case Stopped(w) => Stopped(w)
        case Done((_, defs1)) => Done(defs1)
  }

  /** define_schema_types: parse the schema text, then define its records.
      A parse that never ends (Diverges) is carried as Threw(Diverges):
      evaluation does not finish, and no exception is thrown. */
  function DefineSchemaTypes(defs: seq<Record>, structName: string, schema: string): Outcome<seq<Record>> {
    match Parse(schema)
    case Fail(e) => Stopped(Threw(e))
    case Ok(json) => DefineOn(defs, structName, Embed(json))
  }

  // ---------------------------------------------------------------------
  // What handle_object builds

  /** The type string of a property schema, when it has one. */
  function TypeName(props: Node): Option<string> {
    if props.NObj? && Lookup(props.pairs, "type").Some? && Lookup(props.pairs, "type").value.NStr?
    then Some(Lookup(props.pairs, "type").value.s)
    else None
  }

  /** The property schemas of an object schema (none when "properties" is missing or not an object). */
  function PropsOf(def: seq<(string, Node)>): seq<(string, Node)> {
    if Lookup(def, "properties").Some? && Lookup(def, "properties").value.NObj?
    then Lookup(def, "properties").value.pairs
    else []
  }

  function RequiredOf(def: seq<(string, Node)>): seq<string> {
    if RequiredNames(def).Done? then RequiredNames(def).value else []
  }

  /** additionalProperties is absent or true. */
  predicate BagWanted(def: seq<(string, Node)>) {
    Lookup(def, "additionalProperties").None? || Lookup(def, "additionalProperties").value == NBool(true)
  }

  function Unwrap(t: FieldType): FieldType {
    if t.Opt? then t.inner else t
  }

  /** The members of structName for the properties pp: one per property and in the same order,
      optional exactly when the name is not required, and a nested object's member has the
      record named by the path as its type. */
  ghost predicate MembersFor(structName: string, pp: seq<(string, Node)>, required: seq<string>, fs: seq<Field>) {
    |fs| == |pp| &&
    forall j :: 0 <= j < |pp| ==>
      TypeName(pp[j].1).Some? && fs[j].name == pp[j].0 && (fs[j].ty.Opt? <==> pp[j].0 !in required)
      && Unwrap(fs[j].ty) != Bag && !Unwrap(fs[j].ty).Opt?
      && (TypeName(pp[j].1) == Some("object") ==> Unwrap(fs[j].ty) == Rec(structName + "::" + pp[j].0))
  }

  /** The registry only grows. handle_object leaves its own record last, after the records of its
      nested objects, and, define_aggregate refusing a second definition, no name is defined twice. */
  lemma {:induction false} HandleObjectGrows(defs: seq<Record>, structName: string, def: seq<(string, Node)>)
    requires HandleObject(defs, structName, def).Done?
    ensures HandleObject(defs, structName, def).value.0 == Rec(structName)
    ensures |HandleObject(defs, structName, def).value.1| > 0
    ensures defs <= HandleObject(defs, structName, def).value.1[..|HandleObject(defs, structName, def).value.1| - 1]
    ensures HandleObject(defs, structName, def).value.1[|HandleObject(defs, structName, def).value.1| - 1].name == structName
    ensures Unique(defs) ==> Unique(HandleObject(defs, structName, def).value.1)
    decreases PairsSize(def), 0
  {
    var required := RequiredNames(def).value;
    var p := Lookup(def, "properties").value;
    LookupSize(def, "properties");
    PropertiesGrows(defs, structName, required, p.pairs);
    var fields := Properties(defs, structName, required, p.pairs).value.0;
    var defs1 := Properties(defs, structName, required, p.pairs).value.1;
    var all := WithBag(def, fields).value;
    if Unique(defs) {
      DefineMeaning(defs1, structName, all);
    }
    var d2 := defs1 + [Record(structName, all)];
    assert d2[..|d2| - 1] == defs1;
  }

  lemma {:induction false} PropertyTypeGrows(defs: seq<Record>, structName: string, name: string, props: Node)
    requires PropertyType(defs, structName, name, props).Done?
    ensures defs <= PropertyType(defs, structName, name, props).value.1
    ensures Unique(defs) ==> Unique(PropertyType(defs, structName, name, props).value.1)
    decreases Size(props), 1
  {
    if TypeName(props) == Some("object") {
      HandleObjectGrows(defs, structName + "::" + name, props.pairs);
    }
  }

  lemma {:induction false} PropertiesGrows(defs: seq<Record>, structName: string, required: seq<string>, pp: seq<(string, Node)>)
    requires Properties(defs, structName, required, pp).Done?
    ensures defs <= Properties(defs, structName, required, pp).value.1
    ensures Unique(defs) ==> Unique(Properties(defs, structName, required, pp).value.1)
    decreases PairsSize(pp), 2
  {
    if pp != [] {
      PropertyTypeGrows(defs, structName, pp[0].0, pp[0].1);
      var defs1 := PropertyType(defs, structName, pp[0].0, pp[0].1).value.1;
      PropertiesGrows(defs1, structName, required, pp[1..]);
    }
  }

  /** One property's type is never an optional or a bag itself. A nested object's type is the record
      named by the path, which is now defined; an array or primitive property defines nothing. */
  lemma {:induction false} PropertyTypeMeaning(defs: seq<Record>, structName: string, name: string, props: Node)
    requires PropertyType(defs, structName, name, props).Done?
    ensures TypeName(props).Some?
    ensures PropertyType(defs, structName, name, props).value.0 != Bag
    ensures !PropertyType(defs, structName, name, props).value.0.Opt?
    ensures TypeName(props) == Some("object") ==>
      PropertyType(defs, structName, name, props).value.0 == Rec(structName + "::" + name)
      && Named(PropertyType(defs, structName, name, props).value.1, structName + "::" + name)
    ensures TypeName(props) != Some("object") ==> PropertyType(defs, structName, name, props).value.1 == defs
  {
    if TypeName(props) == Some("object") {
      HandleObjectGrows(defs, structName + "::" + name, props.pairs);
      var d := PropertyType(defs, structName, name, props).value.1;
      assert d[|d| - 1].name == structName + "::" + name;
    }
  }

  /** The loop emits the members in properties order, each optional exactly when not required, and
      every nested object's record is defined; without nested objects the registry is unchanged. */
  lemma {:induction false} PropertiesShape(defs: seq<Record>, structName: string, required: seq<string>, pp: seq<(string, Node)>)
    requires Properties(defs, structName, required, pp).Done?
    ensures MembersFor(structName, pp, required, Properties(defs, structName, required, pp).value.0)
    ensures forall j :: 0 <= j < |pp| && TypeName(pp[j].1) == Some("object") ==>
      Named(Properties(defs, structName, required, pp).value.1, structName + "::" + pp[j].0)
    ensures (forall j :: 0 <= j < |pp| ==> TypeName(pp[j].1) != Some("object")) ==>
      Properties(defs, structName, required, pp).value.1 == defs
    decreases pp
  {
    if pp != [] {
      var r := PropertyType(defs, structName, pp[0].0, pp[0].1);
      PropertyTypeMeaning(defs, structName, pp[0].0, pp[0].1);
      var defs1 := r.value.1;
      PropertiesShape(defs1, structName, required, pp[1..]);
      PropertiesGrows(defs1, structName, required, pp[1..]);
      var rest := Properties(defs1, structName, required, pp[1..]).value;
      var fs := [Member(pp[0].0, r.value.0, required)] + rest.0;
      assert Properties(defs, structName, required, pp).value == (fs, rest.1);
      forall j | 0 <= j < |pp| && TypeName(pp[j].1) == Some("object")
        ensures Named(rest.1, structName + "::" + pp[j].0)
      {
        if j == 0 {
          NamedGrows(defs1, rest.1, structName + "::" + pp[0].0);
        } else {
          assert pp[1..][j - 1] == pp[j];
        }
      }
      forall j | 0 <= j < |pp|
        ensures TypeName(pp[j].1).Some? && fs[j].name == pp[j].0 && (fs[j].ty.Opt? <==> pp[j].0 !in required)
          && Unwrap(fs[j].ty) != Bag && !Unwrap(fs[j].ty).Opt?
          && (TypeName(pp[j].1) == Some("object") ==> Unwrap(fs[j].ty) == Rec(structName + "::" + pp[j].0))
      {
        if j > 0 {
          assert pp[1..][j - 1] == pp[j] && rest.0[j - 1] == fs[j];
        }
      }
      if forall j :: 0 <= j < |pp| ==> TypeName(pp[j].1) != Some("object") {
        forall j | 0 <= j < |pp[1..]|
          ensures TypeName(pp[1..][j].1) != Some("object")
        {
          assert pp[1..][j] == pp[j + 1];
        }
      }
    }
  }

  /** The record handle_object defines: its members for the properties, in order, optional exactly
      when not required; then the additional_properties bag, exactly when additionalProperties is
      absent or true. The properties and each property's type are mandatory. */
  lemma {:induction false} HandleObjectMeaning(defs: seq<Record>, structName: string, def: seq<(string, Node)>)
    requires HandleObject(defs, structName, def).Done?
    ensures Lookup(def, "properties").Some? && Lookup(def, "properties").value.NObj?
    ensures Lookup(def, "additionalProperties").Some? ==> Lookup(def, "additionalProperties").value.NBool?
    ensures Last(HandleObject(defs, structName, def).value.1).name == structName
    ensures |Last(HandleObject(defs, structName, def).value.1).fields| == |PropsOf(def)| + (if BagWanted(def) then 1 else 0)
    ensures MembersFor(structName, PropsOf(def), RequiredOf(def),
      Last(HandleObject(defs, structName, def).value.1).fields[..|PropsOf(def)|])
    ensures BagWanted(def) ==> Last(HandleObject(defs, structName, def).value.1).fields[|PropsOf(def)|] == BagField
  {
    var required := RequiredNames(def).value;
    var pp := PropsOf(def);
    PropertiesShape(defs, structName, required, pp);
    var fields := Properties(defs, structName, required, pp).value.0;
    var all := WithBag(def, fields).value;
    assert all[..|pp|] == fields;
  }

  /** A schema without "properties" stops at get_by_key. */
  lemma {:induction false} PropertiesMandatory(defs: seq<Record>, structName: string, def: seq<(string, Node)>)
    requires RequiredNames(def).Done? && Lookup(def, "properties").None?
    ensures HandleObject(defs, structName, def) == Stopped(Threw(NoMatchingKey))
  {
  }

  /** handle_field succeeds exactly on the five primitive type names, with their type_mapping
      entries; any other type string fails the assert. */
  lemma {:induction false} HandleFieldMeaning(def: seq<(string, Node)>)
    ensures HandleField(def).Done? <==>
      Lookup(def, "type").Some? && Lookup(def, "type").value.NStr? && PrimNamed(Lookup(def, "type").value.s).Some?
    ensures HandleField(def).Done? ==> HandleField(def).value == Prim(PrimNamed(Lookup(def, "type").value.s).value)
    ensures Lookup(def, "type").Some? && Lookup(def, "type").value.NStr? && PrimNamed(Lookup(def, "type").value.s).None?
      ==> HandleField(def) == Stopped(AssertionFailed)
  {
    if Lookup(def, "type").Some? && Lookup(def, "type").value.NStr? {
      TypeMappingExact(Lookup(def, "type").value.s);
    }
  }

  /** Items whose type is an object or an array are not supported: handle_field's assert fails. */
  lemma {:induction false} NestedItemsFail(def: seq<(string, Node)>, items: seq<(string, Node)>, t: string)
    requires Lookup(def, "items") == Some(NObj(items)) && Lookup(items, "type") == Some(NStr(t))
    requires t == "object" || t == "array"
    ensures HandleArray(def) == Stopped(AssertionFailed)
  {
    HandleFieldMeaning(items);
  }

  /** Items with a type give a vector of that primitive. */
  lemma {:induction false} PrimitiveItems(def: seq<(string, Node)>, items: seq<(string, Node)>, t: string)
    requires Lookup(def, "items") == Some(NObj(items)) && Lookup(items, "type") == Some(NStr(t))
    requires PrimNamed(t).Some?
    ensures HandleArray(def) == Done(Vec(Prim(PrimNamed(t).value)))
  {
    HandleFieldMeaning(items);
  }

  /** Items without a type name a record by "$ref": a reference "#/$defs/" + name gives a vector of
      the record name, a reference with any other beginning fails the assert, and every vector of a
      record handle_array yields came from such a reference. */
  lemma {:induction false} ReferenceItems(def: seq<(string, Node)>, items: seq<(string, Node)>)
    requires Lookup(def, "items") == Some(NObj(items)) && Lookup(items, "type").None?
    ensures forall name :: Lookup(items, "$ref") == Some(NStr(DefStart + name)) ==> HandleArray(def) == Done(Vec(Rec(name)))
    ensures forall ref :: Lookup(items, "$ref") == Some(NStr(ref)) && !(DefStart <= ref) ==> HandleArray(def) == Stopped(AssertionFailed)
    ensures HandleArray(def).Done? ==>
      HandleArray(def).value.Vec? && HandleArray(def).value.elem.Rec?
      && Lookup(items, "$ref") == Some(NStr(DefStart + HandleArray(def).value.elem.name))
  {
    forall name | Lookup(items, "$ref") == Some(NStr(DefStart + name))
      ensures HandleArray(def) == Done(Vec(Rec(name)))
    {
      assert DefStart <= DefStart + name;
      assert (DefStart + name)[|DefStart|..] == name;
    }
    if HandleArray(def).Done? {
      var ref := Lookup(items, "$ref").value.s;
      assert DefStart + ref[|DefStart|..] == ref;
    }
  }

  // ---------------------------------------------------------------------
  // What define_schema_types builds

  /** The "$defs" entries of a schema (none when absent). */
  function DefEntries(json: Node): seq<(string, Node)> {
    if json.NObj? && Lookup(json.pairs, "$defs").Some? && Lookup(json.pairs, "$defs").value.NObj?
    then Lookup(json.pairs, "$defs").value.pairs
    else []
  }

  /** The $defs loop handles every entry, each as an object, each defining the record named by its key. */
  lemma {:induction false} DefsLoopGrows(defs: seq<Record>, entries: seq<(string, Node)>)
    requires DefsLoop(defs, entries).Done?
    ensures defs <= DefsLoop(defs, entries).value
    ensures Unique(defs) ==> Unique(DefsLoop(defs, entries).value)
    ensures forall k :: 0 <= k < |entries| ==> entries[k].1.NObj? && Named(DefsLoop(defs, entries).value, entries[k].0)
    decreases entries
  {
    if entries != [] {
      HandleObjectGrows(defs, entries[0].0, entries[0].1.pairs);
      var d1 := HandleObject(defs, entries[0].0, entries[0].1.pairs).value.1;
      DefsLoopGrows(d1, entries[1..]);
      var d := DefsLoop(d1, entries[1..]).value;
      assert d1[..|d1| - 1] <= d1;
      assert Named(d1, entries[0].0) by { assert d1[|d1| - 1].name == entries[0].0; }
      NamedGrows(d1, d, entries[0].0);
      forall k | 0 < k < |entries|
        ensures entries[k].1.NObj? && Named(d, entries[k].0)
      {
        assert entries[1..][k - 1] == entries[k];
      }
    }
  }

  /** Every $defs entry is defined, as an object record named by its key, before the root record,
      which is defined last under structName; the registry never holds a name twice. */
  lemma {:induction false} DefsBeforeRoot(defs: seq<Record>, structName: string, json: Node)
    requires DefineOn(defs, structName, json).Done?
    ensures |DefineOn(defs, structName, json).value| > 0
    ensures defs <= DefineOn(defs, structName, json).value
    ensures Last(DefineOn(defs, structName, json).value).name == structName
    ensures forall k :: 0 <= k < |DefEntries(json)| ==>
      DefEntries(json)[k].1.NObj? && Named(DefineOn(defs, structName, json).value[..|DefineOn(defs, structName, json).value| - 1], DefEntries(json)[k].0)
    ensures Unique(defs) ==> Unique(DefineOn(defs, structName, json).value)
  {
    var defs1 := DefineDefs(defs, json.pairs).value;
    if Lookup(json.pairs, "$defs").Some? {
      DefsLoopGrows(defs, DefEntries(json));
    }
    HandleObjectGrows(defs1, structName, json.pairs);
    var d := DefineOn(defs, structName, json).value;
    assert d[..|d| - 1] <= d;
    forall k | 0 <= k < |DefEntries(json)|
      ensures Named(d[..|d| - 1], DefEntries(json)[k].0)
    {
      NamedGrows(defs1, d[..|d| - 1], DefEntries(json)[k].0);
    }
  }

  /** The root's "type" is read but never checked: with any two type strings the outcome is the same. */
  lemma {:induction false} RootTypeUnchecked(defs: seq<Record>, structName: string, rest: seq<(string, Node)>, t1: string, t2: string)
    ensures DefineOn(defs, structName, NObj([("type", NStr(t1))] + rest)) == DefineOn(defs, structName, NObj([("type", NStr(t2))] + rest))
  {
    var a := [("type", NStr(t1))] + rest;
    var b := [("type", NStr(t2))] + rest;
    assert a[1..] == rest && b[1..] == rest;
    assert Lookup(a, "$defs") == Lookup(b, "$defs");
    assert Lookup(a, "required") == Lookup(b, "required");
    assert Lookup(a, "properties") == Lookup(b, "properties");
    assert Lookup(a, "additionalProperties") == Lookup(b, "additionalProperties");
    assert DefineDefs(defs, a) == DefineDefs(defs, b);
    if DefineDefs(defs, a).Done? {
      var d := DefineDefs(defs, a).value;
      assert HandleObject(d, structName, a) == HandleObject(d, structName, b);
    }
  }

  // ---------------------------------------------------------------------
  // Schemas read by json_parse.hpp

  lemma {:induction false} EmbedLookup(ps: seq<(string, JsonValue)>, key: string)
    ensures Lookup(EmbedPairs(ps), key) == if Lookup(ps, key).Some? then Some(Embed(Lookup(ps, key).value)) else None
    decreases ps
  {
    if ps != [] && ps[0].0 != key {
      EmbedLookup(ps[1..], key);
    }
  }

  /** In the wider tree, a schema embedded from json_parse.hpp, which has no boolean, is handled
      only when it leaves out additionalProperties, and its record then ends with the
      additional_properties bag. */
  lemma {:induction false} ParsedSchemaKeepsBag(defs: seq<Record>, structName: string, ps: seq<(string, JsonValue)>)
    requires HandleObject(defs, structName, EmbedPairs(ps)).Done?
    ensures Lookup(ps, "additionalProperties").None?
    ensures |Last(HandleObject(defs, structName, EmbedPairs(ps)).value.1).fields| == |PropsOf(EmbedPairs(ps))| + 1
    ensures Last(HandleObject(defs, structName, EmbedPairs(ps)).value.1).fields[|PropsOf(EmbedPairs(ps))|] == BagField
  {
    EmbedLookup(ps, "additionalProperties");
    HandleObjectMeaning(defs, structName, EmbedPairs(ps));
  }

  // ---------------------------------------------------------------------
  // The source's loops

  lemma {:induction false} EntrySize(ps: seq<(string, Node)>, i: nat)
    requires i < |ps|
    ensures Size(ps[i].1) <= PairsSize(ps)
    decreases i
  {
    if i > 0 {
      EntrySize(ps[1..], i - 1);
    }
  }

  lemma {:induction false} AheadNothing(rest: Outcome<(seq<Field>, seq<Record>)>)
    ensures Ahead([], rest) == rest
  {
    if rest.Done? {
      assert [] + rest.value.0 == rest.value.0;
    }
  }

  lemma {:induction false} AheadTwice(fields: seq<Field>, f: Field, rest: Outcome<(seq<Field>, seq<Record>)>)
    ensures Ahead(fields, Ahead([f], rest)) == Ahead(fields + [f], rest)
  {
    if rest.Done? {
      assert fields + ([f] + rest.value.0) == (fields + [f]) + rest.value.0;
    }
  }

  /** handle_object as the source writes it: a loop over the properties that pushes one member per
      property, recursing into nested objects, then the bag, then define_aggregate. */
  method DefineObjectRecord(defs: seq<Record>, structName: string, def: seq<(string, Node)>)
    returns (r: Outcome<(FieldType, seq<Record>)>)
    ensures r == HandleObject(defs, structName, def)
    decreases PairsSize(def)
  {
    var requiredFields := RequiredNames(def);
    if requiredFields.Stopped? {
      return Stopped(requiredFields.why);
    }
    var required := requiredFields.value;
    var propsRaw := GetByKey(def, "properties");
    if propsRaw.Fail? {
      return Stopped(Threw(propsRaw.error));
    }
    if !propsRaw.value.NObj? {
      return Stopped(BadVariantAccess);
    }
    var pp := propsRaw.value.pairs;
    LookupSize(def, "properties");
    var fields: seq<Field> := [];
    var registry := defs;
    var i := 0;
    assert pp[0..] == pp;
    AheadNothing(Properties(registry, structName, required, pp));
    while i < |pp|
      invariant 0 <= i <= |pp|
      invariant Properties(defs, structName, required, pp) == Ahead(fields, Properties(registry, structName, required, pp[i..]))
    {
      var name := pp[i].0;
      assert pp[i..][0] == pp[i] && pp[i..][1..] == pp[i + 1..];
      if !pp[i].1.NObj? {
        return Stopped(BadVariantAccess);
      }
      var props := pp[i].1.pairs;
      var typeRaw := GetByKey(props, "type");
      if typeRaw.Fail? {
        return Stopped(Threw(typeRaw.error));
      }
      if !typeRaw.value.NStr? {
        return Stopped(BadVariantAccess);
      }
      var ty: FieldType;
      if typeRaw.value.s == "object" {
        EntrySize(pp, i);
        var nested := DefineObjectRecord(registry, structName + "::" + name, props);
        if nested.Stopped? {
          return Stopped(nested.why);
        }
        ty, registry := nested.value.0, nested.value.1;
      } else if typeRaw.value.s == "array" {
        var a := HandleArray(props);
        if a.Stopped? {
          return Stopped(a.why);
        }
        ty := a.value;
      } else {
        var f := HandleField(props);
        if f.Stopped? {
          return Stopped(f.why);
        }
        ty := f.value;
      }
      var member := if name !in required then Field(name, Opt(ty)) else Field(name, ty);
      AheadTwice(fields, member, Properties(registry, structName, required, pp[i + 1..]));
      fields := fields + [member];
      i := i + 1;
    }
    assert pp[i..] == [];
    assert Properties(registry, structName, required, pp[i..]) == Done(([], registry));
    assert fields + [] == fields;
    assert Properties(defs, structName, required, pp) == Done((fields, registry));
    var addProp := Lookup(def, "additionalProperties");
    if addProp.Some? && !addProp.value.NBool? {
      return Stopped(BadVariantAccess);
    }
    if addProp.None? || addProp.value.b {
      fields := fields + [BagField];
    }
    var defined := Define(registry, structName, fields);
    if defined.None? {
      return Stopped(AlreadyDefined(structName));
    }
    return Done((Rec(structName), defined.value));
  }

  /** define_schema_types on a parsed schema: a loop over the $defs entries, then the root. */
  method DefineSchemaRecords(defs: seq<Record>, structName: string, json: Node) returns (r: Outcome<seq<Record>>)
    ensures r == DefineOn(defs, structName, json)
  {
    if !json.NObj? {
      return Stopped(BadVariantAccess);
    }
    var registry := defs;
    var defsRaw := Lookup(json.pairs, "$defs");
    if defsRaw.Some? {
      if !defsRaw.value.NObj? {
        return Stopped(BadVariantAccess);
      }
      var entries := defsRaw.value.pairs;
      var k := 0;
      while k < |entries|
        invariant 0 <= k <= |entries|
        invariant DefsLoop(defs, entries) == DefsLoop(registry, entries[k..])
      {
        assert entries[k..][0] == entries[k] && entries[k..][1..] == entries[k + 1..];
        if !entries[k].1.NObj? {
          return Stopped(BadVariantAccess);
        }
        var o := DefineObjectRecord(registry, entries[k].0, entries[k].1.pairs);
        if o.Stopped? {
          return Stopped(o.why);
        }
        registry := o.value.1;
        k := k + 1;
      }
    }
    var typeRaw := GetByKey(json.pairs, "type");
    if typeRaw.Fail? {
      return Stopped(Threw(typeRaw.error));
    }
    if !typeRaw.value.NStr? {
      return Stopped(BadVariantAccess);
    }
    var root := DefineObjectRecord(registry, structName, json.pairs);
    if root.Stopped? {
      return Stopped(root.why);
    }
    return Done(root.value.1);
  }

  /** define_schema_types: parse_json, then the records. */
  method DefineSchemaTypesFromText(defs: seq<Record>, structName: string, schema: string) returns (r: Outcome<seq<Record>>)
    ensures r == DefineSchemaTypes(defs, structName, schema)
  {
    var parsed := ParseJson(schema);
    if parsed.Fail? {
      return Stopped(Threw(parsed.error));
    }
    r := DefineSchemaRecords(defs, structName, Embed(parsed.value));
  }

  // ---------------------------------------------------------------------
  // The two schemas of the source, as trees

  const PainSchema: seq<(string, Node)> := [
    ("type", NStr("object")),
    ("properties", NObj([("sadness", NObj([("type", NStr("number"))]))])),
    ("required", NArr([NStr("sadness")])),
    ("additionalProperties", NBool(false))]

  const NestedSchema: seq<(string, Node)> := [
    ("$schema", NStr("https://json-schema.org/draft/2020-12/schema")),
    ("type", NStr("object")),
    ("properties", NObj([("pain", NObj(PainSchema))])),
    ("required", NArr([NStr("pain")])),
    ("additionalProperties", NBool(false))]

  /** A property schema {"type": t} of a primitive type t. */
  lemma {:induction false} PrimitiveProperty(defs: seq<Record>, structName: string, name: string, t: string)
    requires PrimNamed(t).Some?
    ensures PropertyType(defs, structName, name, NObj([("type", NStr(t))])) == Done((Prim(PrimNamed(t).value), defs))
  {
    var ps := [("type", NStr(t))];
    LookupAt(ps, 0, "type");
    assert Lookup(ps, "type") == Some(NStr(t));
    HandleFieldMeaning(ps);
    assert HandleField(ps) == Done(Prim(PrimNamed(t).value));
    assert t != "object" && t != "array";
  }

  lemma {:induction false} OneString(s: string)
    ensures Strings([NStr(s)]) == Done([s])
  {
    var es := [NStr(s)];
    assert es[1..] == [];
    assert Strings(es[1..]) == Done([]);
    assert [s] + [] == [s];
  }

  lemma {:induction false} PainRecord()
    ensures HandleObject([], "root::pain", PainSchema) == Done((Rec("root::pain"), [Record("root::pain", [Field("sadness", Prim(Double))])]))
  {
    var pp := [("sadness", NObj([("type", NStr("number"))]))];
    LookupAt(PainSchema, 2, "required");
    OneString("sadness");
    LookupAt(PainSchema, 1, "properties");
    PrimitiveProperty([], "root::pain", "sadness", "number");
    assert PropertyType([], "root::pain", "sadness", pp[0].1) == Done((Prim(Double), []));
    assert pp[1..] == [];
    assert Properties([], "root::pain", ["sadness"], pp[1..]) == Done(([], []));
    assert [Field("sadness", Prim(Double))] + [] == [Field("sadness", Prim(Double))];
    assert Properties([], "root::pain", ["sadness"], pp) == Done(([Field("sadness", Prim(Double))], []));
    LookupAt(PainSchema, 3, "additionalProperties");
    assert RequiredNames(PainSchema) == Done(["sadness"]);
    assert WithBag(PainSchema, [Field("sadness", Prim(Double))]) == Done([Field("sadness", Prim(Double))]);
    assert [] + [Record("root::pain", [Field("sadness", Prim(Double))])] == [Record("root::pain", [Field("sadness", Prim(Double))])];
  }

  /** root{.pain = {.sadness = 1.0}}: root has one required member pain of the record root::pain,
      which has one required double sadness; neither has the bag, as both forbid additional properties. */
  lemma {:induction false} NestedExample()
    ensures DefineOn([], "root", NObj(NestedSchema)) ==
      Done([Record("root::pain", [Field("sadness", Prim(Double))]), Record("root", [Field("pain", Rec("root::pain"))])])
  {
    var pp := [("pain", NObj(PainSchema))];
    var pain := Record("root::pain", [Field("sadness", Prim(Double))]);
    var field := Field("pain", Rec("root::pain"));
    LookupMissing(NestedSchema, "$defs");
    assert DefineDefs([], NestedSchema) == Done([]);
    LookupAt(NestedSchema, 1, "type");
    LookupAt(NestedSchema, 3, "required");
    OneString("pain");
    assert RequiredNames(NestedSchema) == Done(["pain"]);
    LookupAt(NestedSchema, 2, "properties");
    LookupAt(PainSchema, 0, "type");
    PainRecord();
    assert "root" + "::" + "pain" == "root::pain";
    assert PropertyType([], "root", "pain", pp[0].1) == Done((Rec("root::pain"), [pain]));
    assert pp[1..] == [];
    assert Properties([pain], "root", ["pain"], pp[1..]) == Done(([], [pain]));
    assert [field] + [] == [field];
    assert Properties([], "root", ["pain"], pp) == Done(([field], [pain]));
    LookupAt(NestedSchema, 4, "additionalProperties");
    assert WithBag(NestedSchema, [field]) == Done([field]);
    assert [pain][1..] == [];
    assert Find([pain], "root") == None;
    assert Define([pain], "root", [field]) == Some([pain, Record("root", [field])]) by {
      assert [pain] + [Record("root", [field])] == [pain, Record("root", [field])];
    }
    assert HandleObject([], "root", NestedSchema) == Done((Rec("root"), [pain, Record("root", [field])]));
  }

  const VeggieProperties: seq<(string, Node)> := [
    ("veggieName", NObj([("type", NStr("string"))])),
    ("veggieLike", NObj([("type", NStr("boolean"))]))]

  const VeggieSchema: seq<(string, Node)> := [
    ("type", NStr("object")),
    ("required", NArr([NStr("veggieName"), NStr("veggieLike")])),
    ("properties", NObj(VeggieProperties))]

  const FruitsItems: seq<(string, Node)> := [("type", NStr("string"))]
  const VegetablesItems: seq<(string, Node)> := [("$ref", NStr("#/$defs/veggie"))]
  const FruitsSchema: seq<(string, Node)> := [("type", NStr("array")), ("items", NObj(FruitsItems))]
  const VegetablesSchema: seq<(string, Node)> := [("type", NStr("array")), ("items", NObj(VegetablesItems))]

  const ArraySchema: seq<(string, Node)> := [
    ("$schema", NStr("https://json-schema.org/draft/2020-12/schema")),
    ("type", NStr("object")),
    ("properties", NObj([("fruits", NObj(FruitsSchema)), ("vegetables", NObj(VegetablesSchema))])),
    ("$defs", NObj([("veggie", NObj(VeggieSchema))]))]

  const VeggieRecord := Record("veggie", [Field("veggieName", Prim(StdString)), Field("veggieLike", Prim(Bool)), BagField])

  lemma {:induction false} VeggieDefined()
    ensures HandleObject([], "veggie", VeggieSchema) == Done((Rec("veggie"), [VeggieRecord]))
  {
    var pp := VeggieProperties;
    var req := ["veggieName", "veggieLike"];
    var name := Field("veggieName", Prim(StdString));
    var like := Field("veggieLike", Prim(Bool));
    LookupAt(VeggieSchema, 1, "required");
    assert Strings([NStr("veggieName"), NStr("veggieLike")]) == Done(req) by {
      var es := [NStr("veggieName"), NStr("veggieLike")];
      assert es[1..] == [NStr("veggieLike")];
      OneString("veggieLike");
      assert ["veggieName"] + ["veggieLike"] == req;
    }
    assert RequiredNames(VeggieSchema) == Done(req);
    LookupAt(VeggieSchema, 2, "properties");
    PrimitiveProperty([], "veggie", "veggieName", "string");
    PrimitiveProperty([], "veggie", "veggieLike", "boolean");
    assert PropertyType([], "veggie", "veggieName", pp[0].1) == Done((Prim(StdString), []));
    assert PropertyType([], "veggie", "veggieLike", pp[1].1) == Done((Prim(Bool), []));
    assert pp[1..][0] == pp[1] && pp[1..][1..] == [];
    assert Properties([], "veggie", req, pp[1..][1..]) == Done(([], []));
    assert [like] + [] == [like];
    assert Properties([], "veggie", req, pp[1..]) == Done(([like], []));
    assert [name] + [like] == [name, like];
    assert Properties([], "veggie", req, pp) == Done(([name, like], []));
    LookupMissing(VeggieSchema, "additionalProperties");
    assert [name, like] + [BagField] == VeggieRecord.fields;
    assert WithBag(VeggieSchema, [name, like]) == Done(VeggieRecord.fields);
    assert [] + [VeggieRecord] == [VeggieRecord];
  }

  lemma {:induction false} ArrayMembers()
    ensures PropertyType([VeggieRecord], "veggies_and_fruits", "fruits", NObj(FruitsSchema)) == Done((Vec(Prim(StdString)), [VeggieRecord]))
    ensures PropertyType([VeggieRecord], "veggies_and_fruits", "vegetables", NObj(VegetablesSchema)) == Done((Vec(Rec("veggie")), [VeggieRecord]))
  {
    LookupAt(FruitsSchema, 0, "type");
    LookupAt(FruitsSchema, 1, "items");
    LookupAt(FruitsItems, 0, "type");
    PrimitiveItems(FruitsSchema, FruitsItems, "string");
    LookupAt(VegetablesSchema, 0, "type");
    LookupAt(VegetablesSchema, 1, "items");
    LookupMissing(VegetablesItems, "type");
    LookupAt(VegetablesItems, 0, "$ref");
    assert DefStart + "veggie" == "#/$defs/veggie";
    ReferenceItems(VegetablesSchema, VegetablesItems);
  }

  const ArrayRootRecord := Record("veggies_and_fruits", [
    Field("fruits", Opt(Vec(Prim(StdString)))), Field("vegetables", Opt(Vec(Rec("veggie")))), BagField])

  lemma {:induction false} ArrayRoot()
    ensures HandleObject([VeggieRecord], "veggies_and_fruits", ArraySchema) ==
      Done((Rec("veggies_and_fruits"), [VeggieRecord, ArrayRootRecord]))
  {
    var d := [VeggieRecord];
    var fruits := Field("fruits", Opt(Vec(Prim(StdString))));
    var vegetables := Field("vegetables", Opt(Vec(Rec("veggie"))));
    LookupMissing(ArraySchema, "required");
    assert RequiredNames(ArraySchema) == Done([]);
    LookupAt(ArraySchema, 2, "properties");
    var pp := [("fruits", NObj(FruitsSchema)), ("vegetables", NObj(VegetablesSchema))];
    ArrayMembers();
    assert pp[1..][0] == pp[1] && pp[1..][1..] == [];
    assert Properties(d, "veggies_and_fruits", [], pp[1..][1..]) == Done(([], d));
    assert [vegetables] + [] == [vegetables];
    assert Properties(d, "veggies_and_fruits", [], pp[1..]) == Done(([vegetables], d));
    assert [fruits] + [vegetables] == [fruits, vegetables];
    assert Properties(d, "veggies_and_fruits", [], pp) == Done(([fruits, vegetables], d));
    LookupMissing(ArraySchema, "additionalProperties");
    assert [fruits, vegetables] + [BagField] == ArrayRootRecord.fields;
    assert WithBag(ArraySchema, [fruits, vegetables]) == Done(ArrayRootRecord.fields);
    assert d[1..] == [];
    assert Find(d, "veggies_and_fruits") == None;
    assert d + [ArrayRootRecord] == [VeggieRecord, ArrayRootRecord];
  }

  /** veggies_and_fruits and veggie: veggie is defined first, with its two required members and the
      bag; the root's two array members are optional vectors of string and of veggie, then the bag. */
  lemma {:induction false} ArrayExample()
    ensures DefineOn([], "veggies_and_fruits", NObj(ArraySchema)) ==
      Done([VeggieRecord, Record("veggies_and_fruits", [
        Field("fruits", Opt(Vec(Prim(StdString)))), Field("vegetables", Opt(Vec(Rec("veggie")))), BagField])])
  {
    var entries := [("veggie", NObj(VeggieSchema))];
    var d := [VeggieRecord];
    LookupAt(ArraySchema, 3, "$defs");
    VeggieDefined();
    assert entries[1..] == [];
    assert DefsLoop(d, entries[1..]) == Done(d);
    assert DefineDefs([], ArraySchema) == Done(d);
    LookupAt(ArraySchema, 1, "type");
    ArrayRoot();
  }
}
