// src/json_schema2/main.cpp: the second schema compiler, over the template
// JSON parser of src/json_schema2/json.hpp. Every property of an object schema
// becomes a member that is never optional; a nested object becomes a record
// of its own, named StructName::name; an array adds no member yet.

module JsonSchema2 {
  import opened Basics
  import opened KhctString
  import opened SchemaTypes
  import JsonParse
  import J = KhctJson
  import M = KhctMap
  import C = KhctCommon
  import opened Sorting

  /** A multi_type_map that is a type at all: as many keys and indexes as values
      (its requires clause), and every index naming a value (std::get<Mapping[I]>). */
  predicate Formed(m: M.MultiTypeMap<string, J.Json>) {
    |m.keys| == |m.mapping| == |m.values| && forall j :: 0 <= j < |m.mapping| ==> m.mapping[j] < |m.values|
  }

  /** Def.template get_key<K>(): only a multi_type_map has it; nil when K is not a key. */
  function GetKey(def: J.Json, key: string): (r: C.NilOr<J.Json>)
    requires def.Object? && Formed(def.entries)
    ensures r.Other? ==> r.value < def
  {
    var r := M.GetKey(def.entries, key, LexLess);
    if r.Other? then
      var j := M.LowerBound(def.entries.keys, key, LexLess);
      assert def.entries.values[def.entries.mapping[j]] in def.entries.values;
      r
    else r
  }

  /** get<I>() of the multi_type_map: the key at Mapping[I] beside the I-th value. */
  function Property(pm: J.Json, i: nat): (p: C.Pair<string, J.Json>)
    requires pm.Object? && Formed(pm.entries) && i < |pm.entries.values|
    ensures p.second < pm
  {
    assert pm.entries.values[i] in pm.entries.values;
    M.Get(pm.entries, i).value
  }

  // ---------------------------------------------------------------------
  // handle_field and handle_object

  /** handle_field: the first type_mapping entry whose name is the view of the
      schema's "type"; the static_assert fails when there is none. */
  function HandleField(props: J.Json): J.Eval<FieldType>
    requires props.Object? && Formed(props.entries)
  {
    var t := GetKey(props, "type");
    if t.Nil? || !t.value.Text? then J.DoesNotCompile
    else match JsonParse.Lookup(TypeMapping, View(t.value.text))
      case None => J.DoesNotCompile
      case Some(p) => J.Compiles(Prim(p))
  }

  /** The type of one property's member, None for an array (no member), and the
      registry after any record a nested object defines. */
  function PropertyType(registry: seq<Record>, structName: string, name: string, props: J.Json)
    : J.Eval<(Option<FieldType>, seq<Record>)>
    decreases props, 3
  {
    if !props.Object? || !Formed(props.entries) then J.DoesNotCompile
    else
      var t := GetKey(props, "type");
      if t.Nil? || !t.value.Text? then J.DoesNotCompile
      else if View(t.value.text) == "object" then
        match HandleObject(registry, structName + "::" + name, props)
        case DoesNotCompile => J.DoesNotCompile
        case Compiles((ty, registry1)) => J.Compiles((Some(ty), registry1))
      else if View(t.value.text) == "array" then J.Compiles((None, registry))
      else
        match HandleField(props)
        case DoesNotCompile => J.DoesNotCompile
        case Compiles(ty) => J.Compiles((Some(ty), registry))
  }

  /** The name operator+ builds for a record two levels down. Map keys share the
      type of the longest key, so the key "pain" beside a key "painful" is widened
      with '\0' to eight characters, and `StructName + "::" + name` keeps that
      padding: the record this model names root::pain::inner has, in the source,
      a name whose view stops at root::pain. */
  lemma {:induction false} PaddedNestedName()
    ensures View(Concatenated(Concatenated(Concatenated(Concatenated(Lit("root"), Lit("::")),
                 Widened(Lit("pain"), 8)), Lit("::")), Lit("inner")))
            == "root::pain"
  {
    var n := Concatenated(Concatenated(Concatenated(Concatenated(Lit("root"), Lit("::")),
             Widened(Lit("pain"), 8)), Lit("::")), Lit("inner"));
    assert n == "root::pain" + ['\0'] + "\0\0::inner\0";
    UpToNulAt("root::pain", "\0\0::inner\0");
  }

  /** The member a property adds: none, or one named after the property. */
  function MemberOf(name: string, ty: Option<FieldType>): seq<Field> {
    if ty.Some? then [Field(name, ty.value)] else []
  }

  /** The `template for` over the properties map, from get<i> on. */
  function Fields(registry: seq<Record>, structName: string, pm: J.Json, i: nat): J.Eval<(seq<Field>, seq<Record>)>
    requires pm.Object? && Formed(pm.entries) && i <= |pm.entries.values|
    decreases pm, 0, |pm.entries.values| - i
  {
    if i == |pm.entries.values| then J.Compiles(([], registry))
    else
      var p := Property(pm, i);
      match PropertyType(registry, structName, p.first, p.second)
      case DoesNotCompile => J.DoesNotCompile
      case Compiles((ty, registry1)) => Before(MemberOf(p.first, ty), Fields(registry1, structName, pm, i + 1))
  }

  /** Members already pushed, in front of what the rest of the loop yields. */
  function Before(fields: seq<Field>, rest: J.Eval<(seq<Field>, seq<Record>)>): J.Eval<(seq<Field>, seq<Record>)> {
    match rest
    case DoesNotCompile => J.DoesNotCompile
    case Compiles((fs, registry)) => J.Compiles((fields + fs, registry))
  }

  /** A "properties" value the `template for` expands zero times over: get_key's
      nil for a missing key, true_, false_ and null (classes without members,
      whose structured binding size is 0), and the empty tuple of "[]". */
  predicate NoElements(p: C.NilOr<J.Json>) {
    p.Nil? || p.value.True? || p.value.False? || p.value.Null? || p.value == J.Tuple([])
  }

  /** The `template for` over Def's "properties": no iteration over a value without
      elements, the loop over a map; anything else (a string's characters, a
      non-empty tuple's elements, a number) has no `first` and does not compile. */
  function Members(registry: seq<Record>, structName: string, def: J.Json): J.Eval<(seq<Field>, seq<Record>)>
    requires def.Object? && Formed(def.entries)
    decreases def, 1
  {
    var p := GetKey(def, "properties");
    if NoElements(p) then J.Compiles(([], registry))
    else if p.value.Object? && Formed(p.value.entries) then Fields(registry, structName, p.value, 0)
    else J.DoesNotCompile
  }

  /** handle_object: the record StructName with a member per property in get<I>
      order; the type is that record. A second definition of a name does not compile. */
  function HandleObject(registry: seq<Record>, structName: string, def: J.Json): J.Eval<(FieldType, seq<Record>)>
    decreases def, 2
  {
    if !def.Object? || !Formed(def.entries) then J.DoesNotCompile
    else
      match Members(registry, structName, def)
      case DoesNotCompile => J.DoesNotCompile
      case Compiles((fields, registry1)) =>
        match Define(registry1, structName, fields)
        case None => J.DoesNotCompile
        case Some(registry2) => J.Compiles((Rec(structName), registry2))
  }

  // ---------------------------------------------------------------------
  // define_schema_types

  /** The records after handle_object, the type it returns being discarded. */
  function Registry(r: J.Eval<(FieldType, seq<Record>)>): J.Eval<seq<Record>> {
    match r
    case DoesNotCompile => J.DoesNotCompile
    case Compiles((_, registry)) => J.Compiles(registry)
  }

  /** define_schema_types on the parsed schema. The root's "type" is compared with
      the literal "object": a string<N> only converts from a char[N], so the
      comparison compiles for a six-character string, whose view is compared; a
      mismatch then meets the comparison with "array", which cannot compile for
      it. nil compares unequal to both and nothing is defined. true_ and false_
      compare with the literal converted to bool: true_ equals it, false_ equals
      neither. Any other value has no comparison with a string literal. */
  function DefineFromJson(registry: seq<Record>, structName: string, json: J.Json): J.Eval<seq<Record>> {
    if !json.Object? || !Formed(json.entries) then J.DoesNotCompile
    else
      match GetKey(json, "type")
      case Nil => J.Compiles(registry)
      case Other(t) =>
        if t.Text? && |t.text| == 7 && View(t.text) == "object" then Registry(HandleObject(registry, structName, json))
        else if t.True? then Registry(HandleObject(registry, structName, json))
        else if t.False? then J.Compiles(registry)
        else J.DoesNotCompile
  }

  /** define_schema_types<StructName, DefPrefix, JsonSchema>(); DefPrefix is not used. */
  function DefineSchemaTypes(registry: seq<Record>, structName: string, prefix: string, schema: CStr): J.Eval<seq<Record>> {
    match J.ParseJson(schema)
    case DoesNotCompile => J.DoesNotCompile
    case Compiles(json) => DefineFromJson(registry, structName, json)
  }

  // ---------------------------------------------------------------------
  // handle_object as a loop

  lemma {:induction false} BeforeNothing(rest: J.Eval<(seq<Field>, seq<Record>)>)
    ensures Before([], rest) == rest
  {
    if rest.Compiles? {
      assert [] + rest.v.0 == rest.v.0;
    }
  }

  lemma {:induction false} BeforeTwice(fields: seq<Field>, more: seq<Field>, rest: J.Eval<(seq<Field>, seq<Record>)>)
    ensures Before(fields, Before(more, rest)) == Before(fields + more, rest)
  {
    if rest.Compiles? {
      assert fields + (more + rest.v.0) == (fields + more) + rest.v.0;
    }
  }

  /** handle_object as the source writes it: the `template for` pushes one member
      per property that is not an array, recursing into nested objects first. */
  method DefineObject(registry: seq<Record>, structName: string, def: J.Json) returns (r: J.Eval<(FieldType, seq<Record>)>)
    ensures r == HandleObject(registry, structName, def)
    decreases def, 2
  {
    if !def.Object? || !Formed(def.entries) {
      return J.DoesNotCompile;
    }
    var p := GetKey(def, "properties");
    if NoElements(p) {
      var empty := Define(registry, structName, []);
      if empty.None? {
        return J.DoesNotCompile;
      }
      return J.Compiles((Rec(structName), empty.value));
    }
    if !p.value.Object? || !Formed(p.value.entries) {
      return J.DoesNotCompile;
    }
    var pm := p.value;
    var fields: seq<Field> := [];
    var d := registry;
    var i := 0;
    BeforeNothing(Fields(registry, structName, pm, 0));
    while i < |pm.entries.values|
      invariant 0 <= i <= |pm.entries.values|
      invariant Fields(registry, structName, pm, 0) == Before(fields, Fields(d, structName, pm, i))
    {
      var prop := Property(pm, i);
      var step := PushMember(d, structName, prop.first, prop.second);
      if step.DoesNotCompile? {
        return J.DoesNotCompile;
      }
      assert Fields(d, structName, pm, i) == Before(step.v.0, Fields(step.v.1, structName, pm, i + 1));
      BeforeTwice(fields, step.v.0, Fields(step.v.1, structName, pm, i + 1));
      fields := fields + step.v.0;
      d := step.v.1;
      i := i + 1;
    }
    assert fields + [] == fields;
    var next := Define(d, structName, fields);
    if next.None? {
      return J.DoesNotCompile;
    }
    return J.Compiles((Rec(structName), next.value));
  }

  /** One iteration of the `template for`: the members pushed for one property
      and the registry after it. */
  method PushMember(registry: seq<Record>, structName: string, name: string, props: J.Json)
    returns (r: J.Eval<(seq<Field>, seq<Record>)>)
    ensures r.DoesNotCompile? <==> PropertyType(registry, structName, name, props).DoesNotCompile?
    ensures r.Compiles? ==>
      r.v == (MemberOf(name, PropertyType(registry, structName, name, props).v.0), PropertyType(registry, structName, name, props).v.1)
    decreases props, 3
  {
    if !props.Object? || !Formed(props.entries) {
      return J.DoesNotCompile;
    }
    var t := GetKey(props, "type");
    if t.Nil? || !t.value.Text? {
      return J.DoesNotCompile;
    }
    if View(t.value.text) == "object" {
      var obj := DefineObject(registry, structName + "::" + name, props);
      if obj.DoesNotCompile? {
        return J.DoesNotCompile;
      }
      r := J.Compiles(([Field(name, obj.v.0)], obj.v.1));
    } else if View(t.value.text) == "array" {
      r := J.Compiles(([], registry));
    } else {
      var ty := HandleField(props);
      if ty.DoesNotCompile? {
        return J.DoesNotCompile;
      }
      r := J.Compiles(([Field(name, ty.v)], registry));
    }
  }

  /** define_schema_types from the schema's text. */
  method DefineSchemaRecords(registry: seq<Record>, structName: string, prefix: string, schema: CStr)
    returns (r: J.Eval<seq<Record>>)
    ensures r == DefineSchemaTypes(registry, structName, prefix, schema)
  {
    var parsed := J.ParseJson(schema);
    if parsed.DoesNotCompile? {
      return J.DoesNotCompile;
    }
    var json := parsed.v;
    if !json.Object? || !Formed(json.entries) {
      return J.DoesNotCompile;
    }
    var t := GetKey(json, "type");
    if t.Nil? {
      return J.Compiles(registry);
    }
    if (t.value.Text? && |t.value.text| == 7 && View(t.value.text) == "object") || t.value.True? {
      var obj := DefineObject(registry, structName, json);
      r := Registry(obj);
    } else if t.value.False? {
      r := J.Compiles(registry);
    } else {
      r := J.DoesNotCompile;
    }
  }

  // ---------------------------------------------------------------------
  // What handle_object promises

  /** The view of a property's "type" string, when it has one. */
  function TypeName(props: J.Json): Option<string> {
    if !props.Object? || !Formed(props.entries) then None
    else match GetKey(props, "type")
      case Other(Text(t)) => Some(View(t))
      case _ => None
  }

  /** handle_field compiles exactly for the five primitive type names, and
      yields their type_mapping entry, never an optional. */
  lemma {:induction false} HandleFieldMeaning(props: J.Json)
    requires props.Object? && Formed(props.entries)
    ensures HandleField(props).Compiles? <==> TypeName(props).Some? && PrimNamed(TypeName(props).value).Some?
    ensures HandleField(props).Compiles? ==> HandleField(props).v == Prim(PrimNamed(TypeName(props).value).value)
  {
    var t := GetKey(props, "type");
    if t.Other? && t.value.Text? {
      TypeMappingExact(View(t.value.text));
    }
  }

  /** The member handle_object promises for one property: none for an array, one of
      the record StructName::name for an object, otherwise the type_mapping entry. */
  function Promised(structName: string, name: string, props: J.Json): seq<Field> {
    match TypeName(props)
    case None => []
    case Some(t) =>
      if t == "object" then [Field(name, Rec(structName + "::" + name))]
      else if t == "array" then []
      else if PrimNamed(t).Some? then [Field(name, Prim(PrimNamed(t).value))]
      else []
  }

  /** The members promised for the properties from get<i> on. */
  function PromisedFrom(structName: string, pm: J.Json, i: nat): seq<Field>
    requires pm.Object? && Formed(pm.entries) && i <= |pm.entries.values|
    decreases |pm.entries.values| - i
  {
    if i == |pm.entries.values| then []
    else Promised(structName, Property(pm, i).first, Property(pm, i).second) + PromisedFrom(structName, pm, i + 1)
  }

  /** A property handle_object rejects: no "type" string, or one that is neither
      "object", "array" nor a type_mapping name. */
  predicate Rejected(props: J.Json) {
    TypeName(props).None? ||
    (TypeName(props).value != "object" && TypeName(props).value != "array" && PrimNamed(TypeName(props).value).None?)
  }

  /** A member of the record at k: a type_mapping entry, or a record defined before
      that one; never an optional, a vector or a map. */
  ghost predicate Plain(d: seq<Record>, k: nat, f: Field)
    requires k <= |d|
  {
    f.ty.Prim? || (f.ty.Rec? && Named(d[..k], f.ty.name))
  }

  /** Every member of the records from index from on is plain. */
  ghost predicate PlainFrom(d: seq<Record>, from: nat) {
    forall k, j :: from <= k < |d| && 0 <= j < |d[k].fields| ==> Plain(d, k, d[k].fields[j])
  }

  /** What one property gives: the registry only grows and keeps its names unique,
      the records added are plain, and the member is the one promised. */
  ghost predicate PropertyGives(registry: seq<Record>, structName: string, name: string, props: J.Json,
                                res: (Option<FieldType>, seq<Record>))
  {
    registry <= res.1 && Unique(res.1) && PlainFrom(res.1, |registry|)
    && MemberOf(name, res.0) == Promised(structName, name, props)
    && (res.0.Some? ==> Plain(res.1, |res.1|, Field(name, res.0.value)))
  }

  /** What the loop from get<i> on gives: the members promised, each plain. */
  ghost predicate FieldsGive(registry: seq<Record>, structName: string, pm: J.Json, i: nat,
                             res: (seq<Field>, seq<Record>))
    requires pm.Object? && Formed(pm.entries) && i <= |pm.entries.values|
  {
    registry <= res.1 && Unique(res.1) && PlainFrom(res.1, |registry|)
    && res.0 == PromisedFrom(structName, pm, i)
    && forall j :: 0 <= j < |res.0| ==> Plain(res.1, |res.1|, res.0[j])
  }

  /** What handle_object gives: the type is the record StructName, defined last
      with the members promised, after the records of nested objects. */
  ghost predicate ObjectGives(registry: seq<Record>, structName: string, fields: seq<Field>, res: (FieldType, seq<Record>))
  {
    res.0 == Rec(structName) && |registry| < |res.1| && registry <= res.1 && Unique(res.1)
    && Last(res.1) == Record(structName, fields)
    && PlainFrom(res.1, |registry|)
  }

  /** The "properties" map of an object schema, when it is one. */
  predicate HasProperties(def: J.Json) {
    def.Object? && Formed(def.entries) && GetKey(def, "properties").Other?
    && GetKey(def, "properties").value.Object? && Formed(GetKey(def, "properties").value.entries)
  }

  /** An object schema whose "properties" the `template for` can expand over:
      a map, or a value without elements. */
  predicate Expandable(def: J.Json) {
    def.Object? && Formed(def.entries) && (NoElements(GetKey(def, "properties")) || HasProperties(def))
  }

  /** The members handle_object promises: one per property of a "properties" map,
      none when "properties" has no elements. */
  function PromisedMembers(structName: string, def: J.Json): seq<Field>
    requires Expandable(def)
  {
    if HasProperties(def) then PromisedFrom(structName, GetKey(def, "properties").value, 0) else []
  }

  /** Plain members stay plain as the registry grows. */
  lemma {:induction false} PlainGrows(d1: seq<Record>, d2: seq<Record>, from: nat)
    requires d1 <= d2 && PlainFrom(d1, from) && PlainFrom(d2, |d1|)
    ensures PlainFrom(d2, from)
  {
    forall k, j | from <= k < |d2| && 0 <= j < |d2[k].fields|
      ensures Plain(d2, k, d2[k].fields[j])
    {
      if k < |d1| {
        assert d2[..k] == d1[..k];
        assert d2[k] == d1[k];
        assert Plain(d1, k, d1[k].fields[j]);
      }
    }
  }

  /** A member plain in a registry stays plain in a larger one. */
  lemma {:induction false} MemberGrows(d1: seq<Record>, d2: seq<Record>, f: Field)
    requires d1 <= d2 && Plain(d1, |d1|, f)
    ensures Plain(d2, |d2|, f)
  {
    if f.ty.Rec? {
      assert d1[..|d1|] == d1 && d2[..|d2|] == d2;
      NamedGrows(d1, d2, f.ty.name);
    }
  }

  /** One define_aggregate of plain members keeps the registry plain. */
  lemma {:induction false} PlainLast(d: seq<Record>, name: string, fields: seq<Field>)
    requires forall j :: 0 <= j < |fields| ==> Plain(d, |d|, fields[j])
    ensures PlainFrom(d + [Record(name, fields)], |d|)
  {
    var d2 := d + [Record(name, fields)];
    assert d2[..|d|] == d[..|d|] == d;
  }

  lemma {:induction false} HandleObjectMeaning(registry: seq<Record>, structName: string, def: J.Json)
    requires Unique(registry)
    ensures HandleObject(registry, structName, def).Compiles? ==>
      Expandable(def) && ObjectGives(registry, structName, PromisedMembers(structName, def), HandleObject(registry, structName, def).v)
    decreases def, 2
  {
    if HandleObject(registry, structName, def).Compiles? {
      var fs := Members(registry, structName, def);
      MembersMeaning(registry, structName, def);
      var fields := fs.v.0;
      var d1 := fs.v.1;
      DefineMeaning(d1, structName, fields);
      var d2 := d1 + [Record(structName, fields)];
      PlainLast(d1, structName, fields);
      PlainGrows(d1, d2, |registry|);
    }
  }

  /** The `template for` over "properties" compiles only over a map or a value
      without elements, and yields the promised members, each plain. */
  lemma {:induction false} MembersMeaning(registry: seq<Record>, structName: string, def: J.Json)
    requires Unique(registry) && def.Object? && Formed(def.entries)
    ensures Members(registry, structName, def).Compiles? ==>
      Expandable(def)
      && registry <= Members(registry, structName, def).v.1 && Unique(Members(registry, structName, def).v.1)
      && PlainFrom(Members(registry, structName, def).v.1, |registry|)
      && Members(registry, structName, def).v.0 == PromisedMembers(structName, def)
      && forall j :: 0 <= j < |Members(registry, structName, def).v.0| ==>
           Plain(Members(registry, structName, def).v.1, |Members(registry, structName, def).v.1|, Members(registry, structName, def).v.0[j])
    decreases def, 1
  {
    if Members(registry, structName, def).Compiles? {
      if HasProperties(def) {
        FieldsMeaning(registry, structName, GetKey(def, "properties").value, 0);
      } else {
        assert PlainFrom(registry, |registry|);
      }
    }
  }

  /** A "properties" value without elements (missing, true, false, null or "[]"):
      the `template for` expands zero times and StructName is defined with no
      members, unless it already is. */
  lemma {:induction false} EmptyRecord(registry: seq<Record>, structName: string, def: J.Json)
    requires def.Object? && Formed(def.entries) && NoElements(GetKey(def, "properties"))
    ensures HandleObject(registry, structName, def)
            == if SchemaTypes.Find(registry, structName).None?
               then J.Compiles((Rec(structName), registry + [Record(structName, [])]))
               else J.DoesNotCompile
  {
  }

  lemma {:induction false} PropertyTypeMeaning(registry: seq<Record>, structName: string, name: string, props: J.Json)
    requires Unique(registry)
    ensures PropertyType(registry, structName, name, props).Compiles? ==>
      PropertyGives(registry, structName, name, props, PropertyType(registry, structName, name, props).v)
    decreases props, 3
  {
    var r := PropertyType(registry, structName, name, props);
    if r.Compiles? {
      var t := View(GetKey(props, "type").value.text);
      assert TypeName(props) == Some(t);
      if t == "object" {
        var sub := structName + "::" + name;
        HandleObjectMeaning(registry, sub, props);
        assert r.v == (Some(Rec(sub)), HandleObject(registry, sub, props).v.1);
        NestedGives(registry, structName, name, props, r.v.1);
      } else if t != "array" {
        HandleFieldMeaning(props);
        assert r.v == (Some(HandleField(props).v), registry);
        assert PlainFrom(registry, |registry|);
      } else {
        assert r.v == (None, registry);
        assert PlainFrom(registry, |registry|);
      }
    }
  }

  /** A nested object's member: the record StructName::name just defined. */
  lemma {:induction false} NestedGives(registry: seq<Record>, structName: string, name: string, props: J.Json, d: seq<Record>)
    requires TypeName(props) == Some("object") && |d| > 0
    requires registry <= d && Unique(d) && PlainFrom(d, |registry|) && Last(d).name == structName + "::" + name
    ensures PropertyGives(registry, structName, name, props, (Some(Rec(structName + "::" + name)), d))
  {
    assert d[|d| - 1].name == structName + "::" + name;
    assert d[..|d|] == d;
  }

  lemma {:induction false} FieldsMeaning(registry: seq<Record>, structName: string, pm: J.Json, i: nat)
    requires Unique(registry) && pm.Object? && Formed(pm.entries) && i <= |pm.entries.values|
    ensures Fields(registry, structName, pm, i).Compiles? ==>
      FieldsGive(registry, structName, pm, i, Fields(registry, structName, pm, i).v)
    decreases pm, 0, |pm.entries.values| - i
  {
    var r := Fields(registry, structName, pm, i);
    if r.Compiles? && i < |pm.entries.values| {
      var p := Property(pm, i);
      var step := PropertyType(registry, structName, p.first, p.second);
      PropertyTypeMeaning(registry, structName, p.first, p.second);
      var d1 := step.v.1;
      var member := MemberOf(p.first, step.v.0);
      FieldsMeaning(d1, structName, pm, i + 1);
      var rest := Fields(d1, structName, pm, i + 1).v;
      var d := rest.1;
      PlainGrows(d1, d, |registry|);
      assert r.v == (member + rest.0, d);
      forall j | 0 <= j < |r.v.0|
        ensures Plain(d, |d|, r.v.0[j])
      {
        if j < |member| {
          MemberGrows(d1, d, member[j]);
        } else {
          assert r.v.0[j] == rest.0[j - |member|];
        }
      }
    }
  }

  /** A property with no "type" string, or with a type that is neither "object",
      "array" nor in type_mapping, stops the whole `template for`. */
  lemma {:induction false} FieldsRejects(registry: seq<Record>, structName: string, pm: J.Json, i: nat, j: nat)
    requires pm.Object? && Formed(pm.entries) && i <= j < |pm.entries.values|
    requires Rejected(Property(pm, j).second)
    ensures Fields(registry, structName, pm, i).DoesNotCompile?
    decreases j - i
  {
    var p := Property(pm, i);
    var step := PropertyType(registry, structName, p.first, p.second);
    if i == j {
      if TypeName(p.second).Some? {
        HandleFieldMeaning(p.second);
      }
    } else if step.Compiles? {
      FieldsRejects(step.v.1, structName, pm, i + 1, j);
    }
  }

  /** Some property of the map is rejected. */
  predicate SomeRejected(pm: J.Json)
    requires pm.Object? && Formed(pm.entries)
  {
    exists j :: 0 <= j < |pm.entries.values| && Rejected(Property(pm, j).second)
  }

  /** handle_object fails when "properties" is neither a map nor a value without
      elements, and with any rejected property. */
  lemma {:induction false} HandleObjectRejects(registry: seq<Record>, structName: string, def: J.Json)
    ensures !Expandable(def) ==> HandleObject(registry, structName, def).DoesNotCompile?
    ensures HasProperties(def) && SomeRejected(GetKey(def, "properties").value) ==>
      HandleObject(registry, structName, def).DoesNotCompile?
  {
    if HasProperties(def) {
      var pm := GetKey(def, "properties").value;
      if SomeRejected(pm) {
        var j :| 0 <= j < |pm.entries.values| && Rejected(Property(pm, j).second);
        FieldsRejects(registry, structName, pm, 0, j);
      }
    }
  }

  // ---------------------------------------------------------------------
  // What define_schema_types promises

  /** The root schema is emitted: its "type" is the string "object", or true_. */
  predicate RootIsObject(json: J.Json) {
    json.Object? && Formed(json.entries) && GetKey(json, "type").Other?
    && ((GetKey(json, "type").value.Text? && |GetKey(json, "type").value.text| == 7
         && View(GetKey(json, "type").value.text) == "object")
        || GetKey(json, "type").value.True?)
  }

  /** Only a root of type "object" defines records, the root record last; any
      other type string does not compile, and a root without a type defines nothing. */
  lemma {:induction false} DefineFromJsonMeaning(registry: seq<Record>, structName: string, json: J.Json)
    requires Unique(registry)
    ensures DefineFromJson(registry, structName, json).Compiles? && !RootIsObject(json) ==>
      DefineFromJson(registry, structName, json).v == registry
    ensures RootIsObject(json) && DefineFromJson(registry, structName, json).Compiles? ==>
      Expandable(json)
      && ObjectGives(registry, structName, PromisedMembers(structName, json),
                     (Rec(structName), DefineFromJson(registry, structName, json).v))
    ensures json.Object? && Formed(json.entries) && GetKey(json, "type").Other? && GetKey(json, "type").value.Text? && !RootIsObject(json)
      ==> DefineFromJson(registry, structName, json).DoesNotCompile?
  {
    if RootIsObject(json) {
      HandleObjectMeaning(registry, structName, json);
    }
  }

  /** define_schema_types defines records only for a schema that parses with a root
      of type "object", ending with the record StructName; DefPrefix changes nothing. */
  lemma {:induction false} DefineSchemaTypesMeaning(registry: seq<Record>, structName: string, prefix: string, schema: CStr)
    requires Unique(registry)
    ensures DefineSchemaTypes(registry, structName, prefix, schema) == DefineSchemaTypes(registry, structName, "", schema)
    ensures J.ParseJson(schema).DoesNotCompile? ==> DefineSchemaTypes(registry, structName, prefix, schema).DoesNotCompile?
    ensures DefineSchemaTypes(registry, structName, prefix, schema).Compiles?
            && DefineSchemaTypes(registry, structName, prefix, schema).v != registry ==>
      J.ParseJson(schema).Compiles? && RootIsObject(J.ParseJson(schema).v)
      && Unique(DefineSchemaTypes(registry, structName, prefix, schema).v)
      && registry < DefineSchemaTypes(registry, structName, prefix, schema).v
      && Last(DefineSchemaTypes(registry, structName, prefix, schema).v).name == structName
  {
    if J.ParseJson(schema).Compiles? {
      DefineFromJsonMeaning(registry, structName, J.ParseJson(schema).v);
    }
  }

  // ---------------------------------------------------------------------
  // Examples, on the values the parser builds: an object is the Built map of
  // its members, a string token the string<N> of its characters

  /** A string token's value. */
  function Str(t: string): J.Json {
    J.Text(Lit(t))
  }

  /** The schema {"type": t}. */
  function TypeOnly(t: string): J.Json {
    J.Object(M.MultiTypeMap(["type"], [0], [Str(t)]))
  }

  lemma {:induction false} BuiltOne<V>(k: string, v: V)
    ensures M.Built([C.Pair(k, v)], LexLess) == M.MultiTypeMap([k], [0], [v])
  {
    assert M.Keys([C.Pair(k, v)]) == [k];
    assert M.Iota(1) == [0];
    assert [k][..0] == [] && [0][..0] == [];
  }

  lemma {:induction false} BuiltTwo<V>(k1: string, v1: V, k2: string, v2: V)
    requires LexLess(k2, k1)
    ensures M.Built([C.Pair(k1, v1), C.Pair(k2, v2)], LexLess) == M.MultiTypeMap([k2, k1], [1, 0], [v1, v2])
  {
    var ks := M.Keys([C.Pair(k1, v1), C.Pair(k2, v2)]);
    assert ks == [k1, k2];
    assert ks[..1] == [k1] && [k1][..0] == [];
    assert InsertionSort([k1], LexLess) == [k1];
    assert [k1][..0] == [];
    assert Insert(k2, [k1], LexLess) == [k2, k1];
    var io := M.Iota(2);
    assert io == [0, 1] && io[..1] == [0] && [0][..0] == [];
    assert InsertionSort<nat>([0], M.IndexLess(ks, LexLess)) == [0];
    assert M.IndexLess(ks, LexLess)(1, 0);
    assert Insert<nat>(1, [0], M.IndexLess(ks, LexLess)) == [1, 0];
    assert M.Values([C.Pair(k1, v1), C.Pair(k2, v2)]) == [v1, v2];
  }

  /** Members c, a, b: the map the parser builds for them, whatever their values. */
  lemma {:induction false} BuiltCab<V>(x: V, y: V, z: V)
    ensures M.Built([C.Pair("c", x), C.Pair("a", y), C.Pair("b", z)], LexLess) == M.MultiTypeMap(["a", "b", "c"], [1, 2, 0], [x, y, z])
  {
    M.GetMisPairs();
    var ps := [C.Pair("c", x), C.Pair("a", y), C.Pair("b", z)];
    var ns := [C.Pair("c", 1), C.Pair("a", 2), C.Pair("b", 3)];
    assert M.Keys(ps) == M.Keys(ns) == ["c", "a", "b"];
    assert M.Values(ps) == [x, y, z];
  }

  /** The lower bound of a key that is present, past the keys below it. */
  lemma {:induction false} LowerBoundAt(keys: seq<string>, key: string, j: nat)
    requires j < |keys| && keys[j] == key && forall i :: 0 <= i < j ==> LexLess(keys[i], key)
    ensures M.LowerBound(keys, key, LexLess) == j
    decreases j
  {
    if j == 0 {
      LexLessIrreflexive(key);
    } else {
      LowerBoundAt(keys[1..], key, j - 1);
    }
  }

  /** A property {"type": t} for a type_mapping name t gives a member of that entry. */
  lemma {:induction false} PrimitiveProperty(registry: seq<Record>, structName: string, name: string, t: string)
    requires '\0' !in t && PrimNamed(t).Some?
    ensures PropertyType(registry, structName, name, TypeOnly(t)) == J.Compiles((Some(Prim(PrimNamed(t).value)), registry))
  {
    LowerBoundAt(["type"], "type", 0);
    LitMeaning(t);
    assert GetKey(TypeOnly(t), "type") == C.Other(Str(t));
    HandleFieldMeaning(TypeOnly(t));
  }

  /** The properties c: string, a: number, b: boolean, in that order. */
  function CabProperties(): J.Json {
    J.Object(M.MultiTypeMap(["a", "b", "c"], [1, 2, 0], [TypeOnly("string"), TypeOnly("number"), TypeOnly("boolean")]))
  }

  /** Names of type_mapping entries, written without a '\0'. */
  predicate PrimitiveTypes(types: seq<string>) {
    forall k :: 0 <= k < |types| ==> '\0' !in types[k] && PrimNamed(types[k]).Some?
  }

  /** get<I> for I from i on is property names[I - i] with the schema {"type": types[I - i]}. */
  predicate PairsAre(pm: J.Json, i: nat, names: seq<string>, types: seq<string>)
    requires pm.Object? && Formed(pm.entries) && i + |names| == |pm.entries.values| && |names| == |types|
  {
    forall k :: i <= k < |pm.entries.values| ==> Property(pm, k) == C.Pair(names[k - i], TypeOnly(types[k - i]))
  }

  /** The members of properties {"type": types[k]} named names[k]. */
  function Primitives(names: seq<string>, types: seq<string>): seq<Field>
    requires |names| == |types| && PrimitiveTypes(types)
  {
    if names == [] then []
    else
      assert forall k :: 0 <= k < |types[1..]| ==> types[1..][k] == types[k + 1];
      [Field(names[0], Prim(PrimNamed(types[0]).value))] + Primitives(names[1..], types[1..])
  }

  /** One iteration of the loop, whatever the property. */
  lemma {:induction false} FieldsStep(registry: seq<Record>, structName: string, pm: J.Json, i: nat,
                                      ty: Option<FieldType>, d: seq<Record>)
    requires pm.Object? && Formed(pm.entries) && i < |pm.entries.values|
    requires PropertyType(registry, structName, Property(pm, i).first, Property(pm, i).second) == J.Compiles((ty, d))
    ensures Fields(registry, structName, pm, i) == Before(MemberOf(Property(pm, i).first, ty), Fields(d, structName, pm, i + 1))
  {
  }

  /** The remaining properties all being {"type": t} for type_mapping names t,
      the loop pushes their entries under the names get<I> pairs them with. */
  lemma {:induction false} PrimitiveFields(registry: seq<Record>, structName: string, pm: J.Json, i: nat,
                                           names: seq<string>, types: seq<string>)
    requires pm.Object? && Formed(pm.entries) && i + |names| == |pm.entries.values| && |names| == |types|
    requires PrimitiveTypes(types) && PairsAre(pm, i, names, types)
    ensures Fields(registry, structName, pm, i) == J.Compiles((Primitives(names, types), registry))
    decreases |names|
  {
    if names != [] {
      var ns, ts := names[1..], types[1..];
      forall k | 0 <= k < |ts|
        ensures '\0' !in ts[k] && PrimNamed(ts[k]).Some?
      {
        assert ts[k] == types[k + 1];
      }
      forall k | i + 1 <= k < |pm.entries.values|
        ensures Property(pm, k) == C.Pair(ns[k - (i + 1)], TypeOnly(ts[k - (i + 1)]))
      {
        assert ns[k - (i + 1)] == names[k - i] && ts[k - (i + 1)] == types[k - i];
      }
      PrimitiveFields(registry, structName, pm, i + 1, ns, ts);
      var ty := Prim(PrimNamed(types[0]).value);
      var f := Field(names[0], ty);
      assert Property(pm, i) == C.Pair(names[0], TypeOnly(types[0]));
      PrimitiveProperty(registry, structName, names[0], types[0]);
      FieldsStep(registry, structName, pm, i, Some(ty), registry);
      assert MemberOf(names[0], Some(ty)) == [f];
      assert Fields(registry, structName, pm, i) == Before([f], J.Compiles((Primitives(ns, ts), registry)));
      assert Primitives(names, types) == [f] + Primitives(ns, ts);
    }
  }

  /** get<I> of the c, a, b properties: the I-th value beside the I-th key in sorted order. */
  lemma {:induction false} CabPairs()
    ensures CabProperties().Object? && Formed(CabProperties().entries) && |CabProperties().entries.values| == 3
    ensures PairsAre(CabProperties(), 0, ["b", "c", "a"], ["string", "number", "boolean"])
  {
    var pm := CabProperties();
    assert Formed(pm.entries);
    assert Property(pm, 0) == C.Pair("b", TypeOnly("string"));
    assert Property(pm, 1) == C.Pair("c", TypeOnly("number"));
    assert Property(pm, 2) == C.Pair("a", TypeOnly("boolean"));
  }

  /** get<I> pairs the I-th value with the I-th key in sorted order, so the members
      come out named b, c, a with the types given for c, a, b. */
  lemma {:induction false} CabFields(registry: seq<Record>, structName: string)
    ensures Fields(registry, structName, CabProperties(), 0)
            == J.Compiles(([Field("b", Prim(StdString)), Field("c", Prim(Double)), Field("a", Prim(Bool))], registry))
  {
    var names := ["b", "c", "a"];
    var types := ["string", "number", "boolean"];
    var fields := [Field("b", Prim(StdString)), Field("c", Prim(Double)), Field("a", Prim(Bool))];
    assert Primitives(names, types) == fields by {
      assert PrimitiveTypes(types);
    }
    CabPairs();
    PrimitiveFields(registry, structName, CabProperties(), 0, names, types);
  }

  /** {"type": "object", "properties": p}, in that order. */
  function ObjectSchema(p: J.Json): J.Json {
    J.Object(M.MultiTypeMap(["properties", "type"], [1, 0], [Str("object"), p]))
  }

  /** An object schema's "type" and "properties". */
  lemma {:induction false} ObjectSchemaKeys(p: J.Json)
    ensures Formed(ObjectSchema(p).entries)
    ensures GetKey(ObjectSchema(p), "type") == C.Other(Str("object"))
    ensures GetKey(ObjectSchema(p), "properties") == C.Other(p)
  {
    assert Formed(ObjectSchema(p).entries);
    assert LexLess("properties", "type");
    LowerBoundAt(["properties", "type"], "type", 1);
    LowerBoundAt(["properties", "type"], "properties", 0);
  }

  /** The record with no members, defined first. */
  const EmptyR := J.Compiles((Rec("r"), [Record("r", [])]))

  /** "properties": [] defines the record with no members. */
  lemma {:induction false} EmptyArrayProperties()
    ensures HandleObject([], "r", ObjectSchema(J.Tuple([]))) == EmptyR
  {
    ObjectSchemaKeys(J.Tuple([]));
    EmptyRecord([], "r", ObjectSchema(J.Tuple([])));
    assert [] + [Record("r", [])] == [Record("r", [])];
  }

  /** A schema without "properties" defines the record with no members. */
  lemma {:induction false} MissingProperties()
    ensures HandleObject([], "r", TypeOnly("object")) == EmptyR
  {
    assert "properties"[0] < "type"[0];
    assert M.LowerBound(["type"], "properties", LexLess) == 0;
    EmptyRecord([], "r", TypeOnly("object"));
    assert [] + [Record("r", [])] == [Record("r", [])];
  }

  /** "properties": {} defines the record with no members too. */
  lemma {:induction false} EmptyMapProperties()
    ensures HandleObject([], "r", ObjectSchema(J.Object(M.MultiTypeMap([], [], [])))) == EmptyR
  {
    var none := J.Object(M.MultiTypeMap([], [], []));
    ObjectSchemaKeys(none);
    assert Fields([], "r", none, 0) == J.Compiles(([], []));
    assert Members([], "r", ObjectSchema(none)) == J.Compiles(([], []));
    assert [] + [Record("r", [])] == [Record("r", [])];
  }

  /** "properties": ["a"] does not compile: its element has no `first`. */
  lemma {:induction false} ArrayOfNamesProperties()
    ensures HandleObject([], "r", ObjectSchema(J.Tuple([Str("a")]))).DoesNotCompile?
  {
    ObjectSchemaKeys(J.Tuple([Str("a")]));
  }

  /** These are the maps make_multi_type_map builds for the members in the order written. */
  lemma {:induction false} ExampleMapsBuilt(t: string, p: J.Json)
    ensures TypeOnly(t).entries == M.Built([C.Pair("type", Str(t))], LexLess)
    ensures CabProperties().entries
            == M.Built([C.Pair("c", TypeOnly("string")), C.Pair("a", TypeOnly("number")), C.Pair("b", TypeOnly("boolean"))], LexLess)
    ensures ObjectSchema(p).entries == M.Built([C.Pair("type", Str("object")), C.Pair("properties", p)], LexLess)
  {
    BuiltOne("type", Str(t));
    BuiltCab(TypeOnly("string"), TypeOnly("number"), TypeOnly("boolean"));
    assert LexLess("properties", "type");
    BuiltTwo("type", Str("object"), "properties", p);
  }

  /** handle_object on a schema with properties: the loop's members, defined under StructName. */
  lemma {:induction false} HandleObjectOf(registry: seq<Record>, structName: string, def: J.Json,
                                          fields: seq<Field>, d: seq<Record>)
    requires HasProperties(def)
    requires Fields(registry, structName, GetKey(def, "properties").value, 0) == J.Compiles((fields, d))
    requires SchemaTypes.Find(d, structName).None?
    ensures HandleObject(registry, structName, def) == J.Compiles((Rec(structName), d + [Record(structName, fields)]))
  {
  }

  /** handle_object on {"type": "object", "properties": pm}. */
  lemma {:induction false} ObjectSchemaRecord(registry: seq<Record>, structName: string, pm: J.Json,
                                              fields: seq<Field>, d: seq<Record>)
    requires pm.Object? && Formed(pm.entries)
    requires Fields(registry, structName, pm, 0) == J.Compiles((fields, d))
    requires SchemaTypes.Find(d, structName).None?
    ensures HandleObject(registry, structName, ObjectSchema(pm)) == J.Compiles((Rec(structName), d + [Record(structName, fields)]))
  {
    ObjectSchemaKeys(pm);
    HandleObjectOf(registry, structName, ObjectSchema(pm), fields, d);
  }

  /** The record of a schema whose properties are c, a, b has its members mis-paired. */
  lemma {:induction false} CabRecord(structName: string)
    ensures HandleObject([], structName, ObjectSchema(CabProperties()))
            == J.Compiles((Rec(structName), [Record(structName, [Field("b", Prim(StdString)), Field("c", Prim(Double)), Field("a", Prim(Bool))])]))
  {
    var fields := [Field("b", Prim(StdString)), Field("c", Prim(Double)), Field("a", Prim(Bool))];
    CabPairs();
    CabFields([], structName);
    ObjectSchemaRecord([], structName, CabProperties(), fields, []);
    assert [] + [Record(structName, fields)] == [Record(structName, fields)];
  }

  // ---------------------------------------------------------------------
  // The nested schema of src/json_schema2/main.cpp

  /** A properties map with the one property name: v. */
  function OneProperty(name: string, v: J.Json): J.Json {
    J.Object(M.MultiTypeMap([name], [0], [v]))
  }

  /** {"type": "object", "properties": {"sadness": {"type": "number"}}}. */
  function PainSchema(): J.Json {
    ObjectSchema(OneProperty("sadness", TypeOnly("number")))
  }

  /** basic_nested_schema: "$schema", "type": "object", and the property pain. The
      value of "$schema" (the draft's URL) plays no part, so it is a parameter. */
  function NestedSchema(url: J.Json): J.Json {
    J.Object(M.MultiTypeMap(["$schema", "properties", "type"], [0, 2, 1],
      [url, Str("object"), OneProperty("pain", PainSchema())]))
  }

  /** The record for the nested object: root::pain with the member sadness. */
  const RootPain := Record("root::pain", [Field("sadness", Prim(Double))])

  /** The records the nested schema defines, root::pain first. */
  function NestedRecords(): seq<Record> {
    [RootPain, Record("root", [Field("pain", Rec("root::pain"))])]
  }

  /** The keys of basic_nested_schema in the order written. */
  const NestedKeys: seq<string> := ["$schema", "type", "properties"]

  /** std::ranges::sort of the keys. */
  lemma {:induction false} NestedKeysSorted()
    ensures InsertionSort(NestedKeys, LexLess) == ["$schema", "properties", "type"]
  {
    var ks := NestedKeys;
    assert LexLess("properties", "type");
    assert !LexLess("type", "$schema") && !LexLess("properties", "$schema");
    assert ks[..2] == ["$schema", "type"] && ks[..2][..1] == ["$schema"] && ks[..2][..1][..0] == [];
    assert InsertionSort(["$schema"], LexLess) == ["$schema"];
    assert InsertionSort(["$schema", "type"], LexLess) == ["$schema", "type"];
    assert Insert("properties", ["$schema", "type"], LexLess) == ["$schema", "properties", "type"] by {
      assert ["$schema", "type"][..1] == ["$schema"];
    }
  }

  /** The indexes sorted by their keys. */
  lemma {:induction false} NestedIndexesSorted()
    ensures InsertionSort(M.Iota(3), M.IndexLess(NestedKeys, LexLess)) == [0, 2, 1]
  {
    var il := M.IndexLess(NestedKeys, LexLess);
    var io := M.Iota(3);
    assert LexLess("properties", "type");
    assert !LexLess("type", "$schema") && !LexLess("properties", "$schema");
    assert io == [0, 1, 2] && io[..2] == [0, 1] && io[..2][..1] == [0] && io[..2][..1][..0] == [];
    assert !il(1, 0) && il(2, 1) && !il(2, 0);
    assert InsertionSort<nat>([0], il) == [0];
    assert InsertionSort<nat>([0, 1], il) == [0, 1];
    assert Insert<nat>(2, [0, 1], il) == [0, 2, 1] by {
      assert [0, 1][..1] == [0];
    }
  }

  /** NestedSchema, the tree of basic_nested_schema, is the map make_multi_type_map
      builds for its members. */
  lemma {:induction false} NestedSchemaBuilt(url: J.Json)
    ensures NestedSchema(url).entries == M.Built([C.Pair("$schema", url),
                                               C.Pair("type", Str("object")),
                                               C.Pair("properties", OneProperty("pain", PainSchema()))], LexLess)
  {
    var ps := [C.Pair("$schema", url),
               C.Pair("type", Str("object")),
               C.Pair("properties", OneProperty("pain", PainSchema()))];
    assert M.Keys(ps) == NestedKeys;
    NestedKeysSorted();
    NestedIndexesSorted();
    assert M.Values(ps) == [ps[0].second, ps[1].second, ps[2].second];
  }

  /** The one property of a one-property map. */
  lemma {:induction false} OnePropertyPair(name: string, v: J.Json)
    ensures Formed(OneProperty(name, v).entries)
    ensures Property(OneProperty(name, v), 0) == C.Pair(name, v)
  {
  }

  /** {"sadness": {"type": "number"}} gives the member sadness of type double. */
  lemma {:induction false} PainFields(registry: seq<Record>, structName: string)
    ensures Fields(registry, structName, OneProperty("sadness", TypeOnly("number")), 0)
            == J.Compiles(([Field("sadness", Prim(Double))], registry))
  {
    OnePropertyPair("sadness", TypeOnly("number"));
    assert PrimitiveTypes(["number"]);
    PrimitiveFields(registry, structName, OneProperty("sadness", TypeOnly("number")), 0, ["sadness"], ["number"]);
    assert Primitives(["sadness"], ["number"]) == [Field("sadness", Prim(Double))];
  }

  /** The nested object becomes the record root::pain. */
  lemma {:induction false} PainRecord(registry: seq<Record>)
    requires SchemaTypes.Find(registry, "root::pain").None?
    ensures HandleObject(registry, "root::pain", PainSchema()) == J.Compiles((Rec("root::pain"), registry + [RootPain]))
  {
    PainFields(registry, "root::pain");
    OnePropertyPair("sadness", TypeOnly("number"));
    ObjectSchemaRecord(registry, "root::pain", OneProperty("sadness", TypeOnly("number")), [Field("sadness", Prim(Double))], registry);
  }

  /** A property of type "object" gives the record handle_object defines for it. */
  lemma {:induction false} ObjectProperty(registry: seq<Record>, structName: string, name: string, props: J.Json,
                                          ty: FieldType, d: seq<Record>)
    requires TypeName(props) == Some("object")
    requires HandleObject(registry, structName + "::" + name, props) == J.Compiles((ty, d))
    ensures PropertyType(registry, structName, name, props) == J.Compiles((Some(ty), d))
  {
  }

  /** An object schema's type is "object". */
  lemma {:induction false} ObjectSchemaType(pm: J.Json)
    ensures TypeName(ObjectSchema(pm)) == Some("object")
  {
    ObjectSchemaKeys(pm);
    ObjectLit();
  }

  /** The string "object" the parser builds: seven characters with the '\0', viewed as "object". */
  lemma {:induction false} ObjectLit()
    ensures |Lit("object")| == 7 && View(Lit("object")) == "object"
  {
    LitMeaning("object");
  }

  /** The property pain, of type "object", gives the member pain of type root::pain. */
  lemma {:induction false} PainProperty(registry: seq<Record>)
    requires SchemaTypes.Find(registry, "root::pain").None?
    ensures PropertyType(registry, "root", "pain", PainSchema()) == J.Compiles((Some(Rec("root::pain")), registry + [RootPain]))
  {
    assert "root" + "::" + "pain" == "root::pain";
    PainRecord(registry);
    ObjectSchemaType(OneProperty("sadness", TypeOnly("number")));
    ObjectProperty(registry, "root", "pain", PainSchema(), Rec("root::pain"), registry + [RootPain]);
  }

  /** The properties of the root give the member pain, after the record root::pain. */
  lemma {:induction false} RootFields(registry: seq<Record>)
    requires SchemaTypes.Find(registry, "root::pain").None?
    ensures Fields(registry, "root", OneProperty("pain", PainSchema()), 0)
            == J.Compiles(([Field("pain", Rec("root::pain"))], registry + [RootPain]))
  {
    var pm := OneProperty("pain", PainSchema());
    var d := registry + [RootPain];
    OnePropertyPair("pain", PainSchema());
    PainProperty(registry);
    FieldsStep(registry, "root", pm, 0, Some(Rec("root::pain")), d);
    assert Fields(d, "root", pm, 1) == J.Compiles(([], d));
    assert [Field("pain", Rec("root::pain"))] + [] == [Field("pain", Rec("root::pain"))];
  }

  /** The root schema's "type" and "properties". */
  lemma {:induction false} NestedSchemaKeys(url: J.Json)
    ensures Formed(NestedSchema(url).entries)
    ensures GetKey(NestedSchema(url), "type") == C.Other(Str("object"))
    ensures GetKey(NestedSchema(url), "properties") == C.Other(OneProperty("pain", PainSchema()))
  {
    var keys := ["$schema", "properties", "type"];
    NestedSchemaFormed(url);
    NestedKeysOrder();
    LowerBoundAt(keys, "type", 2);
    LowerBoundAt(keys, "properties", 1);
  }

  /** The root schema's map is well formed. */
  lemma {:induction false} NestedSchemaFormed(url: J.Json)
    ensures Formed(NestedSchema(url).entries)
  {
    var m := NestedSchema(url).entries;
    assert m.mapping == [0, 2, 1] && |m.values| == 3;
  }

  /** The root schema's keys in lexicographic order. */
  lemma {:induction false} NestedKeysOrder()
    ensures LexLess("$schema", "type") && LexLess("properties", "type") && LexLess("$schema", "properties")
  {
    assert "$schema"[0] < "type"[0] && "properties"[0] < "type"[0] && "$schema"[0] < "properties"[0];
  }

  /** A root of type "object" whose properties give the members fields and the
      registry d, where StructName is not yet defined. */
  ghost predicate RootGives(registry: seq<Record>, structName: string, json: J.Json, fields: seq<Field>, d: seq<Record>) {
    RootIsObject(json) && HasProperties(json)
    && Fields(registry, structName, GetKey(json, "properties").value, 0) == J.Compiles((fields, d))
    && SchemaTypes.Find(d, structName).None?
  }

  /** A root of type "object" defines its record after those of its nested objects. */
  lemma {:induction false} ObjectRoot(registry: seq<Record>, structName: string, json: J.Json, fields: seq<Field>, d: seq<Record>)
    ensures RootGives(registry, structName, json, fields, d) ==>
      DefineFromJson(registry, structName, json) == J.Compiles(d + [Record(structName, fields)])
  {
    if RootGives(registry, structName, json, fields, d) {
      HandleObjectOf(registry, structName, json, fields, d);
    }
  }

  /** basic_nested_schema's root is of type "object", its property pain giving the
      member pain after the record root::pain, and root is not yet defined. */
  lemma {:induction false} NestedRoot(registry: seq<Record>, url: J.Json)
    requires SchemaTypes.Find(registry, "root::pain").None? && SchemaTypes.Find(registry, "root").None?
    ensures RootGives(registry, "root", NestedSchema(url), [Field("pain", Rec("root::pain"))], registry + [RootPain])
  {
    NestedSchemaKeys(url);
    ObjectLit();
    OnePropertyPair("pain", PainSchema());
    RootFields(registry);
    RootAfterPain(registry);
  }

  /** Defining root::pain leaves root undefined. */
  lemma {:induction false} RootAfterPain(registry: seq<Record>)
    requires SchemaTypes.Find(registry, "root").None?
    ensures SchemaTypes.Find(registry + [RootPain], "root").None?
  {
    FindAfter(registry, [RootPain], "root");
    assert |RootPain.name| != |"root"|;
    assert [RootPain][1..] == [];
  }

  /** On the tree of basic_nested_schema, the definitions define root::pain, then root
      with its member pain of that type, after whatever was defined before. */
  lemma {:induction false} NestedExample(registry: seq<Record>, url: J.Json)
    requires SchemaTypes.Find(registry, "root::pain").None? && SchemaTypes.Find(registry, "root").None?
    ensures DefineFromJson(registry, "root", NestedSchema(url)) == J.Compiles(registry + NestedRecords())
  {
    NestedRoot(registry, url);
    ObjectRoot(registry, "root", NestedSchema(url), [Field("pain", Rec("root::pain"))], registry + [RootPain]);
    NestedRecordsAfter(registry);
  }

  /** Defining root::pain and then root appends NestedRecords. */
  lemma {:induction false} NestedRecordsAfter(registry: seq<Record>)
    ensures registry + [RootPain] + [Record("root", [Field("pain", Rec("root::pain"))])] == registry + NestedRecords()
  {
    assert [RootPain] + [Record("root", [Field("pain", Rec("root::pain"))])] == NestedRecords();
  }

  // ---------------------------------------------------------------------
  // Designated initializers of the generated records

  /** An initializer: a floating literal such as 10.0, or braces holding
      `.name = initializer` designators. */
  datatype Init = Floating | Braced(designators: seq<(string, Init)>)

  /** The first member at or after from with that name, or |fields| when none is. */
  function MemberIndex(fields: seq<Field>, name: string, from: nat): (k: nat)
    ensures k <= |fields| && (k < |fields| ==> from <= k && fields[k].name == name)
    decreases |fields| - from
  {
    if from >= |fields| then |fields|
    else if fields[from].name == name then from
    else MemberIndex(fields, name, from + 1)
  }

  /** Whether init initializes a member of type ty: a floating literal only a double
      (turning it into an integer or a bool would narrow), braces only a defined
      record whose members the designators name in declaration order. */
  function Initializes(d: seq<Record>, ty: FieldType, init: Init): bool
    decreases init, 1
  {
    match init
    case Floating => ty == Prim(Double)
    case Braced(_) => ty.Rec? && SchemaTypes.Find(d, ty.name).Some? && Designates(d, SchemaTypes.Find(d, ty.name).value, init, 0, 0)
  }

  /** The designators from i on name members from index from on, in order, each
      initializing its member. */
  function Designates(d: seq<Record>, fields: seq<Field>, init: Init, i: nat, from: nat): bool
    requires init.Braced?
    decreases init, 0, |init.designators| - i
  {
    if i >= |init.designators| then true
    else
      var k := MemberIndex(fields, init.designators[i].0, from);
      assert init.designators[i] in init.designators;
      k < |fields| && Initializes(d, fields[k].ty, init.designators[i].1) && Designates(d, fields, init, i + 1, k + 1)
  }

  /** `root{.pain = {.sadness = 10.0}}` initializes the record the nested schema
      generates, and naming a member root does not have does not. */
  lemma {:induction false} NestedInitializer()
    ensures Initializes(NestedRecords(), Rec("root"), Braced([("pain", Braced([("sadness", Floating)]))]))
    ensures !Initializes(NestedRecords(), Rec("root"), Braced([("sadness", Floating)]))
  {
    var d := NestedRecords();
    assert SchemaTypes.Find(d, "root") == Some([Field("pain", Rec("root::pain"))]) by {
      assert d[1..][1..] == [];
    }
    assert SchemaTypes.Find(d, "root::pain") == Some([Field("sadness", Prim(Double))]);
    var inner := Braced([("sadness", Floating)]);
    assert MemberIndex([Field("sadness", Prim(Double))], "sadness", 0) == 0;
    assert Designates(d, [Field("sadness", Prim(Double))], inner, 1, 1);
    assert Initializes(d, Rec("root::pain"), inner);
    var outer := Braced([("pain", inner)]);
    assert MemberIndex([Field("pain", Rec("root::pain"))], "pain", 0) == 0;
    assert Designates(d, [Field("pain", Rec("root::pain"))], outer, 1, 1);
    assert MemberIndex([Field("pain", Rec("root::pain"))], "sadness", 0) == 1 by {
      assert MemberIndex([Field("pain", Rec("root::pain"))], "sadness", 1) == 1;
    }
  }
}
