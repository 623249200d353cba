// src/json_schema.cpp: the first schema compiler. Only the "$defs" entries
// become records, each named by the fixed_string append_fixed_strings makes
// of DefPrefix and the key's padded storage; a property's type must be a
// primitive, optional unless the property is required.

module JsonSchema1 {
  import opened Basics
  import opened JsonParse
  import opened SchemaTypes
  import FixedString

  // ---------------------------------------------------------------------
  // parse_single_schema_type and parse_schema_type

  /** parse_single_schema_type: the member for one property, std::optional unless the
      name is required; a type missing from type_mapping makes get_by_key throw. */
  function SingleSchemaType(propName: string, propDesc: seq<(string, JsonValue)>, required: seq<string>): Outcome<Field> {
    match Lookup(propDesc, "type")
    case None => Stopped(Threw(NoMatchingKey))
    case Some(t) =>
      if !t.JStr? then Stopped(BadVariantAccess)
      else match Lookup(TypeMapping, t.s)
        case None => Stopped(Threw(NoMatchingKey))
        case Some(p) => Done(if propName !in required then Field(propName, Opt(Prim(p))) else Field(propName, Prim(p)))
  }

  /** The elements of "required", each of which must be a string. */
  function RequiredStrings(es: seq<JsonValue>): Outcome<seq<string>> {
    if es == [] then Done([])
    else if !es[0].JStr? then Stopped(BadVariantAccess)
    else match RequiredStrings(es[1..])
      case Stopped(w) => Stopped(w)
      case Done(ss) => Done([es[0].s] + ss)
  }

  /** required_items: "required" is mandatory and must be an array. */
  function RequiredItems(def: seq<(string, JsonValue)>): Outcome<seq<string>> {
    match Lookup(def, "required")
    case None => Stopped(Threw(NoMatchingKey))
    case Some(r) => if !r.JArr? then Stopped(BadVariantAccess) else RequiredStrings(r.elems)
  }

  /** One member per property, in order. */
  function Members(pp: seq<(string, JsonValue)>, required: seq<string>): Outcome<seq<Field>> {
    if pp == [] then Done([])
    else if !pp[0].1.JObj? then Stopped(BadVariantAccess)
    else match SingleSchemaType(pp[0].0, pp[0].1.pairs, required)
      case Stopped(w) => Stopped(w)
      case Done(f) =>
        match Members(pp[1..], required)
        case Stopped(w) => Stopped(w)
        case Done(fs) => Done([f] + fs)
  }

  /** parse_schema_type: the members of one definition; "required" and "properties" are mandatory. */
  function ParseSchemaType(def: seq<(string, JsonValue)>): Outcome<seq<Field>> {
    match RequiredItems(def)
    case Stopped(w) => Stopped(w)
    case Done(required) =>
      match Lookup(def, "properties")
      case None => Stopped(Threw(NoMatchingKey))
      case Some(p) => if !p.JObj? then Stopped(BadVariantAccess) else Members(p.pairs, required)
  }

  /** parse_schema_type as the source writes it: a loop collecting the required names,
      then a loop pushing one member per property. */
  method ParseSchemaTypeLoop(def: seq<(string, JsonValue)>) returns (r: Outcome<seq<Field>>)
    ensures r == ParseSchemaType(def)
  {
    var requiredRaw := GetByKey(def, "required");
    if requiredRaw.Fail? {
      return Stopped(Threw(requiredRaw.error));
    }
    if !requiredRaw.value.JArr? {
      return Stopped(BadVariantAccess);
    }
    var es := requiredRaw.value.elems;
    var required: seq<string> := [];
    var i := 0;
    assert es[0..] == es;
    PrefixedNothing(RequiredStrings(es));
    while i < |es|
      invariant 0 <= i <= |es|
      invariant RequiredStrings(es) == Prefixed(required, RequiredStrings(es[i..]))
    {
      assert es[i..][0] == es[i] && es[i..][1..] == es[i + 1..];
      if !es[i].JStr? {
        return Stopped(BadVariantAccess);
      }
      PrefixedTwice(required, es[i].s, RequiredStrings(es[i + 1..]));
      required := required + [es[i].s];
      i := i + 1;
    }
    assert es[i..] == [];
    assert required + [] == required;
    var propertiesRaw := GetByKey(def, "properties");
    if propertiesRaw.Fail? {
      return Stopped(Threw(propertiesRaw.error));
    }
    if !propertiesRaw.value.JObj? {
      return Stopped(BadVariantAccess);
    }
    var pp := propertiesRaw.value.pairs;
    var members: seq<Field> := [];
    var k := 0;
    assert pp[0..] == pp;
    PrefixedNothing(Members(pp, required));
    while k < |pp|
      invariant 0 <= k <= |pp|
      invariant Members(pp, required) == Prefixed(members, Members(pp[k..], required))
    {
      assert pp[k..][0] == pp[k] && pp[k..][1..] == pp[k + 1..];
      if !pp[k].1.JObj? {
        return Stopped(BadVariantAccess);
      }
      var m := SingleSchemaType(pp[k].0, pp[k].1.pairs, required);
      if m.Stopped? {
        return Stopped(m.why);
      }
      PrefixedTwice(members, m.value, Members(pp[k + 1..], required));
      members := members + [m.value];
      k := k + 1;
    }
    assert pp[k..] == [];
    assert members + [] == members;
    return Done(members);
  }

  /** Items already pushed, in front of what the rest of a loop yields. */
  function Prefixed<T>(done: seq<T>, rest: Outcome<seq<T>>): Outcome<seq<T>> {
    match rest
    case Stopped(w) => Stopped(w)
    case Done(r) => Done(done + r)
  }

  lemma {:induction false} PrefixedNothing<T>(rest: Outcome<seq<T>>)
    ensures Prefixed([], rest) == rest
  {
    if rest.Done? {
      assert [] + rest.value == rest.value;
    }
  }

  lemma {:induction false} PrefixedTwice<T>(done: seq<T>, x: T, rest: Outcome<seq<T>>)
    ensures Prefixed(done, Prefixed([x], rest)) == Prefixed(done + [x], rest)
  {
    if rest.Done? {
      assert done + ([x] + rest.value) == (done + [x]) + rest.value;
    }
  }

  // ---------------------------------------------------------------------
  // get_longest_def_name and get_def_names

  /** The "$defs" object of a parsed schema; it is mandatory. */
  function DefsOf(v: JsonValue): Outcome<seq<(string, JsonValue)>> {
    if !v.JObj? then Stopped(BadVariantAccess)
    else match Lookup(v.pairs, "$defs")
      case None => Stopped(Threw(NoMatchingKey))
      case Some(d) => if !d.JObj? then Stopped(BadVariantAccess) else Done(d.pairs)
  }

  /** std::ranges::max of the key sizes. */
  function MaxNameLength(entries: seq<(string, JsonValue)>): (m: nat)
    requires entries != []
    ensures forall k :: 0 <= k < |entries| ==> |entries[k].0| <= m
    ensures exists k :: 0 <= k < |entries| && |entries[k].0| == m
  {
    if |entries| == 1 then |entries[0].0|
    else
      var rest := MaxNameLength(entries[1..]);
      assert forall k :: 1 <= k < |entries| ==> entries[k] == entries[1..][k - 1];
      if |entries[0].0| >= rest then |entries[0].0| else rest
  }

  /** get_longest_def_name: the longest "$defs" key; the maximum of no keys is undefined. */
  function LongestDefName(v: JsonValue): Outcome<nat> {
    match DefsOf(v)
    case Stopped(w) => Stopped(w)
    case Done(entries) => if entries == [] then Stopped(EmptyRange) else Done(MaxNameLength(entries))
  }

  /** A name stored in a fixed_string<longest + 1>: its characters, then '\0' up to the end. */
  function StoredName(name: string, longest: nat): (f: FixedString.FixedStr)
    requires |name| <= longest
    ensures FixedString.Size(f) == longest + 1 && f.storage[longest] == '\0' && '\0' in f.storage
  {
    FixedString.FixedStr(name + FixedString.Zeros(longest + 1 - |name|))
  }

  /** get_def_names: the "$defs" keys in order, each stored in a fixed_string<longest + 1>. */
  method GetDefNames(entries: seq<(string, JsonValue)>, longest: nat) returns (names: seq<FixedString.FixedStr>)
    requires forall k :: 0 <= k < |entries| ==> |entries[k].0| <= longest
    ensures |names| == |entries|
    ensures forall k :: 0 <= k < |entries| ==> names[k] == StoredName(entries[k].0, longest)
  {
    names := [];
    var k := 0;
    while k < |entries|
      invariant 0 <= k <= |entries| && |names| == k
      invariant forall j :: 0 <= j < k ==> names[j] == StoredName(entries[j].0, longest)
    {
      var name := FixedString.FromRange(longest + 1, entries[k].0);
      names := names + [name];
      k := k + 1;
    }
  }

  /** The view of a stored name: the name itself when it holds no '\0'. */
  lemma {:induction false} StoredNameView(name: string, longest: nat)
    requires |name| <= longest && '\0' !in name
    ensures '\0' in StoredName(name, longest).storage && FixedString.View(StoredName(name, longest)) == name
  {
    FixedString.PaddedView(name, longest + 1 - |name|, StoredName(name, longest));
  }

  // ---------------------------------------------------------------------
  // define_schema_types

  /** The check loop: every definition is an object whose "type" is "object", or an assert fails. */
  function CheckDefs(entries: seq<(string, JsonValue)>): Outcome<bool> {
    if entries == [] then Done(true)
    else if !entries[0].1.JObj? then Stopped(BadVariantAccess)
    else match Lookup(entries[0].1.pairs, "type")
      case None => Stopped(Threw(NoMatchingKey))
      case Some(t) =>
        if !t.JStr? then Stopped(BadVariantAccess)
        else if t.s != "object" then Stopped(AssertionFailed)
        else CheckDefs(entries[1..])
  }

  /** The name of the record json_schema_types<append_fixed_strings<DefPrefix, name>()>. A
      fixed_string template argument is identified by its whole storage, so the name is that
      storage. prefix is the text of the literal DefPrefix. */
  function DefName(prefix: string, name: FixedString.FixedStr): string
    requires '\0' in name.storage
  {
    assert FixedString.Lit(prefix).storage[|prefix|] == '\0';
    FixedString.Appended([FixedString.Lit(prefix), name]).storage
  }

  /** The record name of a stored key: DefPrefix's text, the key, then the key's padding with
      the final '\0', as many characters as the size (|prefix| + 1) + (longest + 1) - 2 + 1. A key
      shorter than the longest keeps '\0' padding, so its name is not the literal prefix + key. */
  lemma {:induction false} DefNameOf(prefix: string, key: string, longest: nat)
    requires '\0' !in prefix && '\0' !in key && |key| <= longest
    ensures DefName(prefix, StoredName(key, longest)) == prefix + StoredName(key, longest).storage
    ensures |DefName(prefix, StoredName(key, longest))| == |prefix| + longest + 1
  {
    var stored := StoredName(key, longest);
    FixedString.LitView(prefix);
    StoredNameView(key, longest);
    FixedString.AppendedTwo(FixedString.Lit(prefix), stored);
    var zs := FixedString.Zeros(longest + 1 - |key|);
    assert (prefix + key) + zs == prefix + (key + zs);
  }

  /** The define loop: for each stored name, the definition get_by_key finds under its view is
      defined as the record DefName(prefix, name). */
  function DefineEach(registry: seq<Record>, prefix: string, entries: seq<(string, JsonValue)>, names: seq<FixedString.FixedStr>)
    : Outcome<seq<Record>>
    requires forall k :: 0 <= k < |names| ==> '\0' in names[k].storage
    decreases names
  {
    if names == [] then Done(registry)
    else
      var view := FixedString.View(names[0]);
      match Lookup(entries, view)
      case None => Stopped(Threw(NoMatchingKey))
      case Some(cur) =>
        if !cur.JObj? then Stopped(BadVariantAccess)
        else match ParseSchemaType(cur.pairs)
          case Stopped(w) => Stopped(w)
          case Done(fields) =>
            var fullName := DefName(prefix, names[0]);
            match Define(registry, fullName, fields)
            case None => Stopped(AlreadyDefined(fullName))
            case Some(registry1) => DefineEach(registry1, prefix, entries, names[1..])
  }

  /** define_schema_types on a parsed schema. prefix is the view of DefPrefix; the root (StructName)
      is never defined. */
  function DefineFromValue(registry: seq<Record>, prefix: string, v: JsonValue): Outcome<seq<Record>> {
    match LongestDefName(v)
    case Stopped(w) => Stopped(w)
    case Done(longest) =>
      var entries := DefsOf(v).value;
      var names := seq(|entries|, k requires 0 <= k < |entries| => StoredName(entries[k].0, longest));
      match CheckDefs(entries)
      case Stopped(w) => Stopped(w)
      case Done(_) => DefineEach(registry, prefix, entries, names)
  }

  /** define_schema_types<StructName, DefPrefix, JsonSchema>(). StructName plays no part: the
      definition of the root type is commented out. */
  function DefineSchemaTypes(registry: seq<Record>, structName: string, prefix: string, schema: string)
    : Outcome<seq<Record>>
  {
    match Parse(schema)
    case Fail(e) => Stopped(Threw(e))
    case Ok(v) => DefineFromValue(registry, prefix, v)
  }

  /** define_schema_types as the source writes it on the parsed schema: the longest name, the
      stored names, a loop asserting every definition is an object, then a loop defining them. */
  method DefineSchemaRecords(registry: seq<Record>, prefix: string, v: JsonValue) returns (r: Outcome<seq<Record>>)
    ensures r == DefineFromValue(registry, prefix, v)
  {
    if !v.JObj? {
      return Stopped(BadVariantAccess);
    }
    var defsRaw := GetByKey(v.pairs, "$defs");
    if defsRaw.Fail? {
      return Stopped(Threw(defsRaw.error));
    }
    if !defsRaw.value.JObj? {
      return Stopped(BadVariantAccess);
    }
    var entries := defsRaw.value.pairs;
    if entries == [] {
      return Stopped(EmptyRange);
    }
    var longest := MaxNameLength(entries);
    var names := GetDefNames(entries, longest);
    assert names == seq(|entries|, k requires 0 <= k < |entries| => StoredName(entries[k].0, longest));
    var checked := CheckDefsLoop(entries);
    if checked.Stopped? {
      return Stopped(checked.why);
    }
    r := DefineEachLoop(registry, prefix, entries, names);
  }

  /** The check loop of define_schema_types. */
  method CheckDefsLoop(entries: seq<(string, JsonValue)>) returns (r: Outcome<bool>)
    ensures r == CheckDefs(entries)
  {
    var i := 0;
    assert entries[0..] == entries;
    while i < |entries|
      invariant 0 <= i <= |entries|
      invariant CheckDefs(entries) == CheckDefs(entries[i..])
    {
      assert entries[i..][0] == entries[i] && entries[i..][1..] == entries[i + 1..];
      if !entries[i].1.JObj? {
        return Stopped(BadVariantAccess);
      }
      var typeRaw := GetByKey(entries[i].1.pairs, "type");
      if typeRaw.Fail? {
        return Stopped(Threw(typeRaw.error));
      }
      if !typeRaw.value.JStr? {
        return Stopped(BadVariantAccess);
      }
      if typeRaw.value.s != "object" {
        return Stopped(AssertionFailed);
      }
      i := i + 1;
    }
    assert entries[i..] == [];
    return Done(true);
  }

  /** The define loop of define_schema_types: one define_aggregate per stored name. */
  method DefineEachLoop(registry: seq<Record>, prefix: string, entries: seq<(string, JsonValue)>, names: seq<FixedString.FixedStr>)
    returns (r: Outcome<seq<Record>>)
    requires forall k :: 0 <= k < |names| ==> '\0' in names[k].storage
    ensures r == DefineEach(registry, prefix, entries, names)
  {
    var d := registry;
    var k := 0;
    assert names[0..] == names;
    while k < |names|
      invariant 0 <= k <= |names|
      invariant DefineEach(registry, prefix, entries, names) == DefineEach(d, prefix, entries, names[k..])
    {
      assert names[k..][0] == names[k] && names[k..][1..] == names[k + 1..];
      assert FixedString.Lit(prefix).storage[|prefix|] == '\0';
      var fullName := FixedString.AppendFixedStrings([FixedString.Lit(prefix), names[k]]);
      var view := FixedString.View(names[k]);
      var cur := GetByKey(entries, view);
      if cur.Fail? {
        return Stopped(Threw(cur.error));
      }
      if !cur.value.JObj? {
        return Stopped(BadVariantAccess);
      }
      var fields := ParseSchemaTypeLoop(cur.value.pairs);
      if fields.Stopped? {
        return Stopped(fields.why);
      }
      var next := Define(d, fullName.storage, fields.value);
      if next.None? {
        return Stopped(AlreadyDefined(fullName.storage));
      }
      d := next.value;
      k := k + 1;
    }
    assert names[k..] == [];
    return Done(d);
  }

  /** define_schema_types from the schema's text. */
  method DefineSchemaTypesFromText(registry: seq<Record>, structName: string, prefix: string, schema: string)
    returns (r: Outcome<seq<Record>>)
    ensures r == DefineSchemaTypes(registry, structName, prefix, schema)
  {
    var parsed := ParseJson(schema);
    if parsed.Fail? {
      return Stopped(Threw(parsed.error));
    }
    r := DefineSchemaRecords(registry, prefix, parsed.value);
  }

  // ---------------------------------------------------------------------
  // What the compiler promises

  /** A property schema whose "type" is a string naming a type_mapping entry. */
  predicate Typed(desc: seq<(string, JsonValue)>) {
    Lookup(desc, "type").Some? && Lookup(desc, "type").value.JStr? && PrimNamed(Lookup(desc, "type").value.s).Some?
  }

  /** The member promised for a property: its own name and the primitive its "type" names,
      wrapped in std::optional exactly when the name is not required. */
  ghost predicate PromisedMember(name: string, desc: seq<(string, JsonValue)>, required: seq<string>, f: Field) {
    && Typed(desc)
    && f.name == name
    && (f.ty.Opt? <==> name !in required)
    && (if f.ty.Opt? then f.ty.inner else f.ty) == Prim(PrimNamed(Lookup(desc, "type").value.s).value)
  }

  /** A property gives its promised member exactly when its type names a primitive; a type name
      outside type_mapping ("object" and "array" included) makes get_by_key throw. */
  lemma {:induction false} SingleSchemaTypeMeaning(propName: string, propDesc: seq<(string, JsonValue)>, required: seq<string>)
    ensures SingleSchemaType(propName, propDesc, required).Done? <==> Typed(propDesc)
    ensures SingleSchemaType(propName, propDesc, required).Done? ==>
      PromisedMember(propName, propDesc, required, SingleSchemaType(propName, propDesc, required).value)
    ensures Lookup(propDesc, "type").Some? && Lookup(propDesc, "type").value.JStr? && !Typed(propDesc) ==>
      SingleSchemaType(propName, propDesc, required) == Stopped(Threw(NoMatchingKey))
  {
    if Lookup(propDesc, "type").Some? && Lookup(propDesc, "type").value.JStr? {
      TypeMappingExact(Lookup(propDesc, "type").value.s);
    }
  }

  /** The members follow "properties" in order, each the promised one; the loop stops exactly when
      some property is not an object or has no primitive type. */
  lemma {:induction false} MembersMeaning(pp: seq<(string, JsonValue)>, required: seq<string>)
    ensures Members(pp, required).Done? <==> forall k :: 0 <= k < |pp| ==> pp[k].1.JObj? && Typed(pp[k].1.pairs)
    ensures Members(pp, required).Done? ==>
      |Members(pp, required).value| == |pp| && forall k :: 0 <= k < |pp| ==> PromisedMember(pp[k].0, pp[k].1.pairs, required, Members(pp, required).value[k])
  {
    if pp != [] {
      MembersMeaning(pp[1..], required);
      assert forall k :: 1 <= k < |pp| ==> pp[1..][k - 1] == pp[k];
      if pp[0].1.JObj? {
        SingleSchemaTypeMeaning(pp[0].0, pp[0].1.pairs, required);
        if Members(pp, required).Done? {
          var fs := Members(pp, required).value;
          assert fs == [fs[0]] + Members(pp[1..], required).value;
          assert forall k :: 1 <= k < |pp| ==> fs[k] == Members(pp[1..], required).value[k - 1];
        }
      }
    }
  }

  /** The names in "required", each of which must be a string. */
  lemma {:induction false} RequiredStringsMeaning(es: seq<JsonValue>)
    ensures RequiredStrings(es).Done? <==> forall k :: 0 <= k < |es| ==> es[k].JStr?
    ensures RequiredStrings(es).Done? ==>
      |RequiredStrings(es).value| == |es| && forall k :: 0 <= k < |es| ==> RequiredStrings(es).value[k] == es[k].s
  {
    if es != [] {
      RequiredStringsMeaning(es[1..]);
      assert forall k :: 1 <= k < |es| ==> es[1..][k - 1] == es[k];
    }
  }

  /** parse_schema_type: "required" and "properties" are mandatory (get_by_key throws without them),
      and a definition gives one promised member per property, in order. */
  lemma {:induction false} ParseSchemaTypeMeaning(def: seq<(string, JsonValue)>)
    ensures Lookup(def, "required").None? ==> ParseSchemaType(def) == Stopped(Threw(NoMatchingKey))
    ensures RequiredItems(def).Done? && Lookup(def, "properties").None? ==>
      ParseSchemaType(def) == Stopped(Threw(NoMatchingKey))
    ensures ParseSchemaType(def).Done? ==>
      && Lookup(def, "required").Some? && Lookup(def, "required").value.JArr?
      && RequiredItems(def).Done?
      && |RequiredItems(def).value| == |Lookup(def, "required").value.elems|
      && (forall k :: 0 <= k < |RequiredItems(def).value| ==>
            Lookup(def, "required").value.elems[k] == JStr(RequiredItems(def).value[k]))
      && Lookup(def, "properties").Some? && Lookup(def, "properties").value.JObj?
      && |ParseSchemaType(def).value| == |Lookup(def, "properties").value.pairs|
      && forall k :: 0 <= k < |ParseSchemaType(def).value| ==>
           Lookup(def, "properties").value.pairs[k].1.JObj? &&
           PromisedMember(Lookup(def, "properties").value.pairs[k].0, Lookup(def, "properties").value.pairs[k].1.pairs,
             RequiredItems(def).value, ParseSchemaType(def).value[k])
  {
    if Lookup(def, "required").Some? && Lookup(def, "required").value.JArr? {
      RequiredStringsMeaning(Lookup(def, "required").value.elems);
    }
    if RequiredItems(def).Done? && Lookup(def, "properties").Some? && Lookup(def, "properties").value.JObj? {
      MembersMeaning(Lookup(def, "properties").value.pairs, RequiredItems(def).value);
    }
  }

  /** A definition passes the check loop: an object whose "type" is "object". */
  predicate ObjectDef(value: JsonValue) {
    value.JObj? && Lookup(value.pairs, "type") == Some(JStr("object"))
  }

  /** The check loop passes exactly when every definition is an object schema. */
  lemma {:induction false} CheckDefsMeaning(entries: seq<(string, JsonValue)>)
    ensures CheckDefs(entries).Done? <==> forall k :: 0 <= k < |entries| ==> ObjectDef(entries[k].1)
  {
    if entries != [] {
      CheckDefsMeaning(entries[1..]);
      assert forall k :: 1 <= k < |entries| ==> entries[1..][k - 1] == entries[k];
    }
  }

  /** The record defined for the definition get_by_key finds under key, named by DefPrefix and
      the key stored in a fixed_string<longest + 1>. */
  ghost predicate DefinedFrom(prefix: string, entries: seq<(string, JsonValue)>, key: string, longest: nat, rec: Record) {
    && |key| <= longest
    && Lookup(entries, key).Some? && Lookup(entries, key).value.JObj?
    && ParseSchemaType(Lookup(entries, key).value.pairs).Done?
    && rec == Record(prefix + StoredName(key, longest).storage, ParseSchemaType(Lookup(entries, key).value.pairs).value)
  }

  /** The define loop appends, for each stored key in turn, the record named by DefPrefix and
      the key's storage. */
  lemma {:induction false} DefineEachMeaning(registry: seq<Record>, prefix: string, entries: seq<(string, JsonValue)>,
                                             names: seq<FixedString.FixedStr>, keys: seq<string>, longest: nat)
    requires |names| == |keys| && '\0' !in prefix
    requires forall k :: 0 <= k < |names| ==>
      '\0' !in keys[k] && |keys[k]| <= longest && names[k] == StoredName(keys[k], longest) && '\0' in names[k].storage
    requires Unique(registry)
    ensures DefineEach(registry, prefix, entries, names).Done? ==>
      && Unique(DefineEach(registry, prefix, entries, names).value)
      && |DefineEach(registry, prefix, entries, names).value| == |registry| + |keys|
      && registry <= DefineEach(registry, prefix, entries, names).value
      && forall k :: 0 <= k < |keys| ==>
           DefinedFrom(prefix, entries, keys[k], longest, DefineEach(registry, prefix, entries, names).value[|registry|..][k])
    decreases names
  {
    if names != [] && DefineEach(registry, prefix, entries, names).Done? {
      var d := DefineEach(registry, prefix, entries, names).value;
      var r1 := DefineFirst(registry, prefix, entries, names, keys, longest);
      var names1, keys1 := names[1..], keys[1..];
      assert forall k :: 0 <= k < |names1| ==> names1[k] == names[k + 1] && keys1[k] == keys[k + 1];
      DefineEachMeaning(r1, prefix, entries, names1, keys1, longest);
      assert DefineEach(r1, prefix, entries, names1).value == d;
      var added := d[|registry|..];
      assert added[1..] == d[|r1|..] && added[0] == r1[|registry|..][0];
      DefinedShift(prefix, entries, keys, longest, added);
    }
  }

  /** The first turn of the define loop appends the record of the first key. */
  lemma {:induction false} DefineFirst(registry: seq<Record>, prefix: string, entries: seq<(string, JsonValue)>,
                                       names: seq<FixedString.FixedStr>, keys: seq<string>, longest: nat)
    returns (r1: seq<Record>)
    requires |names| == |keys| && '\0' !in prefix && names != []
    requires forall k :: 0 <= k < |names| ==> '\0' in names[k].storage
    requires '\0' !in keys[0] && |keys[0]| <= longest && names[0] == StoredName(keys[0], longest)
    requires Unique(registry) && DefineEach(registry, prefix, entries, names).Done?
    ensures Unique(r1) && |r1| == |registry| + 1 && registry <= r1
    ensures DefinedFrom(prefix, entries, keys[0], longest, r1[|registry|..][0])
    ensures DefineEach(r1, prefix, entries, names[1..]) == DefineEach(registry, prefix, entries, names)
  {
    StoredNameView(keys[0], longest);
    DefNameOf(prefix, keys[0], longest);
    var fullName := prefix + names[0].storage;
    var cur := Lookup(entries, keys[0]).value;
    var fields := ParseSchemaType(cur.pairs).value;
    var rec := Record(fullName, fields);
    DefineMeaning(registry, fullName, fields);
    r1 := registry + [rec];
    assert Define(registry, fullName, fields) == Some(r1);
    assert r1[|registry|..][0] == rec;
  }

  /** The records defined after the first one, seen from one record earlier. */
  lemma {:induction false} DefinedShift(prefix: string, entries: seq<(string, JsonValue)>, keys: seq<string>, longest: nat,
                                        added: seq<Record>)
    requires keys != [] && |keys| <= |added|
    requires DefinedFrom(prefix, entries, keys[0], longest, added[0])
    requires forall k :: 0 <= k < |keys[1..]| ==> DefinedFrom(prefix, entries, keys[1..][k], longest, added[1..][k])
    ensures forall k :: 0 <= k < |keys| ==> DefinedFrom(prefix, entries, keys[k], longest, added[k])
  {
    forall k | 1 <= k < |keys|
      ensures DefinedFrom(prefix, entries, keys[k], longest, added[k])
    {
      assert keys[1..][k - 1] == keys[k];
      assert added[1..][k - 1] == added[k];
    }
  }

  /** With distinct keys, get_by_key finds each entry under its own key. */
  lemma {:induction false} DistinctKeysLookup(entries: seq<(string, JsonValue)>)
    requires forall i, j :: 0 <= i < j < |entries| ==> entries[i].0 != entries[j].0
    ensures forall k :: 0 <= k < |entries| ==> Lookup(entries, entries[k].0) == Some(entries[k].1)
  {
    forall k | 0 <= k < |entries|
      ensures Lookup(entries, entries[k].0) == Some(entries[k].1)
    {
      LookupAt(entries, k, entries[k].0);
    }
  }

  /** One record per definition, in order: named by DefPrefix and its key stored in a
      fixed_string<longest + 1>, with the members of its object schema. */
  ghost predicate DefinesEach(prefix: string, entries: seq<(string, JsonValue)>, longest: nat, added: seq<Record>) {
    |added| == |entries| &&
    forall k :: 0 <= k < |entries| ==>
      && |entries[k].0| <= longest
      && ObjectDef(entries[k].1)
      && ParseSchemaType(entries[k].1.pairs).Done?
      && added[k] == Record(prefix + StoredName(entries[k].0, longest).storage, ParseSchemaType(entries[k].1.pairs).value)
  }

  /** Records appended under distinct names come from definitions with distinct keys, so each is
      defined from its own entry. */
  lemma {:induction false} AddedInOrder(registry: seq<Record>, prefix: string, entries: seq<(string, JsonValue)>, longest: nat,
                                        d: seq<Record>)
    requires Unique(d) && registry <= d && |d| == |registry| + |entries|
    requires forall k :: 0 <= k < |entries| ==> ObjectDef(entries[k].1)
    requires forall k :: 0 <= k < |entries| ==> DefinedFrom(prefix, entries, entries[k].0, longest, d[|registry|..][k])
    ensures DefinesEach(prefix, entries, longest, d[|registry|..])
  {
    var added := d[|registry|..];
    forall i, j | 0 <= i < j < |entries|
      ensures entries[i].0 != entries[j].0
    {
      assert d[|registry| + i] == added[i] && d[|registry| + j] == added[j];
    }
    DistinctKeysLookup(entries);
  }

  /** What define_schema_types promises of a parsed schema: "$defs" is mandatory and must not be
      empty; every definition is an object schema; and, when neither DefPrefix nor a key holds
      '\0', exactly one record per definition is appended, in order, each with the members of its
      definition and named by DefPrefix and the key padded to the longest key's size. Nothing else
      is defined: the root StructName is not. */
  lemma {:induction false} DefineFromValueMeaning(registry: seq<Record>, prefix: string, v: JsonValue)
    requires Unique(registry)
    ensures v.JObj? && Lookup(v.pairs, "$defs").None? ==> DefineFromValue(registry, prefix, v) == Stopped(Threw(NoMatchingKey))
    ensures DefsOf(v) == Done([]) ==> DefineFromValue(registry, prefix, v) == Stopped(EmptyRange)
    ensures DefineFromValue(registry, prefix, v).Done? ==>
      DefsOf(v).Done? && DefsOf(v).value != [] && forall k :: 0 <= k < |DefsOf(v).value| ==> ObjectDef(DefsOf(v).value[k].1)
    ensures DefineFromValue(registry, prefix, v).Done? && '\0' !in prefix &&
            (forall k :: 0 <= k < |DefsOf(v).value| ==> '\0' !in DefsOf(v).value[k].0) ==>
      && Unique(DefineFromValue(registry, prefix, v).value)
      && registry <= DefineFromValue(registry, prefix, v).value
      && |DefineFromValue(registry, prefix, v).value| == |registry| + |DefsOf(v).value|
      && DefinesEach(prefix, DefsOf(v).value, MaxNameLength(DefsOf(v).value),
                     DefineFromValue(registry, prefix, v).value[|registry|..])
  {
    if DefineFromValue(registry, prefix, v).Done? {
      var entries := DefsOf(v).value;
      CheckDefsMeaning(entries);
      if '\0' !in prefix && forall k :: 0 <= k < |entries| ==> '\0' !in entries[k].0 {
        NamesDefined(registry, prefix, v);
      }
    }
  }

  /** The define loop of DefineFromValue, its stored names viewed as the "$defs" keys. */
  lemma {:induction false} NamesDefined(registry: seq<Record>, prefix: string, v: JsonValue)
    requires Unique(registry) && DefineFromValue(registry, prefix, v).Done? && '\0' !in prefix
    requires DefsOf(v).Done? && DefsOf(v).value != [] && forall k :: 0 <= k < |DefsOf(v).value| ==> '\0' !in DefsOf(v).value[k].0
    requires forall k :: 0 <= k < |DefsOf(v).value| ==> ObjectDef(DefsOf(v).value[k].1)
    ensures Unique(DefineFromValue(registry, prefix, v).value) && registry <= DefineFromValue(registry, prefix, v).value
    ensures |DefineFromValue(registry, prefix, v).value| == |registry| + |DefsOf(v).value|
    ensures DefinesEach(prefix, DefsOf(v).value, MaxNameLength(DefsOf(v).value),
                        DefineFromValue(registry, prefix, v).value[|registry|..])
  {
    var entries := DefsOf(v).value;
    var longest := LongestDefName(v).value;
    var names := seq(|entries|, k requires 0 <= k < |entries| => StoredName(entries[k].0, longest));
    var keys := seq(|entries|, k requires 0 <= k < |entries| => entries[k].0);
    var d := DefineFromValue(registry, prefix, v).value;
    assert d == DefineEach(registry, prefix, entries, names).value;
    DefineEachMeaning(registry, prefix, entries, names, keys, longest);
    AddedInOrder(registry, prefix, entries, longest, d);
  }

  /** The root named StructName is never defined, unless the name of some "$defs" record spells it. */
  lemma {:induction false} RootNotDefined(registry: seq<Record>, structName: string, prefix: string, schema: string)
    requires Unique(registry) && Find(registry, structName).None? && Parse(schema).Ok?
    requires DefsOf(Parse(schema).value).Done? && DefsOf(Parse(schema).value).value != [] && '\0' !in prefix
    requires var entries := DefsOf(Parse(schema).value).value;
      forall k :: 0 <= k < |entries| ==>
        '\0' !in entries[k].0 && prefix + StoredName(entries[k].0, MaxNameLength(entries)).storage != structName
    ensures DefineSchemaTypes(registry, structName, prefix, schema).Done? ==>
      Find(DefineSchemaTypes(registry, structName, prefix, schema).value, structName).None?
  {
    var v := Parse(schema).value;
    DefineFromValueMeaning(registry, prefix, v);
    if DefineFromValue(registry, prefix, v).Done? {
      var d := DefineFromValue(registry, prefix, v).value;
      FindMeaning(registry, structName);
      FindMeaning(d, structName);
      forall i | 0 <= i < |d|
        ensures d[i].name != structName
      {
        if i >= |registry| {
          assert d[i] == d[|registry|..][i - |registry|];
        } else {
          assert d[i] == registry[i];
        }
      }
    }
  }

  // ---------------------------------------------------------------------
  // basic_array_schema, as a tree

  const VeggieNameSchema: seq<(string, JsonValue)> := [
    ("type", JStr("string")), ("description", JStr("The name of the vegetable."))]
  const VeggieLikeSchema: seq<(string, JsonValue)> := [
    ("type", JStr("boolean")), ("description", JStr("Do I like this vegetable?"))]

  const VeggieDef: seq<(string, JsonValue)> := [
    ("type", JStr("object")),
    ("required", JArr([JStr("veggieName"), JStr("veggieLike")])),
    ("properties", JObj([("veggieName", JObj(VeggieNameSchema)), ("veggieLike", JObj(VeggieLikeSchema))]))]

  const BasicArraySchema: seq<(string, JsonValue)> := [
    ("$id", JStr("https://example.com/arrays.schema.json")),
    ("$schema", JStr("https://json-schema.org/draft/2020-12/schema")),
    ("description", JStr("Arrays of strings and objects")),
    ("title", JStr("Arrays")),
    ("type", JStr("object")),
    ("properties", JObj([
      ("fruits", JObj([("type", JStr("array")), ("items", JObj([("type", JStr("string"))]))])),
      ("vegetables", JObj([("type", JStr("array")), ("items", JObj([("$ref", JStr("#/$defs/veggie"))]))]))])),
    ("$defs", JObj([("veggie", JObj(VeggieDef))]))]

  /** A required property {"type": t} of a primitive type t. */
  lemma {:induction false} RequiredPrimitive(name: string, desc: seq<(string, JsonValue)>, t: string, required: seq<string>)
    requires |desc| > 0 && desc[0] == ("type", JStr(t)) && PrimNamed(t).Some? && name in required
    ensures SingleSchemaType(name, desc, required) == Done(Field(name, Prim(PrimNamed(t).value)))
  {
    LookupAt(desc, 0, "type");
    TypeMappingExact(t);
  }

  /** veggie: both members required, a std::string and a bool. */
  lemma {:induction false} VeggieMembers()
    ensures ParseSchemaType(VeggieDef) == Done([Field("veggieName", Prim(StdString)), Field("veggieLike", Prim(Bool))])
  {
    var req := ["veggieName", "veggieLike"];
    var es := [JStr("veggieName"), JStr("veggieLike")];
    var pp := [("veggieName", JObj(VeggieNameSchema)), ("veggieLike", JObj(VeggieLikeSchema))];
    var name := Field("veggieName", Prim(StdString));
    var like := Field("veggieLike", Prim(Bool));
    LookupAt(VeggieDef, 1, "required");
    assert es[1..][0] == JStr("veggieLike") && es[1..][1..] == [];
    assert RequiredStrings(es[1..][1..]) == Done([]);
    assert ["veggieLike"] + [] == ["veggieLike"];
    assert RequiredStrings(es[1..]) == Done(["veggieLike"]);
    assert ["veggieName"] + ["veggieLike"] == req;
    assert RequiredItems(VeggieDef) == Done(req);
    LookupAt(VeggieDef, 2, "properties");
    RequiredPrimitive("veggieName", VeggieNameSchema, "string", req);
    RequiredPrimitive("veggieLike", VeggieLikeSchema, "boolean", req);
    assert pp[1..][0] == pp[1] && pp[1..][1..] == [];
    assert Members(pp[1..][1..], req) == Done([]);
    assert [like] + [] == [like];
    assert Members(pp[1..], req) == Done([like]);
    assert [name] + [like] == [name, like];
    assert Members(pp, req) == Done([name, like]);
  }

  const VeggieEntries: seq<(string, JsonValue)> := [("veggie", JObj(VeggieDef))]
  /** The record main reads as json_schema_types<"test_veggie">: the literal's storage names it. */
  const TestVeggie := Record(FixedString.Lit("test_veggie").storage, [Field("veggieName", Prim(StdString)), Field("veggieLike", Prim(Bool))])

  /** "$defs" holds the one definition veggie, whose name is the longest, at six characters. */
  lemma {:induction false} VeggieDefs()
    ensures DefsOf(JObj(BasicArraySchema)) == Done(VeggieEntries)
    ensures LongestDefName(JObj(BasicArraySchema)) == Done(6)
    ensures CheckDefs(VeggieEntries) == Done(true)
  {
    LookupAt(BasicArraySchema, 6, "$defs");
    LookupAt(VeggieDef, 0, "type");
    assert VeggieEntries[1..] == [];
  }

  /** The definition found under "veggie", and the record defined from it. */
  lemma {:induction false} VeggieRecord()
    ensures Lookup(VeggieEntries, "veggie") == Some(JObj(VeggieDef))
    ensures Define([], TestVeggie.name, TestVeggie.fields) == Some([TestVeggie])
  {
    LookupAt(VeggieEntries, 0, "veggie");
    assert Find([], TestVeggie.name) == None;
    assert [] + [TestVeggie] == [TestVeggie];
  }

  /** veggie is the longest key, so its stored name has no padding and its record is
      json_schema_types<"test_veggie">. */
  lemma {:induction false} VeggieName()
    ensures DefName("test_", StoredName("veggie", 6)) == TestVeggie.name
  {
    DefNameOf("test_", "veggie", 6);
    TestVeggieName();
  }

  lemma {:induction false} TestVeggieName()
    ensures "test_" + StoredName("veggie", 6).storage == FixedString.Lit("test_veggie").storage
  {
    assert FixedString.Zeros(1) == ['\0'];
    assert "test_" + "veggie" == "test_veggie";
    assert "test_" + ("veggie" + ['\0']) == ("test_" + "veggie") + ['\0'];
  }

  /** A key shorter than the longest key keeps its padding in the record's name, so the record is
      not json_schema_types<DefPrefix + key>, the name it gets when it is the longest key. With a
      key "bbbb" beside it, the key "a" under "test_" names the record "test_a" and four '\0'. */
  lemma {:induction false} PaddedDefName(prefix: string, key: string, longest: nat)
    requires '\0' !in prefix && '\0' !in key && |key| < longest
    ensures DefName(prefix, StoredName(key, longest)) != FixedString.Lit(prefix + key).storage
    ensures DefName(prefix, StoredName(key, |key|)) == FixedString.Lit(prefix + key).storage
  {
    DefNameOf(prefix, key, longest);
    assert |FixedString.Lit(prefix + key).storage| == |prefix| + |key| + 1;
    ExactDefName(prefix, key);
  }

  /** The longest key is stored with only the final '\0', so its record name is the literal. */
  lemma {:induction false} ExactDefName(prefix: string, key: string)
    requires '\0' !in prefix && '\0' !in key
    ensures DefName(prefix, StoredName(key, |key|)) == FixedString.Lit(prefix + key).storage
  {
    DefNameOf(prefix, key, |key|);
    UnpaddedName(prefix, key);
  }

  /** The longest key's storage after the prefix is the literal prefix + key. */
  lemma {:induction false} UnpaddedName(prefix: string, key: string)
    ensures prefix + StoredName(key, |key|).storage == FixedString.Lit(prefix + key).storage
  {
    assert FixedString.Zeros(1) == ['\0'];
    assert StoredName(key, |key|).storage == key + ['\0'];
    assert prefix + (key + ['\0']) == (prefix + key) + ['\0'];
  }

  /** The define loop over the stored name "veggie". */
  lemma {:induction false} VeggieDefined()
    ensures DefineEach([], "test_", VeggieEntries, [StoredName("veggie", 6)]) == Done([TestVeggie])
  {
    var names := [StoredName("veggie", 6)];
    StoredNameView("veggie", 6);
    assert FixedString.View(names[0]) == "veggie";
    VeggieName();
    VeggieRecord();
    VeggieMembers();
    assert names[1..] == [];
    assert DefineEach([TestVeggie], "test_", VeggieEntries, names[1..]) == Done([TestVeggie]);
  }

  /** define_schema_types<"fruits_and_veggies", "test_", basic_array_schema> defines one record,
      json_schema_types<"test_veggie"> as main names it, with members veggieName and veggieLike;
      the root is not defined. */
  lemma {:induction false} VeggieExample()
    ensures DefineFromValue([], "test_", JObj(BasicArraySchema)) ==
      Done([Record(FixedString.Lit("test_veggie").storage, [Field("veggieName", Prim(StdString)), Field("veggieLike", Prim(Bool))])])
  {
    VeggieDefs();
    var names := seq(|VeggieEntries|, k requires 0 <= k < |VeggieEntries| => StoredName(VeggieEntries[k].0, 6));
    assert names == [StoredName("veggie", 6)];
    VeggieDefined();
  }
}
