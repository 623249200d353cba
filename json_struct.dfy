/** Records described by JSON (src/json_struct.cpp): make_struct_from_json
    turns the "format" object into the member list of a struct, and
    make_data_from_json turns the "data" array into values of that struct,
    setting each member by name.

    define_aggregate's effect is the member list returned; the struct values
    are the member values, in member order. */
module JsonStruct {
  import opened Basics
  import opened JsonParse
  import opened RuntimeSetter

  /** The integer types type_mapping names. */
  datatype IntKind = I8 | I16 | I32 | I64 | U8 | U16 | U32 | U64

  /** 2 to the width of the type: the number of values it holds. */
  function Modulus(k: IntKind): (m: int)
    ensures m > 0
  {
    match k
    case I8 => 0x100
    case U8 => 0x100
    case I16 => 0x1_0000
    case U16 => 0x1_0000
    case I32 => 0x1_0000_0000
    case U32 => 0x1_0000_0000
    case I64 => 0x1_0000_0000_0000_0000
    case U64 => 0x1_0000_0000_0000_0000
  }

  predicate Signed(k: IntKind) {
    k == I8 || k == I16 || k == I32 || k == I64
  }

  /** The smallest value of the type. */
  function Min(k: IntKind): int {
    if Signed(k) then -(Modulus(k) / 2) else 0
  }

  predicate Fits(k: IntKind, x: int) {
    Min(k) <= x < Min(k) + Modulus(k)
  }

  /** Converting an int64 to a member's integer type: the value modulo
      2 to the width, read back as signed or unsigned. */
  function Convert(k: IntKind, x: int): (r: int)
    ensures Fits(k, r)
    ensures r % Modulus(k) == x % Modulus(k)
  {
    var m := Modulus(k);
    var low := x % m;
    if Signed(k) && low >= m / 2 then low - m else low
  }

  /** A value the member type can hold is stored unchanged. */
  lemma {:induction false} ConvertKeepsFitting(k: IntKind, x: int)
    requires Fits(k, x)
    ensures Convert(k, x) == x
  {
    var m := Modulus(k);
    if x < 0 {
      assert x % m == x + m;
    } else {
      assert x % m == x;
    }
  }

  /** type_mapping: the JSON type names and the integer types they stand for. */
  const TypeMapping: seq<(string, IntKind)> := [
    ("i8", I8), ("i16", I16), ("i32", I32), ("i64", I64),
    ("u8", U8), ("u16", U16), ("u32", U32), ("u64", U64)
  ]

  /** Every integer type is assignable from std::int64_t. */
  function IntAssignable(to: IntKind, from: IntKind): bool {
    true
  }

  /** A member is indeterminate (None) until set_by_name stores a converted value. */
  function StoreInt(to: IntKind, from: IntKind, v: Option<int>): Option<int> {
    if v.Some? then Some(Convert(to, v.value)) else None
  }

  /** Why evaluation stops. Threw(Diverges) is not an exception: it stands
      for parse_json_str's loop, which never ends. */
  datatype Why =
    | Threw(error: ParseError)  // an exception from the parser or get_by_key
    | BadVariantAccess          // std::get of the wrong json_value alternative
    | Uninitialised             // a constant holding a member that was never set

  datatype Outcome<+T> = Done(value: T) | Stopped(why: Why)

  // ---------------------------------------------------------------------
  // make_struct_from_json

  /** One entry of "format": its value must be a string that type_mapping knows. */
  function FieldMember(entry: (string, JsonValue)): Outcome<Member<IntKind>> {
    if !entry.1.JStr? then Stopped(BadVariantAccess)
    else match Lookup(TypeMapping, entry.1.s)
      case None => Stopped(Threw(NoMatchingKey))
      case Some(k) => Done(Member(entry.0, k))
  }

  /** The members for the "format" entries, or the first entry's failure. */
  function FormatMembers(entries: seq<(string, JsonValue)>): Outcome<seq<Member<IntKind>>> {
    if entries == [] then Done([])
    else match FieldMember(entries[0])
      case Stopped(w) => Stopped(w)
      case Done(m) =>
        match FormatMembers(entries[1..])
        case Stopped(w) => Stopped(w)
        case Done(ms) => Done([m] + ms)
  }

  function StructFromJson(jsonStr: string): Outcome<seq<Member<IntKind>>> {
    match Parse(jsonStr)
    case Fail(e) => Stopped(Threw(e))
    case Ok(json) =>
      if !json.JObj? then Stopped(BadVariantAccess)
      else match Lookup(json.pairs, "format")
        case None => Stopped(Threw(NoMatchingKey))
        case Some(format) => if !format.JObj? then Stopped(BadVariantAccess) else FormatMembers(format.pairs)
  }

  /** The members collected so far, in front of what the rest yields. */
  function Prepend<T>(done: seq<T>, rest: Outcome<seq<T>>): Outcome<seq<T>> {
    match rest
    case Stopped(w) => Stopped(w)
    case Done(r) => Done(done + r)
  }

  lemma {:induction false} PrependNothing<T>(rest: Outcome<seq<T>>)
    ensures Prepend([], rest) == rest
  {
    if rest.Done? {
      assert [] + rest.value == rest.value;
    }
  }

  method MakeStructFromJson(jsonStr: string) returns (r: Outcome<seq<Member<IntKind>>>)
    ensures r == StructFromJson(jsonStr)
  {
    var json := ParseJson(jsonStr);
    if json.Fail? {
      return Stopped(Threw(json.error));
    }
    if !json.value.JObj? {
      return Stopped(BadVariantAccess);
    }
    var formatInfo := GetByKey(json.value.pairs, "format");
    if formatInfo.Fail? {
      return Stopped(Threw(formatInfo.error));
    }
    if !formatInfo.value.JObj? {
      return Stopped(BadVariantAccess);
    }
    var entries := formatInfo.value.pairs;
    var members: seq<Member<IntKind>> := [];
    var i := 0;
    PrependNothing(FormatMembers(entries));
    while i < |entries|
      invariant 0 <= i <= |entries|
      invariant Prepend(members, FormatMembers(entries[i..])) == FormatMembers(entries)
    {
      var (name, typeRaw) := entries[i];
      if !typeRaw.JStr? {
        return Stopped(BadVariantAccess);
      }
      var ty := GetByKey(TypeMapping, typeRaw.s);
      if ty.Fail? {
        return Stopped(Threw(ty.error));
      }
      assert entries[i..][1..] == entries[i + 1..];
      assert members + [Member(name, ty.value)] + [] == members + [Member(name, ty.value)];
      AppendAssociative(members, [Member(name, ty.value)], FormatMembers(entries[i + 1..]));
      members := members + [Member(name, ty.value)];
      i := i + 1;
    }
    assert entries[|entries|..] == [];
    assert members + [] == members;
    return Done(members);
  }

  lemma {:induction false} AppendAssociative<T>(a: seq<T>, b: seq<T>, rest: Outcome<seq<T>>)
    ensures Prepend(a, Prepend(b, rest)) == Prepend(a + b, rest)
  {
    if rest.Done? {
      assert a + (b + rest.value) == a + b + rest.value;
    }
  }

  /** make_struct_from_json's members: one per "format" entry, in order,
      named by the key and typed through type_mapping; it fails exactly when
      some entry is not a string or names no known type. */
  lemma {:induction false} FormatMembersMeaning(entries: seq<(string, JsonValue)>)
    ensures FormatMembers(entries).Done? <==>
      forall i :: 0 <= i < |entries| ==> entries[i].1.JStr? && Lookup(TypeMapping, entries[i].1.s).Some?
    ensures FormatMembers(entries).Done? ==>
      var ms := FormatMembers(entries).value;
      && |ms| == |entries|
      && forall i :: 0 <= i < |entries| ==>
           ms[i].name == entries[i].0 && Some(ms[i].ty) == Lookup(TypeMapping, entries[i].1.s)
  {
    if entries != [] {
      FormatMembersMeaning(entries[1..]);
      assert forall i :: 1 <= i < |entries| ==> entries[i] == entries[1..][i - 1];
    }
  }

  /** The JSON type names type_mapping accepts. */
  lemma {:induction false} TypeMappingNames(s: string)
    ensures Lookup(TypeMapping, s).Some? <==> s in ["i8", "i16", "i32", "i64", "u8", "u16", "u32", "u64"]
  {
    LookupFirstMatch(TypeMapping, s);
    var names := ["i8", "i16", "i32", "i64", "u8", "u16", "u32", "u64"];
    assert forall i :: 0 <= i < |TypeMapping| ==> TypeMapping[i].0 == names[i];
  }

  // ---------------------------------------------------------------------
  // make_data_from_json

  /** Applies one data object's pairs in order with set_by_name; every value must be an integer. */
  function ApplyPairs(members: seq<Member<IntKind>>, values: seq<Option<int>>, pairs: seq<(string, JsonValue)>): Outcome<seq<Option<int>>>
    requires |values| == |members|
    decreases |pairs|
  {
    if pairs == [] then Done(values)
    else if !pairs[0].1.JInt? then Stopped(BadVariantAccess)
    else
      var after := SetByNameSpec(members, values, pairs[0].0, I64, Some(pairs[0].1.i), IntAssignable, StoreInt).1;
      ApplyPairs(members, after, pairs[1..])
  }

  predicate AllSet(values: seq<Option<int>>) {
    forall i :: 0 <= i < |values| ==> values[i].Some?
  }

  function Unwrap(values: seq<Option<int>>): (r: seq<int>)
    requires AllSet(values)
    ensures |r| == |values| && forall i :: 0 <= i < |values| ==> r[i] == values[i].value
  {
    if values == [] then [] else [values[0].value] + Unwrap(values[1..])
  }

  /** One element of "data": a default-initialised struct whose members are set by name. */
  function DataRecord(members: seq<Member<IntKind>>, element: JsonValue): Outcome<seq<int>> {
    if !element.JObj? then Stopped(BadVariantAccess)
    else match ApplyPairs(members, seq(|members|, _ => None), element.pairs)
      case Stopped(w) => Stopped(w)
      case Done(values) => if AllSet(values) then Done(Unwrap(values)) else Stopped(Uninitialised)
  }

  function DataRecords(members: seq<Member<IntKind>>, elements: seq<JsonValue>): Outcome<seq<seq<int>>> {
    if elements == [] then Done([])
    else match DataRecord(members, elements[0])
      case Stopped(w) => Stopped(w)
      case Done(r) =>
        match DataRecords(members, elements[1..])
        case Stopped(w) => Stopped(w)
        case Done(rs) => Done([r] + rs)
  }

  function DataFromJson(jsonStr: string, members: seq<Member<IntKind>>): Outcome<seq<seq<int>>> {
    match Parse(jsonStr)
    case Fail(e) => Stopped(Threw(e))
    case Ok(json) =>
      if !json.JObj? then Stopped(BadVariantAccess)
      else match Lookup(json.pairs, "data")
        case None => Stopped(Threw(NoMatchingKey))
        case Some(data) => if !data.JArr? then Stopped(BadVariantAccess) else DataRecords(members, data.elems)
  }

  /** make_data_from_json<T>: T's members are given; set_by_name's
      static_assert needs one member that takes an int64, so T has a member. */
  method MakeDataFromJson(jsonStr: string, members: seq<Member<IntKind>>) returns (r: Outcome<seq<seq<int>>>)
    requires UniqueNames(members) && |members| > 0
    ensures r == DataFromJson(jsonStr, members)
  {
    var json := ParseJson(jsonStr);
    if json.Fail? {
      return Stopped(Threw(json.error));
    }
    if !json.value.JObj? {
      return Stopped(BadVariantAccess);
    }
    var dataInfo := GetByKey(json.value.pairs, "data");
    if dataInfo.Fail? {
      return Stopped(Threw(dataInfo.error));
    }
    if !dataInfo.value.JArr? {
      return Stopped(BadVariantAccess);
    }
    var elements := dataInfo.value.elems;
    var toRet: seq<seq<int>> := [];
    var i := 0;
    PrependNothing(DataRecords(members, elements));
    while i < |elements|
      invariant 0 <= i <= |elements|
      invariant Prepend(toRet, DataRecords(members, elements[i..])) == DataRecords(members, elements)
    {
      var record := MakeRecord(members, elements[i]);
      if record.Stopped? {
        return Stopped(record.why);
      }
      assert elements[i..][1..] == elements[i + 1..];
      AppendAssociative(toRet, [record.value], DataRecords(members, elements[i + 1..]));
      toRet := toRet + [record.value];
      i := i + 1;
    }
    assert elements[|elements|..] == [];
    assert toRet + [] == toRet;
    return Done(toRet);
  }

  /** The body of the outer loop: `T to_add;`, the set_by_name loop, then the copy into the result. */
  method MakeRecord(members: seq<Member<IntKind>>, element: JsonValue) returns (r: Outcome<seq<int>>)
    requires UniqueNames(members) && |members| > 0
    ensures r == DataRecord(members, element)
  {
    if !element.JObj? {
      return Stopped(BadVariantAccess);
    }
    var toAdd := new Record(members, seq(|members|, _ => None));
    var pairs := element.pairs;
    var j := 0;
    while j < |pairs|
      invariant 0 <= j <= |pairs|
      invariant toAdd.Valid() && toAdd.members == members
      invariant ApplyPairs(members, toAdd.values, pairs[j..]) == ApplyPairs(members, seq(|members|, _ => None), pairs)
    {
      var (name, value) := pairs[j];
      if !value.JInt? {
        return Stopped(BadVariantAccess);
      }
      assert pairs[j..][1..] == pairs[j + 1..];
      assert CanSetWithType(members, I64, IntAssignable) by {
        assert IntAssignable(members[0].ty, I64);
      }
      var _ := toAdd.SetByName(name, I64, Some(value.i), IntAssignable, StoreInt);
      j := j + 1;
    }
    var values := toAdd.values;
    if exists k :: 0 <= k < |values| && values[k].None? {
      return Stopped(Uninitialised);
    }
    return Done(Unwrap(values));
  }

  /** make_data_from_json yields exactly one record per element of "data", in order. */
  lemma {:induction false} DataRecordsInOrder(members: seq<Member<IntKind>>, elements: seq<JsonValue>)
    ensures DataRecords(members, elements).Done? <==> forall i :: 0 <= i < |elements| ==> DataRecord(members, elements[i]).Done?
    ensures DataRecords(members, elements).Done? ==>
      var rs := DataRecords(members, elements).value;
      |rs| == |elements| && forall i :: 0 <= i < |elements| ==> rs[i] == DataRecord(members, elements[i]).value
  {
    if elements != [] {
      DataRecordsInOrder(members, elements[1..]);
      assert forall i :: 1 <= i < |elements| ==> elements[i] == elements[1..][i - 1];
    }
  }

  /** A key that names no member is skipped: set_by_name's false result is discarded. */
  lemma {:induction false} UnknownKeyIgnored(members: seq<Member<IntKind>>, values: seq<Option<int>>, pairs: seq<(string, JsonValue)>)
    requires |values| == |members| && |pairs| > 0 && pairs[0].1.JInt?
    requires forall i :: 0 <= i < |members| ==> members[i].name != pairs[0].0
    ensures ApplyPairs(members, values, pairs) == ApplyPairs(members, values, pairs[1..])
  {
    var (key, v) := pairs[0];
    var spec := SetByNameSpec(members, values, key, I64, Some(v.i), IntAssignable, StoreInt);
    assert spec.1 == values;
  }

  /** A value outside an integer-typed member's range is stored modulo the width. */
  lemma {:induction false} SetStoresConverted(members: seq<Member<IntKind>>, values: seq<Option<int>>, i: nat, n: int)
    requires |values| == |members| && UniqueNames(members) && i < |members|
    ensures var after := SetByNameSpec(members, values, members[i].name, I64, Some(n), IntAssignable, StoreInt).1;
      after[i] == Some(Convert(members[i].ty, n))
  {
    SetByNameMeaning(members, values, members[i].name, I64, Some(n), IntAssignable, StoreInt);
  }

  // ---------------------------------------------------------------------
  // The static_asserts

  const Spaced := Layout(_ => "", " ", _ => " ", _ => "")

  lemma {:induction false} SpacedIsWhitespace()
    ensures WhitespaceLayout(Spaced)
  {
  }

  lemma {:induction false} ParseNumberExample()
    ensures Parse("123") == Ok(JInt(123))
  {
    assert DigitChar(1) == '1' && DigitChar(2) == '2' && DigitChar(3) == '3';
    assert "" + Text(JInt(123), "", Compact, 0) == "123";
    ParseText(JInt(123), Compact, "", "");
  }

  lemma {:induction false} ParseStringExample()
    ensures Parse(" \"123\" ") == Ok(JStr("123"))
  {
    assert " " + Text(JStr("123"), " ", Compact, 0) == " \"123\" ";
    ParseText(JStr("123"), Compact, " ", " ");
  }

  lemma {:induction false} ParseArrayExample()
    ensures Parse("[1, 2, 3]") == Ok(JArr([JInt(1), JInt(2), JInt(3)]))
  {
    var v := JArr([JInt(1), JInt(2), JInt(3)]);
    ArrayExampleText();
    SpacedIsWhitespace();
    ParseText(v, Spaced, "", "");
  }

  lemma {:induction false} ArrayExampleText()
    ensures "" + Text(JArr([JInt(1), JInt(2), JInt(3)]), "", Spaced, 0) == "[1, 2, 3]"
  {
    assert DigitChar(1) == '1' && DigitChar(2) == '2' && DigitChar(3) == '3';
    assert ElemsText([JInt(3)], "]", Spaced, 0) == "3]";
    assert ElemsText([JInt(2), JInt(3)], "]", Spaced, 0) == "2, 3]";
    assert ElemsText([JInt(1), JInt(2), JInt(3)], "]", Spaced, 0) == "1, 2, 3]";
  }

  lemma {:induction false} ParseObjectExample()
    ensures Parse("{\"a\": 123}") == Ok(JObj([("a", JInt(123))]))
  {
    var v := JObj([("a", JInt(123))]);
    assert DigitChar(1) == '1' && DigitChar(2) == '2' && DigitChar(3) == '3';
    assert Text(JInt(123), "}", Spaced, 1) == "123}";
    assert "" + Text(v, "", Spaced, 0) == "{\"a\": 123}";
    SpacedIsWhitespace();
    ParseText(v, Spaced, "", "");
  }
}
