/** Whole documents for the template JSON parser of
    src/json_schema2/json.hpp: a small document language written without
    whitespace and without numbers (true, false, null, quoted strings, and
    objects and arrays nested to any depth), the text of each document, and
    the value parse_json_value gives for that text. The main result is the
    round trip: parsing the text of a document followed by anything that
    does not start with whitespace yields the document's value and leaves
    exactly what followed. */
module KhctJsonDocs {
  import opened Basics
  import opened KhctString
  import opened KhctJson
  import KhctMap
  import KhctCommon

  datatype Doc =
    | DTrue
    | DFalse
    | DNull
    | DText(body: string)
    | DObject(members: seq<(string, Doc)>)
    | DArray(elems: seq<Doc>)

  /** Strings are read back whole (see QuoteFree), and a key is all of its
      string's view, so it holds no '\0'. */
  ghost predicate Printable(d: Doc) {
    match d
    case DText(body) => QuoteFree(body)
    case DObject(members) =>
      forall i :: 0 <= i < |members| ==>
        QuoteFree(members[i].0) && '\0' !in members[i].0 && Printable(members[i].1)
    case DArray(elems) => forall i :: 0 <= i < |elems| ==> Printable(elems[i])
    case _ => true
  }

  /** The characters a document's text can start with. */
  predicate Opens(c: char) {
    c == '{' || c == '[' || c == '"' || c == 't' || c == 'f' || c == 'n'
  }

  /** Parts separated by commas. */
  function Joined(parts: seq<string>): string {
    if parts == [] then ""
    else if |parts| == 1 then parts[0]
    else parts[0] + "," + Joined(parts[1..])
  }

  /** The text of a document. */
  function Print(d: Doc): (r: string)
    ensures |r| > 0 && Opens(r[0])
    decreases d
  {
    match d
    case DTrue => "true"
    case DFalse => "false"
    case DNull => "null"
    case DText(body) => ['"'] + body + ['"']
    case DArray(elems) => ['['] + Joined(Prints(elems)) + [']']
    case DObject(members) => ['{'] + Joined(MemberTexts(members)) + ['}']
  }

  /** A member's text: the quoted key, ':' and the value's text. */
  function MemberTexts(members: seq<(string, Doc)>): (r: seq<string>)
    ensures |r| == |members|
    decreases members
  {
    if members == [] then []
    else
      assert members[0] in members && members[0].1 < members[0];
      [['"'] + members[0].0 + ['"'] + ([':'] + Print(members[0].1))] + MemberTexts(members[1..])
  }

  function Prints(elems: seq<Doc>): (r: seq<string>)
    ensures |r| == |elems|
    decreases elems
  {
    if elems == [] then [] else [Print(elems[0])] + Prints(elems[1..])
  }

  /** The value a document stands for: an array is the tuple of its
      elements, an object the multi_type_map make_multi_type_map builds
      from its keys and values with lex_comp (the empty one for "{}"). */
  function Value(d: Doc): Json
    decreases d
  {
    match d
    case DTrue => True
    case DFalse => False
    case DNull => Null
    case DText(body) => Text(Lit(body))
    case DArray(elems) => Tuple(Values(elems))
    case DObject(members) =>
      if members == [] then Object(KhctMap.MultiTypeMap([], [], []))
      else Object(KhctMap.Built(Pairs(members), LexLess))
  }

  /** The keys and the values of an object's members. */
  function Pairs(members: seq<(string, Doc)>): (r: seq<KhctCommon.Pair<string, Json>>)
    ensures |r| == |members|
    decreases members
  {
    if members == [] then []
    else
      assert members[0] in members && members[0].1 < members[0];
      [KhctCommon.Pair(members[0].0, Value(members[0].1))] + Pairs(members[1..])
  }

  function Values(elems: seq<Doc>): (r: seq<Json>)
    ensures |r| == |elems|
    decreases elems
  {
    if elems == [] then [] else [Value(elems[0])] + Values(elems[1..])
  }

  /** Text that may follow a value: it does not start with whitespace, so
      no strip changes it. */
  predicate Follows(u: string) {
    !IsWhitespace(Lit(u)[0])
  }

  /** text followed by u parses as v, leaving u. */
  ghost predicate ReadsAs(text: string, v: Json, u: string) {
    ParseValue(Lit(text + u)) == Compiles(Parsed(v, Lit(u)))
  }

  /** The document's text followed by any such text parses back to the
      document's value, with that text left over. */
  ghost predicate ReadsBack(d: Doc) {
    forall u :: Follows(u) ==> ReadsAs(Print(d), Value(d), u)
  }

  // ---------------------------------------------------------------------
  // Text

  lemma {:induction false} Assoc(a: string, b: string, c: string, u: string)
    ensures a + b + c + u == a + (b + (c + u))
  {
  }

  /** Joined parts split after the first one. */
  lemma {:induction false} JoinedSplit(parts: seq<string>, u: string)
    requires |parts| > 1
    ensures Joined(parts) + u == parts[0] + ("," + (Joined(parts[1..]) + u))
  {
    Assoc(parts[0], ",", Joined(parts[1..]), u);
  }

  /** Joined text, and anything after it, starts as its first part does. */
  lemma {:induction false} JoinedFollows(parts: seq<string>, t: string)
    requires |parts| > 0 && |parts[0]| > 0 && Opens(parts[0][0])
    ensures Follows(Joined(parts) + t) && Lit(Joined(parts) + t)[0] == parts[0][0]
  {
    assert Joined(parts)[0] == parts[0][0];
  }

  lemma {:induction false} PrintsCons(elems: seq<Doc>)
    requires elems != []
    ensures Prints(elems)[0] == Print(elems[0]) && Prints(elems)[1..] == Prints(elems[1..])
  {
    assert Prints(elems) == [Print(elems[0])] + Prints(elems[1..]);
  }

  /** The text of a one-element array after its '['. */
  lemma {:induction false} LastElemText(elems: seq<Doc>, t: string)
    requires |elems| == 1
    ensures Joined(Prints(elems)) + ("]" + t) == Print(elems[0]) + ("]" + t)
  {
    PrintsCons(elems);
  }

  /** The elements' text split after the first element. */
  lemma {:induction false} NextElemText(elems: seq<Doc>, t: string)
    requires |elems| > 1
    ensures Joined(Prints(elems)) + ("]" + t) == Print(elems[0]) + ("," + (Joined(Prints(elems[1..])) + ("]" + t)))
    ensures Follows(Joined(Prints(elems[1..])) + ("]" + t))
  {
    PrintsCons(elems);
    JoinedSplit(Prints(elems), "]" + t);
    PrintsCons(elems[1..]);
    JoinedFollows(Prints(elems[1..]), "]" + t);
  }

  /** The text of a non-empty array. */
  lemma {:induction false} ArrayText(elems: seq<Doc>, t: string)
    requires elems != []
    ensures Print(DArray(elems)) + t == "[" + (Joined(Prints(elems)) + ("]" + t))
    ensures Follows(Joined(Prints(elems)) + ("]" + t)) && Lit(Joined(Prints(elems)) + ("]" + t))[0] != ']'
  {
    PrintsCons(elems);
    JoinedFollows(Prints(elems), "]" + t);
  }

  lemma {:induction false} ValuesOne(elems: seq<Doc>)
    requires |elems| == 1
    ensures Values(elems) == [Value(elems[0])]
  {
    assert Values(elems) == [Value(elems[0])] + [];
  }

  // ---------------------------------------------------------------------
  // Parser steps, each on a string it does not look into

  lemma {:induction false} StripLit(u: string)
    requires Follows(u)
    ensures StripLeadingWhitespace(Lit(u)) == Lit(u)
  {
    StripNone(Lit(u));
  }

  /** Skipping one character before text that does not start with
      whitespace. */
  lemma {:induction false} SkipFirst(c: char, rest: string)
    requires Follows(rest)
    ensures SkipOne(Lit([c] + rest)) == Lit(rest)
  {
    var s := Lit([c] + rest);
    assert Spliced(s, 1, |s| - 1) == Lit(rest);
    StripLit(rest);
  }

  /** The '"' branch of parse_json_value. */
  lemma {:induction false} StringDispatch(s: CStr)
    requires s[0] == '"'
    ensures ParseValue(s) == Compiles(ParseJsonString(s))
  {
    UpToNulMeaning(s);
    var v := View(s);
    assert |v| > 0 && v[0] == '"';
    assert !StartsWith(v, "true") by { if |v| >= 4 { assert v[..4][0] == '"'; } }
    assert !StartsWith(v, "false") by { if |v| >= 5 { assert v[..5][0] == '"'; } }
    assert !StartsWith(v, "null") by { if |v| >= 4 { assert v[..4][0] == '"'; } }
  }

  lemma {:induction false} TextReadsBack(body: string, u: string)
    requires QuoteFree(body)
    ensures ReadsAs(['"'] + body + ['"'], Text(Lit(body)), u)
  {
    StringDispatch(Lit(['"'] + body + ['"'] + u));
    ParseJsonStringOf(body, u);
  }

  lemma {:induction false} ElemReadsBack(d: Doc, u: string)
    requires ReadsBack(d) && Follows(u)
    ensures ReadsAs(Print(d), Value(d), u)
  {
  }

  /** parse_array_value: a value, then ']'. */
  lemma {:induction false} ArrayLast(s: CStr, v: Json, t: string)
    requires ParseValue(s) == Compiles(Parsed(v, Lit("]" + t)))
    ensures ParseArrayValue(s) == Compiles(Parsed(Tuple([v]), Lit(t)))
  {
    StripLit("]" + t);
    assert Spliced(Lit("]" + t), 1, |t| + 1) == Lit(t);
  }

  /** parse_array_value: a value, then ',' and the rest of the elements. */
  lemma {:induction false} ArrayNext(s: CStr, v: Json, after: string, vs: seq<Json>, rest: CStr)
    requires Follows(after)
    ensures ParseValue(s) == Compiles(Parsed(v, Lit("," + after))) &&
            ParseArrayValue(Lit(after)) == Compiles(Parsed(Tuple(vs), rest)) ==>
            ParseArrayValue(s) == Compiles(Parsed(Tuple([v] + vs), rest))
  {
    StripLit("," + after);
    SkipFirst(',', after);
  }

  /** The '[' branch of parse_json_value, on a non-empty array. */
  lemma {:induction false} ArrayOpen(text: string, inner: string, vs: seq<Json>, t: string)
    requires text + t == "[" + inner && Follows(inner) && Lit(inner)[0] != ']'
    requires ParseArrayValue(Lit(inner)) == Compiles(Parsed(Tuple(vs), Lit(t)))
    ensures ReadsAs(text, Tuple(vs), t)
  {
    SkipFirst('[', inner);
  }

  /** The first half of parse_object_value: a key, ':' and a value, then
      the character after it. */
  lemma {:induction false} MemberStep(s: CStr, key: Json, colon: CStr, vs: CStr, v: Json, r: CStr)
    requires ParseJsonString(s) == Parsed(key, colon)
    requires StripLeadingWhitespace(colon) == colon && colon[0] == ':' && |colon| >= 2 && SkipOne(colon) == vs
    requires ParseValue(vs) == Compiles(Parsed(v, r))
    requires StripLeadingWhitespace(r) == r && Size(r) > 0
    ensures ParseMember(s) == Compiles(MemberParsed(Member(key, v), r[0], SkipOne(r)))
  {
    StripEmpty();
  }

  // ---------------------------------------------------------------------
  // Arrays of documents that read back

  lemma {:induction false} LastElemReadsBack(elems: seq<Doc>, t: string)
    requires |elems| == 1 && ReadsBack(elems[0])
    ensures ParseArrayValue(Lit(Joined(Prints(elems)) + ("]" + t))) == Compiles(Parsed(Tuple(Values(elems)), Lit(t)))
  {
    LastElemText(elems, t);
    ElemReadsBack(elems[0], "]" + t);
    ArrayLast(Lit(Print(elems[0]) + ("]" + t)), Value(elems[0]), t);
    ValuesOne(elems);
  }

  lemma {:induction false} NextElemReadsBack(elems: seq<Doc>, t: string)
    requires |elems| > 1 && ReadsBack(elems[0])
    requires ParseArrayValue(Lit(Joined(Prints(elems[1..])) + ("]" + t))) ==
      Compiles(Parsed(Tuple(Values(elems[1..])), Lit(t)))
    ensures ParseArrayValue(Lit(Joined(Prints(elems)) + ("]" + t))) == Compiles(Parsed(Tuple(Values(elems)), Lit(t)))
  {
    var after := Joined(Prints(elems[1..])) + ("]" + t);
    NextElemText(elems, t);
    ElemReadsBack(elems[0], "," + after);
    ArrayNext(Lit(Print(elems[0]) + ("," + after)), Value(elems[0]), after, Values(elems[1..]), Lit(t));
  }

  /** The elements of an array and its ']': the tuple of their values. */
  lemma {:induction false} ElemsReadBack(elems: seq<Doc>, t: string)
    requires |elems| > 0 && forall i :: 0 <= i < |elems| ==> ReadsBack(elems[i])
    ensures ParseArrayValue(Lit(Joined(Prints(elems)) + ("]" + t))) == Compiles(Parsed(Tuple(Values(elems)), Lit(t)))
    decreases |elems|
  {
    if |elems| == 1 {
      LastElemReadsBack(elems, t);
    } else {
      ElemsReadBack(elems[1..], t);
      NextElemReadsBack(elems, t);
    }
  }

  /** The text "[]" of an empty array. */
  lemma {:induction false} EmptyArrayReadsBack(t: string)
    ensures ReadsAs(Print(DArray([])), Value(DArray([])), t)
  {
    EmptyDocs();
    EmptyArray(t);
  }

  /** The empty array and the empty object: their text and their value. */
  lemma {:induction false} EmptyDocs()
    ensures Print(DArray([])) == "[]" && Value(DArray([])) == Tuple([])
    ensures Print(DObject([])) == "{}" && Value(DObject([])) == Object(KhctMap.MultiTypeMap([], [], []))
  {
    assert Values([]) == [];
    assert MemberTexts([]) == [];
  }

  /** The text of a non-empty array. */
  lemma {:induction false} ElemsArrayReadsBack(elems: seq<Doc>, t: string)
    requires elems != [] && forall i :: 0 <= i < |elems| ==> ReadsBack(elems[i])
    ensures ReadsAs(Print(DArray(elems)), Tuple(Values(elems)), t)
  {
    ArrayText(elems, t);
    ElemsReadBack(elems, t);
    ArrayOpen(Print(DArray(elems)), Joined(Prints(elems)) + ("]" + t), Values(elems), t);
  }

  lemma {:induction false} ArrayReadsBack(elems: seq<Doc>, t: string)
    requires forall i :: 0 <= i < |elems| ==> ReadsBack(elems[i])
    ensures ReadsAs(Print(DArray(elems)), Value(DArray(elems)), t)
  {
    if elems == [] {
      EmptyArrayReadsBack(t);
    } else {
      ElemsArrayReadsBack(elems, t);
    }
  }

  /** The first half of parse_object_value on a member's text: the key,
      the value, then the character after it. */
  lemma {:induction false} MemberReadsBack(key: string, p: string, v: Json, r: string)
    requires QuoteFree(key) && Follows(p + r) && Follows(r) && r != []
    requires ReadsAs(p, v, r)
    ensures ParseMember(Lit(['"'] + key + ['"'] + ([':'] + (p + r)))) ==
      Compiles(MemberParsed(Member(Text(Lit(key)), v), r[0], SkipOne(Lit(r))))
  {
    ParseJsonStringOf(key, [':'] + (p + r));
    StripLit([':'] + (p + r));
    SkipFirst(':', p + r);
    StripLit(r);
    MemberStep(Lit(['"'] + key + ['"'] + ([':'] + (p + r))), Text(Lit(key)), Lit([':'] + (p + r)), Lit(p + r), v, Lit(r));
  }

  // ---------------------------------------------------------------------
  // Objects of documents that read back

  /** The elements of the tuple parse_object_value gives for an object's
      members: each key's string and the member's value. */
  function MemberValues(members: seq<(string, Doc)>): (r: seq<Json>)
    ensures |r| == |members|
    decreases members
  {
    if members == [] then [] else [Member(Text(Lit(members[0].0)), Value(members[0].1))] + MemberValues(members[1..])
  }

  /** Every member's key is read back whole and its value reads back. */
  ghost predicate MembersReadBack(members: seq<(string, Doc)>) {
    forall i :: 0 <= i < |members| ==> QuoteFree(members[i].0) && '\0' !in members[i].0 && ReadsBack(members[i].1)
  }

  lemma {:induction false} MembersTail(members: seq<(string, Doc)>)
    requires members != [] && MembersReadBack(members)
    ensures MembersReadBack(members[1..])
  {
    assert forall i :: 0 <= i < |members| - 1 ==> members[1..][i] == members[i + 1];
  }

  lemma {:induction false} MemberTextsCons(members: seq<(string, Doc)>)
    requires members != []
    ensures MemberTexts(members)[0] == ['"'] + members[0].0 + ['"'] + ([':'] + Print(members[0].1))
    ensures MemberTexts(members)[1..] == MemberTexts(members[1..])
  {
    assert MemberTexts(members) == [['"'] + members[0].0 + ['"'] + ([':'] + Print(members[0].1))] + MemberTexts(members[1..]);
  }

  /** A member's text, and what follows it. */
  lemma {:induction false} MemberTextAssoc(key: string, p: string, r: string)
    ensures ['"'] + key + ['"'] + ([':'] + p) + r == ['"'] + key + ['"'] + ([':'] + (p + r))
  {
  }

  /** A document's text, and anything after it, starts as the document does. */
  lemma {:induction false} PrintFollows(d: Doc, r: string)
    ensures Follows(Print(d) + r)
  {
    assert (Print(d) + r)[0] == Print(d)[0];
  }

  /** The last member and the '}': the one-member tuple, with the text
      after the '}' stripped. */
  lemma {:induction false} LastMemberReadsBack(members: seq<(string, Doc)>, t: string)
    requires |members| == 1 && MembersReadBack(members) && Follows(t)
    ensures ParseObjectValue(Lit(Joined(MemberTexts(members)) + ("}" + t))) ==
      Compiles(Parsed(Tuple(MemberValues(members)), Lit(t)))
  {
    var key, d := members[0].0, members[0].1;
    MemberTextsCons(members);
    MemberTextAssoc(key, Print(d), "}" + t);
    ElemReadsBack(d, "}" + t);
    PrintFollows(d, "}" + t);
    MemberReadsBack(key, Print(d), Value(d), "}" + t);
    SkipFirst('}', t);
    assert MemberValues(members) == [Member(Text(Lit(key)), Value(d))] + [];
  }

  /** A member, ',' and the members after it. */
  lemma {:induction false} NextMemberReadsBack(members: seq<(string, Doc)>, t: string)
    requires |members| > 1 && MembersReadBack(members) && Follows(t)
    ensures ParseObjectValue(Lit(Joined(MemberTexts(members[1..])) + ("}" + t))) ==
            Compiles(Parsed(Tuple(MemberValues(members[1..])), Lit(t))) ==>
            ParseObjectValue(Lit(Joined(MemberTexts(members)) + ("}" + t))) ==
            Compiles(Parsed(Tuple(MemberValues(members)), Lit(t)))
  {
    var key, d := members[0].0, members[0].1;
    var after := Joined(MemberTexts(members[1..])) + ("}" + t);
    NextMemberText(members, t);
    ElemReadsBack(d, "," + after);
    PrintFollows(d, "," + after);
    MemberComma(key, Print(d), Value(d), after);
    ObjectNext(Lit(['"'] + key + ['"'] + ([':'] + (Print(d) + ("," + after)))), Member(Text(Lit(key)), Value(d)),
               Lit(after), MemberValues(members[1..]), Lit(t));
  }

  /** A member's text and ',': the member, with the text after the ','. */
  lemma {:induction false} MemberComma(key: string, p: string, v: Json, after: string)
    ensures QuoteFree(key) && Follows(after) && Follows(p + ("," + after)) && ReadsAs(p, v, "," + after) ==>
      ParseMember(Lit(['"'] + key + ['"'] + ([':'] + (p + ("," + after))))) ==
      Compiles(MemberParsed(Member(Text(Lit(key)), v), ',', Lit(after)))
  {
    if QuoteFree(key) && Follows(after) && Follows(p + ("," + after)) && ReadsAs(p, v, "," + after) {
      MemberReadsBack(key, p, v, "," + after);
      SkipFirst(',', after);
    }
  }

  /** The members' text split after the first member. */
  lemma {:induction false} NextMemberText(members: seq<(string, Doc)>, t: string)
    requires |members| > 1
    ensures Joined(MemberTexts(members)) + ("}" + t) ==
      ['"'] + members[0].0 + ['"'] + ([':'] + (Print(members[0].1) + ("," + (Joined(MemberTexts(members[1..])) + ("}" + t)))))
    ensures Follows(Joined(MemberTexts(members[1..])) + ("}" + t))
  {
    MemberTextsCons(members);
    JoinedSplit(MemberTexts(members), "}" + t);
    MemberTextAssoc(members[0].0, Print(members[0].1), "," + (Joined(MemberTexts(members[1..])) + ("}" + t)));
    MemberTextsCons(members[1..]);
    JoinedFollows(MemberTexts(members[1..]), "}" + t);
  }

  /** parse_object_value: a member, then ',' and the rest of the members. */
  lemma {:induction false} ObjectNext(s: CStr, m: Json, next: CStr, vs: seq<Json>, rest: CStr)
    ensures ParseMember(s) == Compiles(MemberParsed(m, ',', next)) &&
            ParseObjectValue(next) == Compiles(Parsed(Tuple(vs), rest)) ==>
            ParseObjectValue(s) == Compiles(Parsed(Tuple([m] + vs), rest))
  {
  }

  /** The members of an object and its '}': the tuple of the members. */
  lemma {:induction false} MembersReadBackAll(members: seq<(string, Doc)>, t: string)
    requires |members| > 0 && MembersReadBack(members) && Follows(t)
    ensures ParseObjectValue(Lit(Joined(MemberTexts(members)) + ("}" + t))) ==
      Compiles(Parsed(Tuple(MemberValues(members)), Lit(t)))
    decreases |members|
  {
    if |members| == 1 {
      LastMemberReadsBack(members, t);
    } else {
      MembersTail(members);
      MembersReadBackAll(members[1..], t);
      NextMemberReadsBack(members, t);
    }
  }

  /** The pairs make_multi_type_map receives are the members' keys and
      values: a key without '\0' is its own view. */
  lemma {:induction false} PairsOfMembers(members: seq<(string, Doc)>)
    requires forall i :: 0 <= i < |members| ==> '\0' !in members[i].0
    requires ObjectMembers(MemberValues(members))
    ensures ObjectPairs(MemberValues(members)) == Pairs(members)
    decreases |members|
  {
    if members != [] {
      var vs := MemberValues(members);
      assert vs == [vs[0]] + MemberValues(members[1..]);
      forall i | 0 <= i < |members| - 1
        ensures '\0' !in members[1..][i].0
      {
        assert members[1..][i] == members[i + 1];
      }
      assert ObjectMembers(MemberValues(members[1..])) by {
        assert forall i :: 0 <= i < |members| - 1 ==> MemberValues(members[1..])[i] == vs[i + 1];
      }
      PairsOfMembers(members[1..]);
      LitMeaning(members[0].0);
      var ps := ObjectPairs(vs);
      assert ps[0] == Pairs(members)[0];
      assert ps[1..] == ObjectPairs(MemberValues(members[1..])) by {
        assert forall i :: 0 <= i < |members| - 1 ==> vs[i + 1] == MemberValues(members[1..])[i];
      }
      assert Pairs(members) == [Pairs(members)[0]] + Pairs(members[1..]);
    }
  }

  /** The '{' branch of parse_json_value, on a non-empty object. */
  lemma {:induction false} ObjectOpen(text: string, inner: string, vs: seq<Json>, t: string)
    requires text + t == "{" + inner && Follows(inner) && Lit(inner)[0] != '}'
    requires ParseObjectValue(Lit(inner)) == Compiles(Parsed(Tuple(vs), Lit(t)))
    ensures ObjectMembers(vs) && ReadsAs(text, Object(KhctMap.Built(ObjectPairs(vs), LexLess)), t)
  {
    SkipFirst('{', inner);
  }

  /** The text of a non-empty object. */
  lemma {:induction false} ObjectText(members: seq<(string, Doc)>, t: string)
    requires members != []
    ensures Print(DObject(members)) + t == "{" + (Joined(MemberTexts(members)) + ("}" + t))
    ensures Follows(Joined(MemberTexts(members)) + ("}" + t)) && Lit(Joined(MemberTexts(members)) + ("}" + t))[0] != '}'
  {
    MemberTextsCons(members);
    JoinedFollows(MemberTexts(members), "}" + t);
  }

  lemma {:induction false} ObjectReadsBack(members: seq<(string, Doc)>, t: string)
    requires MembersReadBack(members) && Follows(t)
    ensures ReadsAs(Print(DObject(members)), Value(DObject(members)), t)
  {
    if members == [] {
      EmptyDocs();
      EmptyObject(t);
    } else {
      var inner := Joined(MemberTexts(members)) + ("}" + t);
      ObjectText(members, t);
      MembersReadBackAll(members, t);
      ObjectOpen(Print(DObject(members)), inner, MemberValues(members), t);
      PairsOfMembers(members);
    }
  }

  // ---------------------------------------------------------------------
  // The round trip

  /** parse_json_value reads a document's text back as the document's
      value, leaving what follows it. */
  lemma {:induction false} RoundTrip(d: Doc, t: string)
    requires Printable(d) && Follows(t)
    ensures ReadsAs(Print(d), Value(d), t)
    decreases d
  {
    match d
    case DTrue => KeywordTrue(t);
    case DFalse => KeywordFalse(t);
    case DNull => KeywordNull(t);
    case DText(body) => TextReadsBack(body, t);
    case DObject(members) =>
      forall i | 0 <= i < |members|
        ensures ReadsBack(members[i].1)
      {
        forall u | Follows(u)
          ensures ReadsAs(Print(members[i].1), Value(members[i].1), u)
        {
          RoundTrip(members[i].1, u);
        }
      }
      ObjectReadsBack(members, t);
    case DArray(elems) =>
      forall i | 0 <= i < |elems|
        ensures ReadsBack(elems[i])
      {
        forall u | Follows(u)
          ensures ReadsAs(Print(elems[i]), Value(elems[i]), u)
        {
          RoundTrip(elems[i], u);
        }
      }
      ArrayReadsBack(elems, t);
  }

  /** parse_json on a document's text alone gives its value. */
  lemma {:induction false} ParseJsonRoundTrip(d: Doc)
    requires Printable(d)
    ensures ParseJson(Lit(Print(d))) == Compiles(Value(d))
  {
    RoundTrip(d, []);
    TextAlone(Print(d), Value(d));
  }

  /** Text that reads as v with nothing after it is a whole document. */
  lemma {:induction false} TextAlone(text: string, v: Json)
    requires |text| > 0 && Opens(text[0]) && ReadsAs(text, v, [])
    ensures ParseJson(Lit(text)) == Compiles(v)
  {
    assert text + [] == text;
    ParseJsonOf(Lit(text), Parsed(v, Lit([])));
    StripEmpty();
  }
}
