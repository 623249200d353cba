/** The template JSON parser of src/json_schema2/json.hpp. Every step is a
    function template over a string<N> template argument that returns
    pair{value, rest}, where the value's C++ type depends on what was
    parsed: a multi_type_map, a tuple, a string, an unsigned or signed
    integer, a double, true_, false_, null, or one of the json_error
    constants (paired with string{""}). Here those types are the
    constructors of Json.

    Some inputs do not compile at all: a static_assert in a splice, a
    tuple_cat given an error constant instead of a tuple, or a negation
    that overflows during constant evaluation. Those are DoesNotCompile.

    Whether a value is an error is asked with is_json_error, which has an
    overload per error constant and a catch-all (...) overload returning
    false. At two places in parse_object_value it is asked of the whole
    pair rather than of its value, so the catch-all answers. A key or value
    error then travels on and surfaces as unexpected_input or
    unexpected_end_of_input. */
module KhctJson {
  import opened Basics
  import opened KhctString
  import opened KhctJsonNumber
  import KhctMap
  import KhctCommon
  import JsonParse

  /** The json_error constants. */
  datatype JsonError =
    | NumberTooLarge | RemainingInput | UnexpectedInput | InvalidDouble | InvalidString | UnexpectedEndOfInput

  /** A parsed value, by its C++ type. An object is a multi_type_map keyed
      by its key strings' views, which is all lex_comp and == look at. */
  datatype Json =
    | Object(entries: KhctMap.MultiTypeMap<string, Json>)
    | Tuple(elems: seq<Json>)
    | Member(key: Json, value: Json)
    | Text(text: CStr)
    | UInt(n: nat)
    | Int(i: int)
    | Double(source: CStr)
    | True
    | False
    | Null
    | Error(error: JsonError)

  /** is_json_error on a value: true exactly for the error constants. */
  predicate IsJsonError(v: Json) {
    v.Error?
  }

  /** The pair{value, rest} each step returns. */
  datatype Parsed = Parsed(value: Json, rest: CStr)

  /** A step that compiles, with its result, or one that does not. */
  datatype Eval<T> = Compiles(v: T) | DoesNotCompile

  /** pair{json_error::e, string{""}}. */
  function Fail(e: JsonError): Eval<Parsed> {
    Compiles(Parsed(Error(e), Lit("")))
  }

  predicate StartsWith(v: string, w: string) {
    |w| <= |v| && v[..|w|] == w
  }

  /** A view of a terminated string is shorter than its storage. */
  lemma {:induction false} ViewShorter(s: CStr)
    ensures |View(s)| < |s|
  {
    UpToNulMeaning(s);
  }

  /** Stripping string{""} leaves it as it is. */
  lemma {:induction false} StripEmpty()
    ensures StripLeadingWhitespace(Lit("")) == Lit("")
  {
  }

  /** So does stripping a string that starts with no whitespace. */
  lemma {:induction false} StripNone(s: CStr)
    requires !IsWhitespace(s[0])
    ensures StripLeadingWhitespace(s) == s
  {
    assert s[0..|s| - 1] + ['\0'] == s;
  }

  /** strip_leading_whitespace<splice<1, size()>(str)>(): the text after
      the character at the front, without its leading whitespace. */
  function SkipOne(s: Str): (r: CStr)
    requires |s| >= 2
    ensures |r| < |s|
  {
    StripLeadingWhitespace(Spliced(s, 1, |s| - 1))
  }

  // ---------------------------------------------------------------------
  // parse_json_string

  /** Index k of s ends a string: a '"' not preceded by a backslash. */
  predicate Closes(s: seq<char>, k: nat) {
    1 <= k < |s| && s[k] == '"' && s[k - 1] != '\\'
  }

  /** The first index from `from` on that ends a string, or N. */
  function ClosingQuote(s: seq<char>, from: nat): (k: nat)
    requires 1 <= from <= |s|
    ensures from <= k <= |s|
    ensures k < |s| ==> Closes(s, k)
    ensures forall j :: from <= j < k ==> !Closes(s, j)
    decreases |s| - from
  {
    if from == |s| then |s| else if Closes(s, from) then from else ClosingQuote(s, from + 1)
  }

  /** ClosingQuote is the first index that ends the string, or N. */
  lemma {:induction false} ClosingQuoteIs(s: seq<char>, from: nat, k: nat)
    requires 1 <= from <= k <= |s|
    requires k < |s| ==> Closes(s, k)
    requires forall j :: from <= j < k ==> !Closes(s, j)
    ensures ClosingQuote(s, from) == k
    decreases k - from
  {
    if from < k {
      ClosingQuoteIs(s, from + 1, k);
    }
  }

  /** The lambda computing str_end: step past the opening quote or the
      escaped quote, scan to the next '"' or the end, and stop unless that
      quote follows a backslash. Every round moves on, so it terminates. */
  method FindStringEnd(s: CStr) returns (loc: nat)
    requires s[0] == '"'
    ensures loc == ClosingQuote(s, 1)
  {
    loc := 0;
    while true
      invariant loc < |s|
      invariant forall j :: 1 <= j <= loc ==> !Closes(s, j)
      decreases |s| - loc
    {
      loc := loc + 1;
      while loc != |s| && s[loc] != '"'
        invariant 1 <= loc <= |s|
        invariant forall j :: 1 <= j < loc ==> !Closes(s, j)
        decreases |s| - loc
      {
        loc := loc + 1;
      }
      if loc == |s| || s[loc - 1] != '\\' {
        ClosingQuoteIs(s, 1, loc);
        return;
      }
    }
  }

  /** parse_json_string<Str>(): invalid_string without an opening quote or
      without a closing one; otherwise the characters between the quotes,
      escapes left as they are, and the rest after the closing quote. */
  function ParseJsonString(s: CStr): (r: Parsed)
    ensures |r.rest| <= |s|
    ensures r.value.Text? || r.value == Error(InvalidString)
    ensures r.value.Error? ==> r.rest == Lit("")
  {
    if s[0] != '"' then Parsed(Error(InvalidString), Lit(""))
    else
      var end := ClosingQuote(s, 1);
      if end == |s| then Parsed(Error(InvalidString), Lit(""))
      else Parsed(Text(Spliced(s, 1, end)), Spliced(s, end + 1, |s| - 1))
  }

  // ---------------------------------------------------------------------
  // Numbers

  /** The characters the number lookahead accepts. */
  predicate IsNumberChar(c: char) {
    c == '-' || c == '.' || c == 'e' || c == 'E' || c == '+' || JsonParse.IsDigit(c)
  }

  /** find_if_not over the number characters: the first other one, or N. */
  function NumberEnd(s: seq<char>): (k: nat)
    ensures k <= |s| && (k < |s| ==> !IsNumberChar(s[k]))
    ensures forall j :: 0 <= j < k ==> IsNumberChar(s[j])
  {
    if s == [] || !IsNumberChar(s[0]) then 0 else 1 + NumberEnd(s[1..])
  }

  /** The lookahead for a floating-point number. */
  predicate HasPeriodOrE(t: seq<char>) {
    '.' in t || 'e' in t || 'E' in t
  }

  /** The number branch of parse_json_value: the number's text runs to the
      first character that cannot be part of a number; with a '.', 'e' or
      'E' in it, the whole input goes to to_double; otherwise a leading
      '-' reads it with to_signed_num and anything else with
      to_unsigned_num bounded by 2^64 - 1, and failure is
      number_too_large. The rest starts after the number's text. */
  function ParseNumber(s: CStr): (r: Eval<Parsed>)
    ensures r.Compiles? ==> |r.v.rest| <= |s|
    ensures r.Compiles? && r.v.value.Error? ==> r.v.rest == Lit("")
  {
    var end := NumberEnd(s);
    var numStr := Spliced(s, 0, end);
    var retStr := Spliced(s, end, |s| - 1);
    if HasPeriodOrE(numStr) then Compiles(Parsed(Double(s), retStr))
    else if s[0] == '-' then
      match ToSignedNum(s)
      case Number(n) => Compiles(Parsed(Int(n), retStr))
      case NoNumber => Fail(NumberTooLarge)
      case NegationOverflows => DoesNotCompile
    else
      match ToUnsignedNum(s, UInt64Max)
      case Some(n) => Compiles(Parsed(UInt(n), retStr))
      case None => Fail(NumberTooLarge)
  }

  // ---------------------------------------------------------------------
  // parse_json_value, parse_array_value, parse_object_value

  /** An object's members: their keys are strings and their values are not
      errors. */
  ghost predicate ObjectMembers(elems: seq<Json>) {
    forall i :: 0 <= i < |elems| ==> elems[i].Member? && elems[i].key.Text? && !elems[i].value.Error?
  }

  lemma {:induction false} MembersCons(m: Json, elems: seq<Json>)
    requires m.Member? && m.key.Text? && !m.value.Error? && ObjectMembers(elems)
    ensures ObjectMembers([m] + elems)
  {
    assert forall i :: 1 <= i < |elems| + 1 ==> ([m] + elems)[i] == elems[i - 1];
  }

  /** The template arguments make_multi_type_map receives: each member's
      key (by its view) and value. */
  function ObjectPairs(elems: seq<Json>): (r: seq<KhctCommon.Pair<string, Json>>)
    requires ObjectMembers(elems)
    ensures |r| == |elems|
    ensures forall i :: 0 <= i < |elems| ==> r[i] == KhctCommon.Pair(View(elems[i].key.text), elems[i].value)
  {
    seq(|elems|, i requires 0 <= i < |elems| => KhctCommon.Pair(View(elems[i].key.text), elems[i].value))
  }

  /** parse_json_value<Str>(), on input whose leading whitespace is gone:
      the first character picks the kind of value. */
  function ParseValue(s: CStr): (r: Eval<Parsed>)
    ensures r.Compiles? ==> |r.v.rest| <= |s|
    ensures r.Compiles? && r.v.value.Error? ==> r.v.rest == Lit("")
    decreases |s|, 1
  {
    if s[0] == '{' then ParseObject(s)
    else if s[0] == '[' then ParseArray(s)
    else if IsNonzeroDigit(s[0]) || s[0] == '-' then ParseNumber(s)
    else if StartsWith(View(s), "true") then
      ViewShorter(s);
      Compiles(Parsed(True, Spliced(s, 4, |s| - 1)))
    else if StartsWith(View(s), "false") then
      ViewShorter(s);
      Compiles(Parsed(False, Spliced(s, 5, |s| - 1)))
    else if StartsWith(View(s), "null") then
      ViewShorter(s);
      Compiles(Parsed(Null, Spliced(s, 4, |s| - 1)))
    else if s[0] == '"' then Compiles(ParseJsonString(s))
    else Fail(UnexpectedInput)
  }

  /** The '{' branch: an empty multi_type_map for "{}", otherwise the
      members, an error among them passed on, or the multi_type_map that
      make_multi_type_map builds from them with lex_comp. */
  function ParseObject(s: CStr): (r: Eval<Parsed>)
    requires s[0] == '{'
    ensures r.Compiles? ==> |r.v.rest| <= |s|
    ensures r.Compiles? ==> r.v.value.Object? || r.v.value == Error(UnexpectedInput) || r.v.value == Error(UnexpectedEndOfInput)
    ensures r.Compiles? && r.v.value.Error? ==> r.v.rest == Lit("")
    decreases |s|, 0
  {
    var next := SkipOne(s);
    if next[0] == '}' then
      Compiles(Parsed(Object(KhctMap.MultiTypeMap([], [], [])), Spliced(next, 1, |next| - 1)))
    else
      match ParseObjectValue(next)
      case DoesNotCompile => DoesNotCompile
      case Compiles(tupleVal) =>
        if IsJsonError(tupleVal.value) then Compiles(tupleVal)
        else Compiles(Parsed(Object(KhctMap.Built(ObjectPairs(tupleVal.value.elems), LexLess)), tupleVal.rest))
  }

  /** The '[' branch: an empty tuple for "[]", otherwise the elements. */
  function ParseArray(s: CStr): (r: Eval<Parsed>)
    requires s[0] == '['
    ensures r.Compiles? ==> |r.v.rest| <= |s|
    ensures r.Compiles? ==> r.v.value.Tuple? || r.v.value == Error(UnexpectedInput)
    ensures r.Compiles? && r.v.value.Error? ==> r.v.rest == Lit("")
    decreases |s|, 0
  {
    var next := SkipOne(s);
    if next[0] == ']' then Compiles(Parsed(Tuple([]), Spliced(next, 1, |next| - 1)))
    else ParseArrayValue(next)
  }

  /** parse_array_value<ToParse>(): a value, then ']' closes the array and
      ',' continues it; an error in a later element is passed on, anything
      else after an element is unexpected_input. */
  function ParseArrayValue(s: CStr): (r: Eval<Parsed>)
    ensures r.Compiles? ==> |r.v.rest| <= |s|
    ensures r.Compiles? ==> r.v.value.Tuple? || r.v.value == Error(UnexpectedInput)
    ensures r.Compiles? && r.v.value.Tuple? ==> forall i :: 0 <= i < |r.v.value.elems| ==> !r.v.value.elems[i].Error?
    ensures r.Compiles? && r.v.value.Error? ==> r.v.rest == Lit("")
    decreases |s|, 2
  {
    match ParseValue(s)
    case DoesNotCompile => DoesNotCompile
    case Compiles(first) =>
      var rest := StripLeadingWhitespace(first.rest);
      if rest[0] == ']' then Compiles(Parsed(Tuple([first.value]), Spliced(rest, 1, |rest| - 1)))
      else if rest[0] == ',' then
        var parseNext := SkipOne(rest);
        match ParseArrayValue(parseNext)
        case DoesNotCompile => DoesNotCompile
        case Compiles(valueAndRest) =>
          if IsJsonError(valueAndRest.value) then Compiles(valueAndRest)
          else Compiles(Parsed(Tuple([first.value] + valueAndRest.value.elems), valueAndRest.rest))
      else Fail(UnexpectedInput)
  }

  /** One member of an object: the error it ends in, or the member, the
      character after it and the whitespace-stripped text after that. */
  datatype MemberStep = MemberError(error: JsonError) | MemberParsed(member: Json, indicator: char, next: CStr)

  /** The first half of parse_object_value<Str>(): a key string, ':' and a
      value. Neither the key nor the value result is checked for errors,
      since is_json_error is asked of the pair: a key error leaves the rest
      string{""}, where no ':' follows, and a value error leaves it too,
      where the indicator's size is 0. */
  function ParseMember(s: CStr): (r: Eval<MemberStep>)
    ensures r.Compiles? && r.v.MemberParsed? ==>
      |r.v.next| < |s| && r.v.member.Member? && r.v.member.key.Text? && !r.v.member.value.Error?
    ensures r.Compiles? && r.v.MemberError? ==>
      r.v.error == UnexpectedInput || r.v.error == UnexpectedEndOfInput
    decreases |s|, 0
  {
    StripEmpty();
    var name := ParseJsonString(s);
    var colonStart := StripLeadingWhitespace(name.rest);
    if colonStart[0] != ':' then Compiles(MemberError(UnexpectedInput))
    else
      var valueStart := SkipOne(colonStart);
      match ParseValue(valueStart)
      case DoesNotCompile => DoesNotCompile
      case Compiles(valueAndNext) =>
        var indicatorStart := StripLeadingWhitespace(valueAndNext.rest);
        if Size(indicatorStart) == 0 then Compiles(MemberError(UnexpectedEndOfInput))
        else
          var nextStr := SkipOne(indicatorStart);
          Compiles(MemberParsed(Member(name.value, valueAndNext.value), indicatorStart[0], nextStr))
  }

  /** parse_object_value<Str>(): after a member, '}' closes the object and
      ',' continues it; anything else is unexpected_input. An error in a
      later member reaches tuple_cat, which has no overload for it. */
  function ParseObjectValue(s: CStr): (r: Eval<Parsed>)
    ensures r.Compiles? ==> |r.v.rest| <= |s|
    ensures r.Compiles? ==>
      (r.v.value.Tuple? && ObjectMembers(r.v.value.elems)) ||
      r.v.value == Error(UnexpectedInput) || r.v.value == Error(UnexpectedEndOfInput)
    ensures r.Compiles? && r.v.value.Error? ==> r.v.rest == Lit("")
    decreases |s|, 1
  {
    match ParseMember(s)
    case DoesNotCompile => DoesNotCompile
    case Compiles(MemberError(e)) => Fail(e)
    case Compiles(MemberParsed(member, indicator, nextStr)) =>
      if indicator == '}' then
        MembersCons(member, []);
        Compiles(Parsed(Tuple([member] + []), nextStr))
      else if indicator == ',' then
        match ParseObjectValue(nextStr)
        case DoesNotCompile => DoesNotCompile
        case Compiles(nextVal) =>
          if nextVal.value.Tuple? then
            MembersCons(member, nextVal.value.elems);
            Compiles(Parsed(Tuple([member] + nextVal.value.elems), nextVal.rest))
          else DoesNotCompile
      else Fail(UnexpectedInput)
  }

  /** The first half of parse_object_value<Str>() as evidently intended:
      is_json_error asked of the key's and the value's `.first`, as
      parse_json_value asks it of an object's members, so each error is
      passed on as it is. */
  function ParseMemberChecked(s: CStr): (r: Eval<MemberStep>)
    ensures r.Compiles? && r.v.MemberParsed? ==>
      |r.v.next| < |s| && r.v.member.Member? && r.v.member.key.Text? && !r.v.member.value.Error?
  {
    StripEmpty();
    var name := ParseJsonString(s);
    if name.value.Error? then Compiles(MemberError(name.value.error))
    else
      var colonStart := StripLeadingWhitespace(name.rest);
      if colonStart[0] != ':' then Compiles(MemberError(UnexpectedInput))
      else
        var valueStart := SkipOne(colonStart);
        match ParseValue(valueStart)
        case DoesNotCompile => DoesNotCompile
        case Compiles(valueAndNext) =>
          if valueAndNext.value.Error? then Compiles(MemberError(valueAndNext.value.error))
          else
            var indicatorStart := StripLeadingWhitespace(valueAndNext.rest);
            if Size(indicatorStart) == 0 then Compiles(MemberError(UnexpectedEndOfInput))
            else
              var nextStr := SkipOne(indicatorStart);
              Compiles(MemberParsed(Member(name.value, valueAndNext.value), indicatorStart[0], nextStr))
  }

  /** parse_object_value<Str>() with the checked member, and an error in a
      later member passed on as parse_array_value passes one on, instead of
      reaching tuple_cat. */
  function ParseObjectValueChecked(s: CStr): (r: Eval<Parsed>)
    ensures r.Compiles? ==> |r.v.rest| <= |s|
    ensures r.Compiles? ==> (r.v.value.Tuple? && ObjectMembers(r.v.value.elems)) || r.v.value.Error?
    ensures r.Compiles? && r.v.value.Error? ==> r.v.rest == Lit("")
    decreases |s|
  {
    match ParseMemberChecked(s)
    case DoesNotCompile => DoesNotCompile
    case Compiles(MemberError(e)) => Fail(e)
    case Compiles(MemberParsed(member, indicator, nextStr)) =>
      if indicator == '}' then
        MembersCons(member, []);
        Compiles(Parsed(Tuple([member] + []), nextStr))
      else if indicator == ',' then
        match ParseObjectValueChecked(nextStr)
        case DoesNotCompile => DoesNotCompile
        case Compiles(nextVal) =>
          if nextVal.value.Tuple? then
            MembersCons(member, nextVal.value.elems);
            Compiles(Parsed(Tuple([member] + nextVal.value.elems), nextVal.rest))
          else Compiles(nextVal)
      else Fail(UnexpectedInput)
  }

  /** parse_json<Str>(): strip, parse one value, and give remaining_input
      when anything but whitespace follows it. */
  function ParseJson(s: CStr): Eval<Json> {
    match ParseValue(StripLeadingWhitespace(s))
    case DoesNotCompile => DoesNotCompile
    case Compiles(valueAndRest) =>
      if Empty(StripLeadingWhitespace(valueAndRest.rest)) then Compiles(valueAndRest.value)
      else Compiles(Error(RemainingInput))
  }

  // ---------------------------------------------------------------------
  // Properties

  /** A string body the parser reads back whole: every '"' in it follows a
      backslash, and it does not end with a backslash. */
  predicate QuoteFree(body: string) {
    (forall j :: 0 <= j < |body| && body[j] == '"' ==> 0 < j && body[j - 1] == '\\') &&
    (body == [] || body[|body| - 1] != '\\')
  }

  /** A quoted body, then anything: the body, escapes untouched, and the
      rest after the closing quote. */
  lemma {:induction false} ParseJsonStringOf(body: string, after: string)
    requires QuoteFree(body)
    ensures ParseJsonString(Lit(['"'] + body + ['"'] + after)) == Parsed(Text(Lit(body)), Lit(after))
  {
    var s := Lit(['"'] + body + ['"'] + after);
    var k := |body| + 1;
    assert forall j :: 1 <= j < k ==> s[j] == body[j - 1];
    assert s[k] == '"';
    forall j | 1 <= j < k
      ensures !Closes(s, j)
    {
      if s[j] == '"' {
        assert body[j - 1] == '"';
      }
    }
    ClosingQuoteIs(s, 1, k);
    assert s[1..k] == body;
    assert s[k + 1..|s| - 1] == after;
  }

  /** Conversely, a string that parses is its quoted body and the rest. */
  lemma {:induction false} ParseJsonStringText(s: CStr, t: CStr, rest: CStr)
    requires ParseJsonString(s) == Parsed(Text(t), rest)
    ensures QuoteFree(t[..|t| - 1])
    ensures s == ['"'] + t[..|t| - 1] + ['"'] + rest
  {
    var k := ClosingQuote(s, 1);
    assert t[..|t| - 1] == s[1..k];
    BodyQuoteFree(s, k);
    assert rest == s[k + 1..];
    Around(s, k);
  }

  lemma {:induction false} Around(s: seq<char>, k: nat)
    requires 1 <= k < |s|
    ensures s == [s[0]] + s[1..k] + [s[k]] + s[k + 1..]
  {
  }

  /** What lies between the quotes holds no quote that ends the string. */
  lemma {:induction false} BodyQuoteFree(s: CStr, k: nat)
    requires s[0] == '"' && k == ClosingQuote(s, 1) < |s|
    ensures QuoteFree(s[1..k])
  {
    var body := s[1..k];
    forall j | 0 <= j < |body| && body[j] == '"'
      ensures 0 < j && body[j - 1] == '\\'
    {
      assert !Closes(s, j + 1);
    }
  }

  /** invalid_string exactly when there is no opening quote or no closing
      one. */
  lemma {:induction false} ParseJsonStringFails(s: CStr)
    ensures ParseJsonString(s).value.Error? <==> s[0] != '"' || forall k :: 1 <= k < |s| ==> !Closes(s, k)
  {
    if s[0] == '"' && ClosingQuote(s, 1) < |s| {
      assert Closes(s, ClosingQuote(s, 1));
    }
  }

  /** An escaped quote stays in the string. */
  lemma {:induction false} EscapedQuote()
    ensures ParseJsonString(Lit("\"a\\\"b\" : 1")) == Parsed(Text(Lit("a\\\"b")), Lit(" : 1"))
  {
    var body := "a\\\"b";
    assert QuoteFree(body) by {
      assert forall j :: 0 <= j < |body| && body[j] == '"' ==> j == 2;
    }
    ParseJsonStringOf(body, " : 1");
    assert ['"'] + body + ['"'] + " : 1" == "\"a\\\"b\" : 1";
  }

  /** The characters parse_json_value dispatches on. */
  predicate StartsValue(c: char) {
    c == '{' || c == '[' || c == '-' || c == '"' || c == 't' || c == 'f' || c == 'n' || IsNonzeroDigit(c)
  }

  /** No keyword prefix without the keyword's first character. */
  lemma {:induction false} NoKeyword(s: CStr)
    requires !StartsValue(s[0])
    ensures !StartsWith(View(s), "true") && !StartsWith(View(s), "false") && !StartsWith(View(s), "null")
  {
    UpToNulMeaning(s);
  }

  /** A value starting with none of the characters that begin one is
      unexpected_input: among them a leading '0', '+' and '.'. */
  lemma {:induction false} UnexpectedStart(s: CStr)
    requires !StartsValue(s[0])
    ensures ParseValue(s) == Fail(UnexpectedInput)
  {
    NoKeyword(s);
  }

  /** true, false and null are matched as prefixes: whatever follows them is
      the rest. */
  lemma {:induction false} Keywords(t: string)
    ensures ParseValue(Lit("true" + t)) == Compiles(Parsed(True, Lit(t)))
    ensures ParseValue(Lit("false" + t)) == Compiles(Parsed(False, Lit(t)))
    ensures ParseValue(Lit("null" + t)) == Compiles(Parsed(Null, Lit(t)))
  {
    KeywordTrue(t);
    KeywordFalse(t);
    KeywordNull(t);
  }

  lemma {:induction false} KeywordTrue(t: string)
    ensures ParseValue(Lit("true" + t)) == Compiles(Parsed(True, Lit(t)))
  {
    KeywordPrefix("true", t);
  }

  lemma {:induction false} KeywordFalse(t: string)
    ensures ParseValue(Lit("false" + t)) == Compiles(Parsed(False, Lit(t)))
  {
    KeywordPrefix("false", t);
  }

  lemma {:induction false} KeywordNull(t: string)
    ensures ParseValue(Lit("null" + t)) == Compiles(Parsed(Null, Lit(t)))
  {
    KeywordPrefix("null", t);
  }

  lemma {:induction false} KeywordPrefix(w: string, t: string)
    requires '\0' !in w
    ensures StartsWith(View(Lit(w + t)), w)
    ensures Lit(w + t)[|w|..|Lit(w + t)| - 1] == t
  {
    var s := Lit(w + t);
    UpToNulMeaning(s);
    var r := UpToNul(s);
    assert forall i :: 0 <= i < |w| ==> s[i] == w[i];
    assert r[..|w|] == s[..|w|] == w;
  }

  /** A nonzero digit or a '-' starts a number. */
  lemma {:induction false} ParseValueNumber(s: CStr)
    requires IsNonzeroDigit(s[0]) || s[0] == '-'
    ensures ParseValue(s) == ParseNumber(s)
  {
  }

  /** The text of a number runs over the number characters. */
  function NumberText(s: CStr): seq<char> {
    s[..NumberEnd(s)]
  }

  /** A number without '.', 'e' or 'E', starting with a nonzero digit and
      below 2^64, is its decimal value; the digits end the conversion but the
      rest starts after all of the number characters. */
  lemma {:induction false} UnsignedNumber(s: CStr, d: nat)
    requires IsNonzeroDigit(s[0]) && !HasPeriodOrE(NumberText(s))
    requires d == JsonParse.DecimalValue(DigitPrefix(s)) < Two64
    ensures ParseNumber(s) == Compiles(Parsed(UInt(d), Spliced(s, NumberEnd(s), |s| - 1)))
  {
    UnsignedValue(s, d);
    UnsignedBranch(s, d);
  }

  lemma {:induction false} UnsignedValue(s: CStr, d: nat)
    requires IsNonzeroDigit(s[0]) && d == JsonParse.DecimalValue(DigitPrefix(s)) < Two64
    ensures ToUnsignedNum(s, UInt64Max) == Some(d)
  {
    assert DigitPrefix(s)[0] == s[0];
    ToUnsignedNumExact(s, UInt64Max);
  }

  /** The unsigned branch gives what to_unsigned_num gives. */
  lemma {:induction false} UnsignedBranch(s: CStr, n: nat)
    requires IsNonzeroDigit(s[0]) && !HasPeriodOrE(NumberText(s))
    requires ToUnsignedNum(s, UInt64Max) == Some(n)
    ensures ParseNumber(s) == Compiles(Parsed(UInt(n), Spliced(s, NumberEnd(s), |s| - 1)))
  {
    NumberTextSpliced(s);
  }

  /** The splice adds only the terminator to the number's text. */
  lemma {:induction false} NumberTextSpliced(s: CStr)
    ensures HasPeriodOrE(Spliced(s, 0, NumberEnd(s))) == HasPeriodOrE(NumberText(s))
  {
    assert Spliced(s, 0, NumberEnd(s)) == NumberText(s) + ['\0'];
  }

  /** After a '-', digits below 2^63 give their negation, 2^63 does not
      compile, and larger values below 2^64 are number_too_large. */
  lemma {:induction false} NegativeNumber(s: CStr, d: nat)
    requires s[0] == '-' && !HasPeriodOrE(NumberText(s))
    requires DigitPrefix(s[1..]) != [] && d == JsonParse.DecimalValue(DigitPrefix(s[1..])) < Two64
    ensures d < Two63 ==> ToSignedNum(s) == Number(-(d as int))
    ensures d < Two63 ==>
      ParseNumber(s) == Compiles(Parsed(Int(ToSignedNum(s).n), Spliced(s, NumberEnd(s), |s| - 1)))
    ensures d == Two63 ==> ParseNumber(s) == DoesNotCompile
    ensures d > Two63 ==> ParseNumber(s) == Fail(NumberTooLarge)
  {
    ToSignedNumMeaning(s, d);
    SignedBranch(s, ToSignedNum(s));
  }

  /** The signed branch gives what to_signed_num gives, number_too_large
      for nothing, and does not compile when the negation overflows. */
  lemma {:induction false} SignedBranch(s: CStr, r: Signed)
    requires s[0] == '-' && !HasPeriodOrE(NumberText(s))
    requires r == ToSignedNum(s)
    ensures ParseNumber(s) == match r
      case Number(n) => Compiles(Parsed(Int(n), Spliced(s, NumberEnd(s), |s| - 1)))
      case NoNumber => Fail(NumberTooLarge)
      case NegationOverflows => DoesNotCompile
  {
    NumberTextSpliced(s);
  }

  /** A '-' without digits after it is number_too_large. */
  lemma {:induction false} MinusWithoutDigits(s: CStr)
    requires s[0] == '-' && !JsonParse.IsDigit(s[1])
    requires !HasPeriodOrE(NumberText(s))
    ensures ParseNumber(s) == Fail(NumberTooLarge)
  {
    NumberTextSpliced(s);
    var noMinus := Spliced(s, 1, |s| - 1);
    assert noMinus[0] == s[1];
  }

  /** With a '.', 'e' or 'E' in the number's text, the whole input goes to
      the floating-point conversion. */
  lemma {:induction false} FloatingNumber(s: CStr)
    requires HasPeriodOrE(NumberText(s))
    ensures ParseNumber(s) == Compiles(Parsed(Double(s), Spliced(s, NumberEnd(s), |s| - 1)))
  {
    NumberTextSpliced(s);
  }

  /** A key that is not a string is reported as unexpected_input, not
      invalid_string: the error pair goes on to the ':' check. */
  lemma {:induction false} KeyErrorMasked(s: CStr)
    requires ParseJsonString(s).value.Error?
    ensures ParseObjectValue(s) == Fail(UnexpectedInput)
  {
  }

  /** A value error inside an object is reported as
      unexpected_end_of_input: the error pair goes on, and its rest
      string{""} has no indicator character. */
  lemma {:induction false} ValueErrorMasked(body: string, v: string)
    requires QuoteFree(body) && !IsWhitespace(Lit(v)[0])
    requires ParseValue(Lit(v)).Compiles? && ParseValue(Lit(v)).v.value.Error?
    ensures ParseObjectValue(Lit(['"'] + body + ['"'] + [':'] + v)) == Fail(UnexpectedEndOfInput)
  {
    var s := Lit(['"'] + body + ['"'] + [':'] + v);
    assert ['"'] + body + ['"'] + [':'] + v == ['"'] + body + ['"'] + ([':'] + v);
    ParseJsonStringOf(body, [':'] + v);
    MemberValueError(s, v);
  }

  /** After a key and a ':', a value error ends the member with
      unexpected_end_of_input. */
  lemma {:induction false} MemberValueError(s: CStr, v: string)
    requires ParseJsonString(s).rest == Lit([':'] + v) && !IsWhitespace(Lit(v)[0])
    requires ParseValue(Lit(v)).Compiles? && ParseValue(Lit(v)).v.value.Error?
    ensures ParseMember(s) == Compiles(MemberError(UnexpectedEndOfInput))
  {
    var colonStart := Lit([':'] + v);
    StripNone(colonStart);
    assert Spliced(colonStart, 1, |colonStart| - 1) == Lit(v);
    StripNone(Lit(v));
    assert SkipOne(colonStart) == Lit(v);
    StripEmpty();
  }

  /** With the checked member, a key that is not a string is reported as
      invalid_string. */
  lemma {:induction false} KeyErrorReported(s: CStr)
    requires ParseJsonString(s).value.Error?
    ensures ParseObjectValueChecked(s) == Fail(InvalidString)
  {
  }

  /** With the checked member, a value error inside an object is reported
      as the value's own error. */
  lemma {:induction false} ValueErrorReported(body: string, v: string)
    requires QuoteFree(body) && !IsWhitespace(Lit(v)[0])
    requires ParseValue(Lit(v)).Compiles? && ParseValue(Lit(v)).v.value.Error?
    ensures ParseObjectValueChecked(Lit(['"'] + body + ['"'] + [':'] + v)) == ParseValue(Lit(v))
  {
    var s := Lit(['"'] + body + ['"'] + [':'] + v);
    assert ['"'] + body + ['"'] + [':'] + v == ['"'] + body + ['"'] + ([':'] + v);
    ParseJsonStringOf(body, [':'] + v);
    MemberValueErrorChecked(s, v);
  }

  /** After a key and a ':', the checked member ends in the value's error. */
  lemma {:induction false} MemberValueErrorChecked(s: CStr, v: string)
    requires ParseJsonString(s).rest == Lit([':'] + v) && !IsWhitespace(Lit(v)[0])
    requires ParseJsonString(s).value.Text?
    requires ParseValue(Lit(v)).Compiles? && ParseValue(Lit(v)).v.value.Error?
    ensures ParseMemberChecked(s) == Compiles(MemberError(ParseValue(Lit(v)).v.value.error))
  {
    var colonStart := Lit([':'] + v);
    StripNone(colonStart);
    assert Spliced(colonStart, 1, |colonStart| - 1) == Lit(v);
    StripNone(Lit(v));
    assert SkipOne(colonStart) == Lit(v);
  }

  /** Where parse_object_value yields members, the checked one yields the
      same members and the same rest. */
  lemma {:induction false} CheckedMembersAgree(s: CStr)
    requires ParseObjectValue(s).Compiles? && ParseObjectValue(s).v.value.Tuple?
    ensures ParseObjectValueChecked(s) == ParseObjectValue(s)
    decreases |s|
  {
    assert ParseMemberChecked(s) == ParseMember(s);
    match ParseMember(s)
    case Compiles(MemberParsed(member, indicator, nextStr)) =>
      if indicator == ',' {
        CheckedMembersAgree(nextStr);
      }
  }

  // ---------------------------------------------------------------------
  // Whole documents

  /** One space before a non-blank string is stripped. */
  lemma {:induction false} StripSpace(t: string)
    requires t != [] && !IsWhitespace(t[0])
    ensures StripLeadingWhitespace(Lit(" " + t)) == Lit(t)
  {
    var s := Lit(" " + t);
    assert s[1..] == Lit(t);
    assert FindNonWs(s) == 1 + FindNonWs(s[1..]);
    assert s[1..|s| - 1] == t;
  }

  /** parse_json on input with no leading whitespace: the value, or
      remaining_input when anything but whitespace follows it. */
  lemma {:induction false} ParseJsonOf(s: CStr, p: Parsed)
    requires !IsWhitespace(s[0]) && ParseValue(s) == Compiles(p)
    ensures ParseJson(s) == Compiles(if Empty(StripLeadingWhitespace(p.rest)) then p.value else Error(RemainingInput))
  {
    StripNone(s);
  }

  /** "{}" and "[]" are the empty map and the empty tuple. */
  lemma {:induction false} EmptyContainers(t: string)
    ensures ParseValue(Lit("{}" + t)) == Compiles(Parsed(Object(KhctMap.MultiTypeMap([], [], [])), Lit(t)))
    ensures ParseValue(Lit("[]" + t)) == Compiles(Parsed(Tuple([]), Lit(t)))
  {
    EmptyObject(t);
    EmptyArray(t);
  }

  lemma {:induction false} EmptyObject(t: string)
    ensures ParseValue(Lit("{}" + t)) == Compiles(Parsed(Object(KhctMap.MultiTypeMap([], [], [])), Lit(t)))
  {
    var s := Lit("{}" + t);
    assert Spliced(s, 1, |s| - 1) == Lit("}" + t);
    StripNone(Lit("}" + t));
    assert Spliced(Lit("}" + t), 1, |t| + 1) == Lit(t);
  }

  lemma {:induction false} EmptyArray(t: string)
    ensures ParseValue(Lit("[]" + t)) == Compiles(Parsed(Tuple([]), Lit(t)))
  {
    var s := Lit("[]" + t);
    assert Spliced(s, 1, |s| - 1) == Lit("]" + t);
    StripNone(Lit("]" + t));
    assert Spliced(Lit("]" + t), 1, |t| + 1) == Lit(t);
  }
}
