/** The first compile-time JSON parser (src/json_parse.hpp): recursive
    descent over a string view, producing a tree of 64-bit integers, string
    views, ordered key/value lists and arrays.

    Each parsing routine of the source is a method with the source's loops;
    each method is proved equal to a specification function, and the
    properties of the parser are lemmas about those functions. Every way the
    source stops compile-time evaluation (a throw, front() of an empty view,
    a loop that never ends) is an error value here. */
module JsonParse {
  import opened Basics

  /** json_value: the int64 / string view / pair list / array alternatives. */
  datatype JsonValue =
    | JInt(i: int)
    | JStr(s: string)
    | JObj(pairs: seq<(string, JsonValue)>)
    | JArr(elems: seq<JsonValue>)

  /** Why evaluation stops. The first nine are the source's exception messages. */
  datatype ParseError =
    | UnterminatedString        // "unterminated string"
    | NumberParseError          // "number parse error"
    | ExpectedKey               // "expected string for JSON key"
    | ExpectedColon             // "expected colon after JSON key"
    | UnexpectedAfterDictValue  // "unexpected token after dict value"
    | UnexpectedAfterArrayValue // "unexpected token after array value"
    | UnexpectedToken           // "unexpected token"
    | UnexpectedData            // "unexpected data after end of JSON object"
    | NoMatchingKey             // "no matching key found"
    | FrontOfEmpty              // front() of an empty view: not a constant expression
    | Diverges                  // parse_json_str's loop never ends

  datatype Result<+T> = Ok(value: T) | Fail(error: ParseError)

  const I64Min: int := -0x8000_0000_0000_0000
  const I64Max: int := 0x7FFF_FFFF_FFFF_FFFF

  /** The characters one_of<' ', '\f', '\n', '\r', '\t', '\v'> accepts. */
  const WsChars: seq<char> := [' ', '\U{000C}', '\n', '\r', '\t', '\U{000B}']

  predicate IsDigit(c: char) {
    '0' <= c <= '9'
  }

  // ---------------------------------------------------------------------
  // one_of and strip_leading_whitespace

  /** one_of<Values...> compared with c: the disjunction of c == Value. */
  function OneOf(c: char, values: seq<char>): (r: bool)
    ensures r <==> c in values
  {
    if values == [] then false else c == values[0] || OneOf(c, values[1..])
  }

  /** The suffix of v that starts at its first non-whitespace character. */
  function StripWs(v: string): (r: string)
    ensures |r| <= |v|
  {
    if |v| > 0 && IsWhitespace(v[0]) then StripWs(v[1..]) else v
  }

  method StripLeadingWhitespace(v: string) returns (r: string)
    ensures r == StripWs(v)
  {
    var index := 0;
    while index < |v| && OneOf(v[index], WsChars)
      invariant 0 <= index <= |v|
      invariant StripWs(v[index..]) == StripWs(v)
    {
      StripWsStep(v, index);
      index := index + 1;
    }
    r := v[index..];
  }

  lemma {:induction false} StripWsStep(v: string, index: nat)
    requires index < |v| && IsWhitespace(v[index])
    ensures StripWs(v[index..]) == StripWs(v[index + 1..])
  {
    assert v[index..][1..] == v[index + 1..];
  }

  /** What strip_leading_whitespace promises: only whitespace is removed,
      and what is left is empty or starts with a non-whitespace character. */
  lemma {:induction false} StripWsMeaning(v: string)
    ensures var r := StripWs(v);
      && r == v[|v| - |r|..]
      && (forall i :: 0 <= i < |v| - |r| ==> IsWhitespace(v[i]))
      && (r == [] || !IsWhitespace(r[0]))
  {
    if |v| > 0 && IsWhitespace(v[0]) {
      StripWsMeaning(v[1..]);
      var r := StripWs(v);
      forall i | 0 < i < |v| - |r|
        ensures IsWhitespace(v[i])
      {
        assert v[i] == v[1..][i - 1];
      }
    }
  }

  lemma {:induction false} StripWsIdempotent(v: string)
    ensures StripWs(StripWs(v)) == StripWs(v)
  {
    StripWsMeaning(v);
  }

  // ---------------------------------------------------------------------
  // get_by_key

  /** The value of the first pair whose key is key. */
  function Lookup<V>(vals: seq<(string, V)>, key: string): (r: Option<V>)
  {
    if vals == [] then None
    else if vals[0].0 == key then Some(vals[0].1)
    else Lookup(vals[1..], key)
  }

  /** Lookup finds the first pair with that key, and only misses when no pair has it. */
  lemma {:induction false} LookupFirstMatch<V>(vals: seq<(string, V)>, key: string)
    ensures Lookup(vals, key).None? <==> forall i :: 0 <= i < |vals| ==> vals[i].0 != key
    ensures Lookup(vals, key).Some? ==>
      exists i :: 0 <= i < |vals| && vals[i].0 == key && Lookup(vals, key).value == vals[i].1
        && forall j :: 0 <= j < i ==> vals[j].0 != key
  {
    if vals != [] && vals[0].0 != key {
      LookupFirstMatch(vals[1..], key);
      if Lookup(vals, key).Some? {
        var i :| 0 <= i < |vals[1..]| && vals[1..][i].0 == key && Lookup(vals, key).value == vals[1..][i].1
          && forall j :: 0 <= j < i ==> vals[1..][j].0 != key;
        assert vals[i + 1].0 == key;
        forall j | 0 <= j < i + 1
          ensures vals[j].0 != key
        {
          if j > 0 {
            assert vals[j] == vals[1..][j - 1];
          }
        }
      }
      forall i | 0 <= i < |vals| && vals[i].0 == key
        ensures Lookup(vals, key).Some?
      {
        assert vals[1..][i - 1] == vals[i];
      }
    }
    if vals != [] && vals[0].0 == key {
      assert vals[0].0 == key;
    }
  }

  /** get_by_key: scans the pairs in order and returns the first match. */
  method GetByKey<V>(vals: seq<(string, V)>, key: string) returns (r: Result<V>)
    ensures r == if Lookup(vals, key).Some? then Ok(Lookup(vals, key).value) else Fail(NoMatchingKey)
  {
    var i := 0;
    while i < |vals|
      invariant 0 <= i <= |vals|
      invariant Lookup(vals[i..], key) == Lookup(vals, key)
    {
      if vals[i].0 == key {
        return Ok(vals[i].1);
      }
      assert vals[i..][1..] == vals[i + 1..];
      i := i + 1;
    }
    return Fail(NoMatchingKey);
  }

  // ---------------------------------------------------------------------
  // parse_json_str

  /** string_view::find('"', from): the first quote at or after from. */
  function FindQuote(v: string, from: nat): (r: Option<nat>)
    ensures r.Some? ==> from <= r.value < |v| && v[r.value] == '"'
    ensures r.Some? ==> forall i :: from <= i < r.value ==> v[i] != '"'
    ensures r.None? ==> forall i :: from <= i < |v| ==> v[i] != '"'
    decreases |v| - from
  {
    if from >= |v| then None
    else if v[from] == '"' then Some(from)
    else FindQuote(v, from + 1)
  }

  /** What parse_json_str does: the first quote after position 0 ends the
      string, unless a backslash precedes it, in which case the loop spins
      on that same quote for ever. Escapes are not decoded. */
  function ParseStr(v: string): (r: Result<(string, string)>)
    ensures r.Ok? ==> |r.value.1| < |v|
  {
    match FindQuote(v, 1)
    case None => Fail(UnterminatedString)
    case Some(k) =>
      if v[k - 1] == '\\' then Fail(Diverges) else Ok((v[1..k], v[k + 1..]))
  }

  /** parse_json_str's loop, run until its state repeats. */
  method ParseJsonStr(v: string) returns (r: Result<(string, string)>)
    ensures r == ParseStr(v)
  {
    var rest := 1;
    while true
      invariant 1 <= rest
      invariant rest > 1 ==> FindQuote(v, 1) == Some(rest) && v[rest - 1] == '\\'
      decreases |v| - rest
    {
      var next := FindQuote(v, rest);
      if next.None? {
        return Fail(UnterminatedString);
      }
      if v[next.value - 1] != '\\' {
        rest := next.value;
        break;
      }
      if next.value == rest {
        // The next round would find this same quote again: the loop never ends.
        return Fail(Diverges);
      }
      rest := next.value;
    }
    return Ok((v[1..rest], v[rest + 1..]));
  }

  /** A string that parses is the text up to the first quote, which no backslash precedes. */
  lemma {:induction false} ParseStrOk(v: string)
    requires ParseStr(v).Ok?
    ensures var (key, rest) := ParseStr(v).value;
      && |v| == |key| + |rest| + 2
      && v[1..|key| + 1] == key && v[|key| + 1] == '"' && v[|key| + 2..] == rest
      && '"' !in key
      && v[|key|] != '\\'
  {
    var k := FindQuote(v, 1).value;
    assert forall i :: 1 <= i < k ==> v[i] != '"';
  }

  /** A quote preceded by a backslash before any other quote: parse_json_str never returns. */
  lemma {:induction false} ParseStrEscapedQuoteDiverges(prefix: string, tail: string)
    requires '"' !in prefix
    ensures ParseStr(['"'] + prefix + ['\\', '"'] + tail) == Fail(Diverges)
  {
    var v := ['"'] + prefix + ['\\', '"'] + tail;
    var k := |prefix| + 2;
    assert v[k] == '"' && v[k - 1] == '\\';
    assert forall i :: 1 <= i < k ==> v[i] != '"' by {
      forall i | 1 <= i < k - 1 ensures v[i] != '"' {
        assert v[i] == prefix[i - 1];
      }
    }
    assert FindQuote(v, 1) == Some(k) by {
      FindQuoteFirst(v, 1, k);
    }
  }

  lemma {:induction false} FindQuoteFirst(v: string, from: nat, k: nat)
    requires from <= k < |v| && v[k] == '"'
    requires forall i :: from <= i < k ==> v[i] != '"'
    ensures FindQuote(v, from) == Some(k)
    decreases k - from
  {
    if from < k {
      FindQuoteFirst(v, from + 1, k);
    }
  }

  // ---------------------------------------------------------------------
  // parse_json_str with the search resumed after an escaped quote

  /** A quote at k that ends a string: no backslash right before it. */
  predicate EndsString(v: string, k: nat)
    requires 1 <= k < |v|
  {
    v[k] == '"' && v[k - 1] != '\\'
  }

  /** The first quote from `from` on that no backslash precedes, found by
      resuming find('"') one past each escaped quote. */
  function ClosingQuote(v: string, from: nat): (r: Option<nat>)
    requires 1 <= from
    ensures r.Some? ==> from <= r.value < |v| && EndsString(v, r.value)
    ensures r.Some? ==> forall i :: from <= i < r.value ==> !EndsString(v, i)
    ensures r.None? ==> forall i :: from <= i < |v| ==> !EndsString(v, i)
    decreases |v| - from
  {
    match FindQuote(v, from)
    case None => None
    case Some(k) => if v[k - 1] != '\\' then Some(k) else ClosingQuote(v, k + 1)
  }

  /** parse_json_str as evidently intended: `rest = next + 1` after an
      escaped quote, so the search moves on. It always ends, with the text
      up to the first quote no backslash precedes, or "unterminated string". */
  function ParseStrResumed(v: string): (r: Result<(string, string)>)
    ensures r != Fail(Diverges)
    ensures r.Fail? <==> forall i :: 1 <= i < |v| ==> !EndsString(v, i)
    ensures r.Ok? ==> var (key, rest) := r.value;
      && v == v[..1] + key + ['"'] + rest
      && EndsString(v, |key| + 1)
      && forall i :: 1 <= i <= |key| ==> !EndsString(v, i)
  {
    match ClosingQuote(v, 1)
    case None => Fail(UnterminatedString)
    case Some(k) =>
      assert v == v[..1] + v[1..k] + [v[k]] + v[k + 1..];
      Ok((v[1..k], v[k + 1..]))
  }

  /** The corrected loop: the state advances past every escaped quote, so
      it needs no divergence check. */
  method ParseJsonStrResumed(v: string) returns (r: Result<(string, string)>)
    ensures r == ParseStrResumed(v)
  {
    var rest := 1;
    while true
      invariant 1 <= rest
      invariant ClosingQuote(v, rest) == ClosingQuote(v, 1)
      decreases |v| - rest
    {
      var next := FindQuote(v, rest);
      if next.None? {
        return Fail(UnterminatedString);
      }
      if v[next.value - 1] != '\\' {
        rest := next.value;
        break;
      }
      rest := next.value + 1;
    }
    return Ok((v[1..rest], v[rest + 1..]));
  }

  /** Where parse_json_str ends, the corrected one gives the same result. */
  lemma {:induction false} ParseStrResumedAgrees(v: string)
    requires ParseStr(v) != Fail(Diverges)
    ensures ParseStrResumed(v) == ParseStr(v)
  {
  }

  /** The document that makes parse_json_str spin reads as one string. */
  lemma {:induction false} EscapedQuoteResumed()
    ensures ParseStrResumed("\"a\\\"b\"") == Ok(("a\\\"b", ""))
  {
    var v := "\"a\\\"b\"";
    assert FindQuote(v, 1) == Some(3) by {
      FindQuoteFirst(v, 1, 3);
    }
    assert FindQuote(v, 4) == Some(5) by {
      FindQuoteFirst(v, 4, 5);
    }
    assert v[2] == '\\' && v[4] == 'b';
    assert ClosingQuote(v, 4) == Some(5);
    assert ClosingQuote(v, 1) == Some(5);
    assert v[1..5] == "a\\\"b";
    assert v[6..] == "";
  }

  // ---------------------------------------------------------------------
  // Numbers: std::from_chars into std::int64_t

  /** The length of the run of decimal digits starting at from. */
  function DigitRun(v: string, from: nat): (n: nat)
    requires from <= |v|
    ensures from + n <= |v|
    ensures forall i :: from <= i < from + n ==> IsDigit(v[i])
    ensures from + n == |v| || !IsDigit(v[from + n])
    decreases |v| - from
  {
    if from < |v| && IsDigit(v[from]) then 1 + DigitRun(v, from + 1) else 0
  }

  function DecimalValue(s: string): nat
    requires forall i :: 0 <= i < |s| ==> IsDigit(s[i])
  {
    if s == [] then 0 else DecimalValue(s[..|s| - 1]) * 10 + DigitValue(s[|s| - 1])
  }

  function DigitValue(c: char): nat
    requires IsDigit(c)
  {
    c as int - '0' as int
  }

  /** from_chars for int64: an optional '-', then at least one digit; a value
      outside the int64 range is an error; the rest starts after the digits. */
  function FromChars(v: string): (r: Result<(int, string)>)
    ensures r.Ok? ==> I64Min <= r.value.0 <= I64Max && |r.value.1| < |v|
  {
    var start := if |v| > 0 && v[0] == '-' then 1 else 0;
    var n := DigitRun(v, start);
    if n == 0 then Fail(NumberParseError)
    else
      var magnitude: int := DecimalValue(v[start..start + n]);
      var value: int := if start == 1 then -magnitude else magnitude;
      if value < I64Min || value > I64Max then Fail(NumberParseError)
      else Ok((value, v[start + n..]))
  }

  // ---------------------------------------------------------------------
  // parse_json_value: the specification

  /** parse_json_value on a view whose leading whitespace is already gone:
      the first character picks the production. */
  function ParseValue(v: string): (r: Result<(JsonValue, string)>)
    ensures r.Ok? ==> |r.value.1| < |v|
    decreases |v|, 1
  {
    if |v| == 0 then Fail(FrontOfEmpty)
    else if v[0] == '-' || IsDigit(v[0]) then NumberValue(v)
    else if v[0] == '"' then StringValue(v)
    else if v[0] == '{' then ObjectValue(v)
    else if v[0] == '[' then ArrayLoop(StripWs(v[1..]), [])
    else Fail(UnexpectedToken)
  }

  function NumberValue(v: string): (r: Result<(JsonValue, string)>)
    ensures r.Ok? ==> |r.value.1| < |v|
  {
    match FromChars(v)
    case Fail(e) => Fail(e)
    case Ok((i, rest)) => Ok((JInt(i), rest))
  }

  function StringValue(v: string): (r: Result<(JsonValue, string)>)
    ensures r.Ok? ==> |r.value.1| < |v|
  {
    match ParseStr(v)
    case Fail(e) => Fail(e)
    case Ok((s, rest)) => Ok((JStr(s), rest))
  }

  /** After `{`: the first key must start with a quote. */
  function ObjectValue(v: string): (r: Result<(JsonValue, string)>)
    requires |v| > 0
    ensures r.Ok? ==> |r.value.1| < |v|
    decreases |v|, 0
  {
    var next := StripWs(v[1..]);
    if |next| == 0 then Fail(FrontOfEmpty)
    else if next[0] != '"' then Fail(ExpectedKey)
    else ObjectLoop(next, [])
  }

  /** One round of the object loop, from the key view nextKey, with the
      pairs vals already collected. */
  function ObjectLoop(nextKey: string, vals: seq<(string, JsonValue)>): (r: Result<(JsonValue, string)>)
    ensures r.Ok? ==> |r.value.1| < |nextKey|
    decreases |nextKey|, 1
  {
    match ParseStr(nextKey)
    case Fail(e) => Fail(e)
    case Ok((key, rest)) => ObjectEntry(key, rest, vals)
  }

  /** The colon and the value after a key. */
  function ObjectEntry(key: string, rest: string, vals: seq<(string, JsonValue)>): (r: Result<(JsonValue, string)>)
    ensures r.Ok? ==> |r.value.1| < |rest|
    decreases |rest|, 0
  {
    var colonNext := StripWs(rest);
    if |colonNext| == 0 then Fail(FrontOfEmpty)
    else if colonNext[0] != ':' then Fail(ExpectedColon)
    else
      match ParseValue(StripWs(colonNext[1..]))
      case Fail(e) => Fail(e)
      case Ok((value, endValueStr)) => ObjectNext(vals + [(key, value)], StripWs(endValueStr))
  }

  /** What may follow a value inside an object: `}` ends it, `,` starts the next key. */
  function ObjectNext(vals: seq<(string, JsonValue)>, end: string): (r: Result<(JsonValue, string)>)
    ensures r.Ok? ==> |r.value.1| < |end|
    decreases |end|, 0
  {
    if |end| == 0 then Fail(FrontOfEmpty)
    else if end[0] == '}' then Ok((JObj(vals), end[1..]))
    else if end[0] == ',' then ObjectLoop(StripWs(end[1..]), vals)
    else Fail(UnexpectedAfterDictValue)
  }

  /** One round of the array loop, from nextVal with the elements vals already collected. */
  function ArrayLoop(nextVal: string, vals: seq<JsonValue>): (r: Result<(JsonValue, string)>)
    ensures r.Ok? ==> |r.value.1| < |nextVal|
    decreases |nextVal|, 2
  {
    match ParseValue(nextVal)
    case Fail(e) => Fail(e)
    case Ok((value, endVal)) => ArrayNext(vals + [value], StripWs(endVal))
  }

  /** What may follow an element: `]` ends the array, `,` starts the next element. */
  function ArrayNext(vals: seq<JsonValue>, end: string): (r: Result<(JsonValue, string)>)
    ensures r.Ok? ==> |r.value.1| < |end|
    decreases |end|, 0
  {
    if |end| == 0 then Fail(FrontOfEmpty)
    else if end[0] == ']' then Ok((JArr(vals), end[1..]))
    else if end[0] == ',' then ArrayLoop(StripWs(end[1..]), vals)
    else Fail(UnexpectedAfterArrayValue)
  }

  /** parse_json: one value, then nothing but whitespace. */
  function Parse(v: string): (r: Result<JsonValue>)
  {
    match ParseValue(StripWs(v))
    case Fail(e) => Fail(e)
    case Ok((value, rest)) => if StripWs(rest) != [] then Fail(UnexpectedData) else Ok(value)
  }

  // ---------------------------------------------------------------------
  // parse_json_value and parse_json: the source's loops

  method ParseJsonValue(v: string) returns (r: Result<(JsonValue, string)>)
    ensures r == ParseValue(v)
    decreases |v|
  {
    if |v| == 0 {
      return Fail(FrontOfEmpty);
    }
    if v[0] == '-' || IsDigit(v[0]) {
      var number := FromChars(v);
      if number.Fail? {
        return Fail(number.error);
      }
      return Ok((JInt(number.value.0), number.value.1));
    } else if v[0] == '"' {
      var str := ParseJsonStr(v);
      if str.Fail? {
        return Fail(str.error);
      }
      return Ok((JStr(str.value.0), str.value.1));
    } else if v[0] == '{' {
      var next := StripLeadingWhitespace(v[1..]);
      if |next| == 0 {
        return Fail(FrontOfEmpty);
      }
      if next[0] != '"' {
        return Fail(ExpectedKey);
      }
      r := ParseObjectEntries(v, next);
    } else if v[0] == '[' {
      var nextVal := StripLeadingWhitespace(v[1..]);
      r := ParseArrayElements(v, nextVal);
    } else {
      return Fail(UnexpectedToken);
    }
  }

  /** The while (true) loop of the object branch, started on the first key. */
  method ParseObjectEntries(v: string, next: string) returns (r: Result<(JsonValue, string)>)
    requires |next| < |v|
    ensures r == ObjectLoop(next, [])
    decreases |v|, 0
  {
    var nextKey := next;
    var vals: seq<(string, JsonValue)> := [];
    while true
      invariant |nextKey| < |v|
      invariant ObjectLoop(nextKey, vals) == ObjectLoop(next, [])
      decreases |nextKey|
    {
      var keyAndRest := ParseJsonStr(nextKey);
      if keyAndRest.Fail? {
        return Fail(keyAndRest.error);
      }
      var (key, rest) := keyAndRest.value;
      assert ObjectLoop(nextKey, vals) == ObjectEntry(key, rest, vals);
      var colonNext := StripLeadingWhitespace(rest);
      if |colonNext| == 0 {
        return Fail(FrontOfEmpty);
      }
      if colonNext[0] != ':' {
        return Fail(ExpectedColon);
      }
      var valueStart := StripLeadingWhitespace(colonNext[1..]);
      var valueAndEnd := ParseJsonValue(valueStart);
      if valueAndEnd.Fail? {
        return Fail(valueAndEnd.error);
      }
      var (value, endValueStr) := valueAndEnd.value;
      var end := StripLeadingWhitespace(endValueStr);
      assert ObjectEntry(key, rest, vals) == ObjectNext(vals + [(key, value)], end);
      vals := vals + [(key, value)];
      if |end| == 0 {
        return Fail(FrontOfEmpty);
      }
      if end[0] == '}' {
        return Ok((JObj(vals), end[1..]));
      } else if end[0] == ',' {
        nextKey := StripLeadingWhitespace(end[1..]);
      } else {
        return Fail(UnexpectedAfterDictValue);
      }
    }
  }

  /** The while (true) loop of the array branch. */
  method ParseArrayElements(v: string, next: string) returns (r: Result<(JsonValue, string)>)
    requires |next| < |v|
    ensures r == ArrayLoop(next, [])
    decreases |v|, 0
  {
    var nextVal := next;
    var vals: seq<JsonValue> := [];
    while true
      invariant |nextVal| < |v|
      invariant ArrayLoop(nextVal, vals) == ArrayLoop(next, [])
      decreases |nextVal|
    {
      var valueAndEnd := ParseJsonValue(nextVal);
      if valueAndEnd.Fail? {
        return Fail(valueAndEnd.error);
      }
      var (value, endVal) := valueAndEnd.value;
      var end := StripLeadingWhitespace(endVal);
      assert ArrayLoop(nextVal, vals) == ArrayNext(vals + [value], end);
      vals := vals + [value];
      if |end| == 0 {
        return Fail(FrontOfEmpty);
      }
      if end[0] == ']' {
        return Ok((JArr(vals), end[1..]));
      } else if end[0] == ',' {
        nextVal := StripLeadingWhitespace(end[1..]);
      } else {
        return Fail(UnexpectedAfterArrayValue);
      }
    }
  }

  method ParseJson(v: string) returns (r: Result<JsonValue>)
    ensures r == Parse(v)
  {
    var start := StripLeadingWhitespace(v);
    var valueAndRest := ParseJsonValue(start);
    if valueAndRest.Fail? {
      return Fail(valueAndRest.error);
    }
    var noWsEnd := StripLeadingWhitespace(valueAndRest.value.1);
    if noWsEnd != [] {
      return Fail(UnexpectedData);
    }
    return Ok(valueAndRest.value.0);
  }
  // ---------------------------------------------------------------------
  // What the parser accepts and rejects

  lemma {:induction false} StripWsNoop(v: string)
    requires v == [] || !IsWhitespace(v[0])
    ensures StripWs(v) == v
  {
  }

  /** A whitespace-only prefix is skipped entirely. */
  lemma {:induction false} StripWsPrefix(ws: string, v: string)
    requires forall i :: 0 <= i < |ws| ==> IsWhitespace(ws[i])
    requires v == [] || !IsWhitespace(v[0])
    ensures StripWs(ws + v) == v
  {
    if ws != [] {
      assert (ws + v)[1..] == ws[1..] + v;
      StripWsPrefix(ws[1..], v);
    }
  }

  /** `{` followed by whitespace and `}`: the first key must be a string, so an empty object is refused. */
  lemma {:induction false} EmptyObjectRejected(ws: string, rest: string)
    requires forall i :: 0 <= i < |ws| ==> IsWhitespace(ws[i])
    ensures ParseValue("{" + ws + "}" + rest) == Fail(ExpectedKey)
  {
    var v := "{" + ws + "}" + rest;
    assert v[1..] == ws + ("}" + rest);
    StripWsPrefix(ws, "}" + rest);
    assert ParseValue(v) == ObjectValue(v);
  }

  /** `[` followed by whitespace and `]`: `]` is parsed as a value and is no value, so an empty array is refused. */
  lemma {:induction false} EmptyArrayRejected(ws: string, rest: string)
    requires forall i :: 0 <= i < |ws| ==> IsWhitespace(ws[i])
    ensures ParseValue("[" + ws + "]" + rest) == Fail(UnexpectedToken)
  {
    var v := "[" + ws + "]" + rest;
    assert v[1..] == ws + ("]" + rest);
    StripWsPrefix(ws, "]" + rest);
    assert ("]" + rest)[0] == ']';
    assert ParseValue("]" + rest) == Fail(UnexpectedToken);
    assert ArrayLoop("]" + rest, []) == Fail(UnexpectedToken);
    assert ParseValue(v) == ArrayLoop("]" + rest, []);
  }

  /** There is no production for the literals true, false and null. */
  lemma {:induction false} LiteralsRejected(v: string)
    requires |v| > 0 && (v[0] == 't' || v[0] == 'f' || v[0] == 'n')
    ensures ParseValue(v) == Fail(UnexpectedToken)
  {
  }

  /** Only an int64 is read: `1.5` stops before `.5`, which parse_json refuses as trailing data. */
  lemma {:induction false} FractionRejected()
    ensures FromChars("1.5") == Ok((1, ".5"))
    ensures Parse("1.5") == Fail(UnexpectedData)
  {
    assert DigitRun("1.5", 0) == 1 by {
      assert DigitRun("1.5", 1) == 0;
    }
    assert "1.5"[0..1] == "1";
    assert DecimalValue("1") == 1 by {
      assert "1"[..0] == "";
    }
  }

  /** A string containing an escaped quote never finishes parsing. */
  lemma {:induction false} EscapedQuoteDiverges()
    ensures Parse("\"a\\\"b\"") == Fail(Diverges)
  {
    var v := "\"a\\\"b\"";
    assert v == ['"'] + "a" + ['\\', '"'] + "b\"";
    ParseStrEscapedQuoteDiverges("a", "b\"");
    StripWsNoop(v);
    assert ParseValue(v) == StringValue(v);
  }

  // ---------------------------------------------------------------------
  // Printing: the inverse the parser is checked against

  function DigitChar(d: nat): (c: char)
    requires d < 10
    ensures IsDigit(c) && DigitValue(c) == d
  {
    ('0' as int + d) as char
  }

  /** The decimal digits of n, without leading zeros. */
  function Digits(n: nat): (r: string)
    ensures |r| > 0 && forall i :: 0 <= i < |r| ==> IsDigit(r[i])
  {
    if n < 10 then [DigitChar(n)] else Digits(n / 10) + [DigitChar(n % 10)]
  }

  function IntText(i: int): string {
    if i < 0 then "-" + Digits(-i) else Digits(i)
  }

  function Quoted(s: string): string {
    ['"'] + s + ['"']
  }

  /** Where a printer puts whitespace: after an opening bracket, after a
      colon, after a comma and before a closing bracket, each chosen by the
      nesting depth. */
  datatype Layout = Layout(open: nat -> string, colon: string, comma: nat -> string, close: nat -> string)

  ghost predicate WhitespaceLayout(l: Layout) {
    && (forall d :: AllWhitespace(l.open(d)))
    && AllWhitespace(l.colon)
    && (forall d :: AllWhitespace(l.comma(d)))
    && (forall d :: AllWhitespace(l.close(d)))
  }

  /** JSON text for v at nesting depth d, laid out by l and followed by the
      text t; keys and strings are quoted verbatim. */
  function Text(v: JsonValue, t: string, l: Layout, d: nat): string
    decreases v
  {
    match v
    case JInt(i) => IntText(i) + t
    case JStr(s) => Quoted(s) + t
    case JObj(ps) =>
      if ps == [] then "{}" + t else "{" + (l.open(d) + PairsText(ps, l.close(d) + ("}" + t), l, d))
    case JArr(es) =>
      if es == [] then "[]" + t else "[" + (l.open(d) + ElemsText(es, l.close(d) + ("]" + t), l, d))
  }

  /** The pairs of an object at depth d, separated by commas, followed by t. */
  function PairsText(ps: seq<(string, JsonValue)>, t: string, l: Layout, d: nat): string
    requires ps != []
    decreases ps
  {
    assert ps[0].1 < ps[0];
    var after := if |ps| == 1 then t else "," + (l.comma(d) + PairsText(ps[1..], t, l, d));
    Quoted(ps[0].0) + (":" + (l.colon + Text(ps[0].1, after, l, d + 1)))
  }

  /** The elements of an array at depth d, separated by commas, followed by t. */
  function ElemsText(es: seq<JsonValue>, t: string, l: Layout, d: nat): string
    requires es != []
    decreases es
  {
    var after := if |es| == 1 then t else "," + (l.comma(d) + ElemsText(es[1..], t, l, d));
    Text(es[0], after, l, d + 1)
  }

  /** No whitespace at all. */
  const Compact := Layout(_ => "", "", _ => "", _ => "")

  function Print(v: JsonValue): string {
    Text(v, "", Compact, 0)
  }

  /** A string the parser reads back as it is: no quote inside, and no backslash before the closing quote. */
  predicate PlainString(s: string) {
    '"' !in s && (s == [] || s[|s| - 1] != '\\')
  }

  /** The values this parser can read back: int64 numbers, plain strings,
      and objects and arrays that are not empty. */
  predicate Printable(v: JsonValue)
    decreases v
  {
    match v
    case JInt(i) => I64Min <= i <= I64Max
    case JStr(s) => PlainString(s)
    case JObj(ps) => |ps| > 0 && PrintablePairs(ps)
    case JArr(es) => |es| > 0 && PrintableElems(es)
  }

  predicate PrintablePairs(ps: seq<(string, JsonValue)>)
    decreases ps
  {
    ps != [] ==> assert ps[0].1 < ps[0]; PlainString(ps[0].0) && Printable(ps[0].1) && PrintablePairs(ps[1..])
  }

  predicate PrintableElems(es: seq<JsonValue>)
    decreases es
  {
    es != [] ==> Printable(es[0]) && PrintableElems(es[1..])
  }

  lemma {:induction false} TextStart(v: JsonValue, t: string, l: Layout, d: nat)
    ensures |Text(v, t, l, d)| > 0
    ensures var c := Text(v, t, l, d)[0]; c == '-' || IsDigit(c) || c == '"' || c == '{' || c == '['
  {
  }

  lemma {:induction false} DecimalValueOfDigits(n: nat)
    ensures DecimalValue(Digits(n)) == n
  {
    if n >= 10 {
      DecimalValueOfDigits(n / 10);
      var d := Digits(n);
      assert d[..|d| - 1] == Digits(n / 10);
    } else {
      assert Digits(n)[..0] == [];
    }
  }

  lemma {:induction false} DigitRunExact(v: string, from: nat, n: nat)
    requires from + n <= |v|
    requires forall i :: from <= i < from + n ==> IsDigit(v[i])
    requires from + n == |v| || !IsDigit(v[from + n])
    ensures DigitRun(v, from) == n
    decreases n
  {
    if n > 0 {
      DigitRunExact(v, from + 1, n - 1);
    }
  }

  /** from_chars reads back the decimal text of any int64. */
  lemma {:induction false} IntTextRoundTrip(i: int, rest: string)
    requires I64Min <= i <= I64Max
    requires rest == [] || !IsDigit(rest[0])
    ensures FromChars(IntText(i) + rest) == Ok((i, rest))
  {
    var magnitude: nat := if i < 0 then -i else i;
    DecimalValueOfDigits(magnitude);
    assert IntText(i) + rest == (if i < 0 then "-" else "") + Digits(magnitude) + rest;
    SignedDigitsRoundTrip(IntText(i) + rest, i < 0, Digits(magnitude), magnitude, rest);
  }

  /** from_chars on an optional minus sign, digits of value m and text that
      does not continue them. */
  lemma {:induction false} SignedDigitsRoundTrip(v: string, negative: bool, d: string, m: int, rest: string)
    requires v == (if negative then "-" else "") + d + rest
    requires |d| > 0 && (forall k :: 0 <= k < |d| ==> IsDigit(d[k])) && DecimalValue(d) == m
    requires rest == [] || !IsDigit(rest[0])
    requires I64Min <= (if negative then -m else m) <= I64Max
    ensures FromChars(v) == Ok((if negative then -m else m, rest))
  {
    var start := if negative then 1 else 0;
    assert v[start..] == d + rest;
    assert v[0] == (if negative then '-' else d[0]);
    DigitsThenRest(v, start, d, rest);
  }

  /** A run of digits followed by text that does not continue it. */
  lemma {:induction false} DigitsThenRest(v: string, start: nat, d: string, rest: string)
    requires start <= |v| && v[start..] == d + rest
    requires forall k :: 0 <= k < |d| ==> IsDigit(d[k])
    requires rest == [] || !IsDigit(rest[0])
    ensures DigitRun(v, start) == |d|
    ensures v[start..start + |d|] == d && v[start + |d|..] == rest
  {
    assert forall k :: start <= k < start + |d| ==> v[k] == v[start..][k - start];
    assert start + |d| < |v| ==> v[start + |d|] == rest[0];
    DigitRunExact(v, start, |d|);
  }

  /** parse_json_str reads back a quoted plain string. */
  lemma {:induction false} QuotedRoundTrip(s: string, after: string)
    requires PlainString(s)
    ensures ParseStr(Quoted(s) + after) == Ok((s, after))
  {
    var v := Quoted(s) + after;
    var k := |s| + 1;
    assert v[k] == '"';
    forall i | 1 <= i < k
      ensures v[i] != '"'
    {
      assert v[i] == s[i - 1];
    }
    FindQuoteFirst(v, 1, k);
    assert v[1..k] == s;
    assert v[k + 1..] == after;
  }

  /** The parser inverts the printer: a printable value laid out with
      whitespace only, followed by text that does not continue a number,
      parses back to that value. */
  lemma {:induction false} TextRoundTrip(v: JsonValue, rest: string, l: Layout, d: nat)
    requires Printable(v) && WhitespaceLayout(l)
    requires rest == [] || !IsDigit(rest[0])
    ensures ParseValue(Text(v, rest, l, d)) == Ok((v, rest))
    decreases v
  {
    var text := Text(v, rest, l, d);
    TextStart(v, rest, l, d);
    match v
    case JInt(i) =>
      IntTextRoundTrip(i, rest);
      assert ParseValue(text) == NumberValue(text);
    case JStr(s) =>
      QuotedRoundTrip(s, rest);
      assert ParseValue(text) == StringValue(text);
    case JObj(ps) =>
      var body := PairsText(ps, l.close(d) + ("}" + rest), l, d);
      ConsTail('{', l.open(d) + body);
      PairsStart(ps, l.close(d) + ("}" + rest), l, d);
      StripWsPrefix(l.open(d), body);
      assert ParseValue(text) == ObjectLoop(body, []);
      PairsRoundTrip(ps, [], rest, l, d);
      AppendEmpty(ps);
    case JArr(es) =>
      var body := ElemsText(es, l.close(d) + ("]" + rest), l, d);
      ConsTail('[', l.open(d) + body);
      ElemsStart(es, l.close(d) + ("]" + rest), l, d);
      StripWsPrefix(l.open(d), body);
      assert ParseValue(text) == ArrayLoop(body, []);
      ElemsRoundTrip(es, [], rest, l, d);
      AppendEmpty(es);
  }

  lemma {:induction false} PairsStart(ps: seq<(string, JsonValue)>, t: string, l: Layout, d: nat)
    requires ps != []
    ensures var text := PairsText(ps, t, l, d); |text| > 0 && text[0] == '"'
  {
  }

  lemma {:induction false} ElemsStart(es: seq<JsonValue>, t: string, l: Layout, d: nat)
    requires es != []
    ensures var text := ElemsText(es, t, l, d); |text| > 0 && !IsWhitespace(text[0])
  {
    TextStart(es[0], if |es| == 1 then t else "," + (l.comma(d) + ElemsText(es[1..], t, l, d)), l, d + 1);
  }

  lemma {:induction false} AppendEmpty<T>(s: seq<T>)
    ensures [] + s == s
  {
  }

  lemma {:induction false} ConsTail<T>(c: T, t: seq<T>)
    ensures ([c] + t)[1..] == t
  {
  }

  lemma {:induction false} AppendHead<T>(acc: seq<T>, s: seq<T>)
    requires s != []
    ensures acc + [s[0]] + s[1..] == acc + s
  {
    assert s == [s[0]] + s[1..];
  }

  /** The colon, whitespace and a value that reads back, after a key. */
  lemma {:induction false} ObjectEntryStep(k: string, gap: string, w: string, x: JsonValue, r: string, acc: seq<(string, JsonValue)>)
    requires AllWhitespace(gap)
    requires ParseValue(w) == Ok((x, r))
    requires w != [] && !IsWhitespace(w[0])
    ensures ObjectEntry(k, ":" + (gap + w), acc) == ObjectNext(acc + [(k, x)], StripWs(r))
  {
    StripWsNoop(":" + (gap + w));
    ConsTail(':', gap + w);
    StripWsPrefix(gap, w);
  }

  lemma {:induction false} ObjectKeyStep(k: string, after: string, acc: seq<(string, JsonValue)>)
    requires PlainString(k)
    ensures ObjectLoop(Quoted(k) + after, acc) == ObjectEntry(k, after, acc)
  {
    QuotedRoundTrip(k, after);
  }

  lemma {:induction false} PairsRoundTrip(ps: seq<(string, JsonValue)>, acc: seq<(string, JsonValue)>, rest: string, l: Layout, d: nat)
    requires ps != [] && PrintablePairs(ps) && WhitespaceLayout(l)
    ensures ObjectLoop(PairsText(ps, l.close(d) + ("}" + rest), l, d), acc) == Ok((JObj(acc + ps), rest))
    decreases ps
  {
    var (k, x) := ps[0];
    assert x < ps[0];
    var t := l.close(d) + ("}" + rest);
    var r := if |ps| == 1 then t else "," + (l.comma(d) + PairsText(ps[1..], t, l, d));
    assert PairsText(ps, t, l, d) == Quoted(k) + (":" + (l.colon + Text(x, r, l, d + 1)));
    TextRoundTrip(x, r, l, d + 1);
    TextStart(x, r, l, d + 1);
    ObjectEntryStep(k, l.colon, Text(x, r, l, d + 1), x, r, acc);
    ObjectKeyStep(k, ":" + (l.colon + Text(x, r, l, d + 1)), acc);
    if |ps| == 1 {
      ObjectClose(acc + [(k, x)], l.close(d), rest);
      assert acc + ps == acc + [(k, x)];
    } else {
      var next := PairsText(ps[1..], t, l, d);
      PairsStart(ps[1..], t, l, d);
      ObjectComma(acc + [(k, x)], l.comma(d), next);
      PairsRoundTrip(ps[1..], acc + [(k, x)], rest, l, d);
      AppendHead(acc, ps);
    }
  }

  /** Whitespace and the closing brace end an object. */
  lemma {:induction false} ObjectClose(vals: seq<(string, JsonValue)>, gap: string, rest: string)
    requires AllWhitespace(gap)
    ensures ObjectNext(vals, StripWs(gap + ("}" + rest))) == Ok((JObj(vals), rest))
  {
    StripWsPrefix(gap, "}" + rest);
    ConsTail('}', rest);
  }

  /** A comma and whitespace lead to the next key. */
  lemma {:induction false} ObjectComma(vals: seq<(string, JsonValue)>, gap: string, next: string)
    requires AllWhitespace(gap)
    requires |next| > 0 && next[0] == '"'
    ensures ObjectNext(vals, StripWs("," + (gap + next))) == ObjectLoop(next, vals)
  {
    StripWsNoop("," + (gap + next));
    ConsTail(',', gap + next);
    StripWsPrefix(gap, next);
  }

  lemma {:induction false} ElemsRoundTrip(es: seq<JsonValue>, acc: seq<JsonValue>, rest: string, l: Layout, d: nat)
    requires es != [] && PrintableElems(es) && WhitespaceLayout(l)
    ensures ArrayLoop(ElemsText(es, l.close(d) + ("]" + rest), l, d), acc) == Ok((JArr(acc + es), rest))
    decreases es
  {
    var x := es[0];
    var t := l.close(d) + ("]" + rest);
    var r := if |es| == 1 then t else "," + (l.comma(d) + ElemsText(es[1..], t, l, d));
    TextRoundTrip(x, r, l, d + 1);
    assert ArrayLoop(Text(x, r, l, d + 1), acc) == ArrayNext(acc + [x], StripWs(r));
    if |es| == 1 {
      StripWsPrefix(l.close(d), "]" + rest);
      ConsTail(']', rest);
      assert acc + es == acc + [x];
    } else {
      var next := ElemsText(es[1..], t, l, d);
      StripWsNoop(r);
      ConsTail(',', l.comma(d) + next);
      ElemsStart(es[1..], t, l, d);
      StripWsPrefix(l.comma(d), next);
      ElemsRoundTrip(es[1..], acc + [x], rest, l, d);
      AppendHead(acc, es);
    }
  }

  /** parse_json reads back every printable value, whatever whitespace the
      layout, the lead and the trail put around its tokens. */
  lemma {:induction false} ParseText(v: JsonValue, l: Layout, lead: string, trail: string)
    requires Printable(v) && WhitespaceLayout(l)
    requires AllWhitespace(lead) && AllWhitespace(trail)
    ensures Parse(lead + Text(v, trail, l, 0)) == Ok(v)
  {
    TextStart(v, trail, l, 0);
    StripWsPrefix(lead, Text(v, trail, l, 0));
    if trail != [] {
      assert !IsDigit(trail[0]);
    }
    TextRoundTrip(v, trail, l, 0);
    StripWsPrefix(trail, "");
    assert trail + "" == trail;
  }

  lemma {:induction false} ParsePrint(v: JsonValue)
    requires Printable(v)
    ensures Parse(Print(v)) == Ok(v)
  {
    ParseText(v, Compact, "", "");
    assert "" + Print(v) == Print(v);
  }

  /** Pairs keep their order, and a repeated key is kept rather than merged. */
  lemma {:induction false} DuplicateKeysKept()
    ensures Parse("{\"a\":1,\"a\":2}") == Ok(JObj([("a", JInt(1)), ("a", JInt(2))]))
  {
    DuplicateKeysText();
    ParsePrint(JObj([("a", JInt(1)), ("a", JInt(2))]));
  }

  lemma {:induction false} DuplicateKeysText()
    ensures Print(JObj([("a", JInt(1)), ("a", JInt(2))])) == "{\"a\":1,\"a\":2}"
  {
    DuplicateKeysPairs();
  }

  lemma {:induction false} DuplicateKeysPairs()
    ensures PairsText([("a", JInt(1)), ("a", JInt(2))], "}", Compact, 0) == "\"a\":1,\"a\":2}"
  {
    assert DigitChar(1) == '1' && DigitChar(2) == '2';
    assert Text(JInt(2), "}", Compact, 1) == "2}";
    assert PairsText([("a", JInt(2))], "}", Compact, 0) == "\"a\":2}";
    assert Text(JInt(1), ",\"a\":2}", Compact, 1) == "1,\"a\":2}";
  }
}
