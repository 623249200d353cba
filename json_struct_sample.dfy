/** The sample in src/json_struct.cpp: the struct_info text, the point
    struct built from its "format" object and the two points read from its
    "data" array.

    The text is matched against the printer of the JSON model with an
    indenting layout (three spaces per level), so the round trip of the
    printer gives its parse; the lemmas below only regroup string pieces. */
module JsonStructSample {
  import opened Basics
  import opened JsonParse
  import opened RuntimeSetter
  import opened JsonStruct

  /** The indentation struct_info uses: a newline then three spaces per level. */
  function Spaces(n: nat): (r: string)
    ensures AllWhitespace(r) && |r| == n
  {
    seq(n, _ => ' ')
  }

  function Open(d: nat): string { "\n" + Spaces(3 * d + 6) }
  function Close(d: nat): string { "\n" + Spaces(3 * d + 3) }
  const Indented := Layout(Open, " ", Open, Close)

  function PointJson(n: int): JsonValue {
    JObj([("x", JInt(n)), ("y", JInt(n))])
  }

  const FormatJson := JObj([("x", JStr("i32")), ("y", JStr("i32"))])
  const DataJson := JArr([PointJson(1), PointJson(2)])
  const StructInfoJson := JObj([("format", FormatJson), ("data", DataJson)])

  /** struct_info, one source line per piece. */
  const StructInfo: string :=
    "\n   {" + (
    "\n      \"format\": {" + (
    "\n         \"x\": \"i32\"," + (
    "\n         \"y\": \"i32\"" + (
    "\n      }," + (
    "\n      \"data\": [" + (
    "\n         {" + (
    "\n            \"x\": 1," + (
    "\n            \"y\": 1" + (
    "\n         }," + (
    "\n         {" + (
    "\n            \"x\": 2," + (
    "\n            \"y\": 2" + (
    "\n         }" + (
    "\n      ]" + (
    "\n   }" +
    "\n   ")))))))))))))))

  // Regrouping string pieces.

  lemma {:induction false} Group(a: string, b: string, r: string)
    ensures a + (b + r) == (a + b) + r
  {
  }

  lemma {:induction false} Group5(a: string, b: string, c: string, d: string, e: string, r: string)
    ensures a + (b + (c + (d + (e + r)))) == (a + b + c + d + e) + r
  {
  }

  lemma {:induction false} Group6(a: string, b: string, c: string, d: string, e: string, f: string, r: string)
    ensures a + (b + (c + (d + (e + (f + r))))) == (a + b + c + d + e + f) + r
  {
  }

  lemma {:induction false} PointTokens(n: nat, t: string)
    requires 0 < n < 10
    ensures Text(PointJson(n), t, Indented, 2)
      == "{" + (Open(2) + (Quoted("x") + (":" + (" " + (IntText(n) + ("," + (Open(2) + (Quoted("y") + (":" + (" " + (IntText(n) + (Close(2) + ("}" + t)))))))))))))
  {
    var ps := [("x", JInt(n)), ("y", JInt(n))];
    var close := Close(2) + ("}" + t);
    assert Indented.open(2) == Open(2) && Indented.comma(2) == Open(2) && Indented.close(2) == Close(2);
    assert Text(PointJson(n), t, Indented, 2) == "{" + (Open(2) + PairsText(ps, close, Indented, 2));
    assert PairsText(ps[1..], close, Indented, 2) == Quoted("y") + (":" + (" " + (IntText(n) + close)));
    assert PairsText(ps, close, Indented, 2) == Quoted("x") + (":" + (" " + (IntText(n) + ("," + (Open(2) + PairsText(ps[1..], close, Indented, 2))))));
  }

  lemma {:induction false} PointText(n: nat, t: string)
    requires 0 < n < 10
    ensures "{" + (Open(2) + (Quoted("x") + (":" + (" " + (IntText(n) + ("," + (Open(2) + (Quoted("y") + (":" + (" " + (IntText(n) + (Close(2) + ("}" + t)))))))))))))
      == "{" + (("\n            \"x\": " + [DigitChar(n)] + ",") + (("\n            \"y\": " + [DigitChar(n)]) + ("\n         }" + t)))
  {
    var c := [DigitChar(n)];
    var close := Close(2) + ("}" + t);
    assert close == "\n         }" + t by {
      assert Close(2) == "\n         ";
      Group(Close(2), "}", t);
    }
    var ly := Open(2) + (Quoted("y") + (":" + (" " + (IntText(n) + close))));
    assert ly == ("\n            \"y\": " + c) + close by {
      Group5(Open(2), Quoted("y"), ":", " ", IntText(n), close);
      assert Open(2) + Quoted("y") + ":" + " " + IntText(n) == "\n            \"y\": " + c;
    }
    assert Open(2) + (Quoted("x") + (":" + (" " + (IntText(n) + ("," + ly))))) == ("\n            \"x\": " + c + ",") + ly by {
      Group6(Open(2), Quoted("x"), ":", " ", IntText(n), ",", ly);
      assert Open(2) + Quoted("x") + ":" + " " + IntText(n) + "," == "\n            \"x\": " + c + ",";
    }
  }

  lemma {:induction false} FormatTokens(t: string)
    ensures Text(FormatJson, t, Indented, 1)
      == "{" + (Open(1) + (Quoted("x") + (":" + (" " + (Quoted("i32") + ("," + (Open(1) + (Quoted("y") + (":" + (" " + (Quoted("i32") + (Close(1) + ("}" + t)))))))))))))
  {
  }

  lemma {:induction false} FormatLines(t: string)
    ensures "{" + (Open(1) + (Quoted("x") + (":" + (" " + (Quoted("i32") + ("," + (Open(1) + (Quoted("y") + (":" + (" " + (Quoted("i32") + (Close(1) + ("}" + t)))))))))))))
      == "{" + ("\n         \"x\": \"i32\"," + ("\n         \"y\": \"i32\"" + ("\n      }" + t)))
  {
    var close := Close(1) + ("}" + t);
    Group(Close(1), "}", t);
    var ly := Open(1) + (Quoted("y") + (":" + (" " + (Quoted("i32") + close))));
    Group5(Open(1), Quoted("y"), ":", " ", Quoted("i32"), close);
    Group6(Open(1), Quoted("x"), ":", " ", Quoted("i32"), ",", ly);
    FormatLiterals();
  }

  lemma {:induction false} FormatLiterals()
    ensures Close(1) + "}" == "\n      }"
    ensures Open(1) + Quoted("y") + ":" + " " + Quoted("i32") == "\n         \"y\": \"i32\""
    ensures Open(1) + Quoted("x") + ":" + " " + Quoted("i32") + "," == "\n         \"x\": \"i32\","
  {
    assert Open(1) == "\n         ";
    assert Close(1) == "\n      ";
    assert Quoted("x") == "\"x\"" && Quoted("y") == "\"y\"" && Quoted("i32") == "\"i32\"";
  }

  lemma {:induction false} FormatText(t: string)
    ensures Text(FormatJson, t, Indented, 1)
      == "{" + ("\n         \"x\": \"i32\"," + ("\n         \"y\": \"i32\"" + ("\n      }" + t)))
  {
    FormatTokens(t);
    FormatLines(t);
  }

  lemma {:induction false} DataTokens(t: string)
    ensures Text(DataJson, t, Indented, 1)
      == "[" + (Open(1) + Text(PointJson(1), "," + (Open(1) + Text(PointJson(2), Close(1) + ("]" + t), Indented, 2)), Indented, 2))
  {
  }

  /** The text of one point inside "data", with its own lines. */
  lemma {:induction false} PointLines(n: nat, t: string)
    requires n == 1 || n == 2
    ensures n == 1 ==>
      Text(PointJson(n), t, Indented, 2) == "{" + ("\n            \"x\": 1," + ("\n            \"y\": 1" + ("\n         }" + t)))
    ensures n == 2 ==>
      Text(PointJson(n), t, Indented, 2) == "{" + ("\n            \"x\": 2," + ("\n            \"y\": 2" + ("\n         }" + t)))
  {
    PointTokens(n, t);
    PointText(n, t);
    DigitLiterals();
  }

  lemma {:induction false} DigitLiterals()
    ensures "\n            \"x\": " + [DigitChar(1)] + "," == "\n            \"x\": 1,"
    ensures "\n            \"y\": " + [DigitChar(1)] == "\n            \"y\": 1"
    ensures "\n            \"x\": " + [DigitChar(2)] + "," == "\n            \"x\": 2,"
    ensures "\n            \"y\": " + [DigitChar(2)] == "\n            \"y\": 2"
  {
    assert DigitChar(1) == '1' && DigitChar(2) == '2';
  }

  lemma {:induction false} SecondPoint(t: string)
    ensures "\n         }" + ("," + (Open(1) + Text(PointJson(2), Close(1) + ("]" + t), Indented, 2)))
      == "\n         }," + ("\n         {" + ("\n            \"x\": 2," + ("\n            \"y\": 2" + ("\n         }" + ("\n      ]" + t)))))
  {
    var tail2 := Close(1) + ("]" + t);
    assert tail2 == "\n      ]" + t by {
      assert Close(1) == "\n      ";
      Group(Close(1), "]", t);
    }
    PointLines(2, tail2);
    var rest2 := "\n            \"x\": 2," + ("\n            \"y\": 2" + ("\n         }" + tail2));
    Group(Open(1), "{", rest2);
    Group("\n         }", ",", Open(1) + ("{" + rest2));
    GlueLiterals();
  }

  lemma {:induction false} DataGlue(t: string, data: string, p1: string, after1: string)
    requires data == "[" + (Open(1) + p1)
    requires p1 == "{" + ("\n            \"x\": 1," + ("\n            \"y\": 1" + ("\n         }" + after1)))
    requires "\n         }" + after1
      == "\n         }," + ("\n         {" + ("\n            \"x\": 2," + ("\n            \"y\": 2" + ("\n         }" + ("\n      ]" + t)))))
    ensures data
      == "[" + ("\n         {" + ("\n            \"x\": 1," + ("\n            \"y\": 1" + ("\n         }," + ("\n         {"
         + ("\n            \"x\": 2," + ("\n            \"y\": 2" + ("\n         }" + ("\n      ]" + t)))))))))
  {
    var rest1 := "\n            \"x\": 1," + ("\n            \"y\": 1" + ("\n         }" + after1));
    Group(Open(1), "{", rest1);
    GlueLiterals();
  }

  lemma {:induction false} DataText(t: string)
    ensures Text(DataJson, t, Indented, 1)
      == "[" + ("\n         {" + ("\n            \"x\": 1," + ("\n            \"y\": 1" + ("\n         }," + ("\n         {"
         + ("\n            \"x\": 2," + ("\n            \"y\": 2" + ("\n         }" + ("\n      ]" + t)))))))))
  {
    DataTokens(t);
    var after1 := "," + (Open(1) + Text(PointJson(2), Close(1) + ("]" + t), Indented, 2));
    SecondPoint(t);
    PointLines(1, after1);
    DataGlue(t, Text(DataJson, t, Indented, 1), Text(PointJson(1), after1, Indented, 2), after1);
  }

  lemma {:induction false} TopTokens(t: string)
    ensures Text(StructInfoJson, t, Indented, 0)
      == "{" + (Open(0) + (Quoted("format") + (":" + (" " + Text(FormatJson, "," + (Open(0) + (Quoted("data") + (":" + (" "
         + Text(DataJson, Close(0) + ("}" + t), Indented, 1))))), Indented, 1)))))
  {
    var ps := StructInfoJson.pairs;
    var close := Close(0) + ("}" + t);
    assert Indented.open(0) == Open(0) && Indented.comma(0) == Open(0) && Indented.close(0) == Close(0);
    assert Text(StructInfoJson, t, Indented, 0) == "{" + (Open(0) + PairsText(ps, close, Indented, 0));
    assert PairsText(ps[1..], close, Indented, 0) == Quoted("data") + (":" + (" " + Text(DataJson, close, Indented, 1)));
  }

  lemma {:induction false} TopGlue(text: string, format: string, data: string)
    requires text == "{" + (Open(0) + (Quoted("format") + (":" + (" " + format))))
    requires format == "{" + ("\n         \"x\": \"i32\"," + ("\n         \"y\": \"i32\"" + ("\n      }"
      + ("," + (Open(0) + (Quoted("data") + (":" + (" " + data))))))))
    requires data == "[" + ("\n         {" + ("\n            \"x\": 1," + ("\n            \"y\": 1" + ("\n         }," + ("\n         {"
         + ("\n            \"x\": 2," + ("\n            \"y\": 2" + ("\n         }" + ("\n      ]" + (Close(0) + ("}" + "\n   ")))))))))))
    ensures "\n   " + text == StructInfo
  {
    var close := Close(0) + ("}" + "\n   ");
    GlueLiterals();
    Group(Close(0), "}", "\n   ");
    var lines := "\n         {" + ("\n            \"x\": 1," + ("\n            \"y\": 1" + ("\n         }," + ("\n         {"
         + ("\n            \"x\": 2," + ("\n            \"y\": 2" + ("\n         }" + ("\n      ]" + close))))))));
    Group5(Open(0), Quoted("data"), ":", " ", "[", lines);
    var rest := "\n      \"data\": [" + lines;
    Group("\n      }", ",", rest);
    var formatLines := "\n         \"x\": \"i32\"," + ("\n         \"y\": \"i32\"" + ("\n      }," + rest));
    Group5(Open(0), Quoted("format"), ":", " ", "{", formatLines);
    Group("\n   ", "{", "\n      \"format\": {" + formatLines);
  }

  lemma {:induction false} StructInfoText()
    ensures "\n   " + Text(StructInfoJson, "\n   ", Indented, 0) == StructInfo
  {
    var close := Close(0) + ("}" + "\n   ");
    var data := Text(DataJson, close, Indented, 1);
    var afterFormat := "," + (Open(0) + (Quoted("data") + (":" + (" " + data))));
    TopTokens("\n   ");
    FormatText(afterFormat);
    DataText(close);
    TopGlue(Text(StructInfoJson, "\n   ", Indented, 0), Text(FormatJson, afterFormat, Indented, 1), data);
  }

  lemma {:induction false} GlueLiterals()
    ensures Open(1) + "{" == "\n         {"
    ensures "\n         }" + "," == "\n         },"
    ensures Close(0) + "}" == "\n   }"
    ensures "\n      }" + "," == "\n      },"
    ensures "\n   " + "{" == "\n   {"
    ensures Open(0) + Quoted("data") + ":" + " " + "[" == "\n      \"data\": ["
    ensures Open(0) + Quoted("format") + ":" + " " + "{" == "\n      \"format\": {"
  {
    assert Open(1) == "\n         ";
    assert Open(0) == "\n      ";
    assert Close(0) == "\n   ";
  }

  lemma {:induction false} IndentedIsWhitespace()
    ensures WhitespaceLayout(Indented)
  {
    assert IsWhitespace('\n');
  }

  /** parse_json reads struct_info as the expected tree. */
  lemma {:induction false} StructInfoParses()
    ensures Parse(StructInfo) == Ok(StructInfoJson)
  {
    StructInfoText();
    IndentedIsWhitespace();
    assert AllWhitespace("\n   ") by {
      assert IsWhitespace('\n');
    }
    PrintableSample();
    ParseText(StructInfoJson, Indented, "\n   ", "\n   ");
  }

  lemma {:induction false} PrintableSample()
    ensures Printable(StructInfoJson)
  {
    assert PlainString("x") && PlainString("y") && PlainString("i32");
    assert PlainString("format") && PlainString("data");
    forall n | n == 1 || n == 2
      ensures Printable(PointJson(n))
    {
      var ps := PointJson(n).pairs;
      assert ps[1..][1..] == [];
      assert PrintablePairs(ps[1..]);
    }
    var es := DataJson.elems;
    assert es[1..][1..] == [];
    assert PrintableElems(es[1..]);
    assert FormatJson.pairs[1..][1..] == [];
    assert PrintablePairs(FormatJson.pairs[1..]);
    assert StructInfoJson.pairs[1..][1..] == [];
    assert PrintablePairs(StructInfoJson.pairs[1..]);
  }

  const Point := [Member("x", I32), Member("y", I32)]

  /** make_struct_from_json gives point the members x and y, both std::int32_t. */
  lemma {:induction false} SampleStruct()
    ensures StructFromJson(StructInfo) == Done(Point)
  {
    StructInfoParses();
    assert Lookup(TypeMapping, "i32") == Some(I32);
    var ps := FormatJson.pairs;
    assert FieldMember(ps[0]) == Done(Member("x", I32));
    assert FieldMember(ps[1]) == Done(Member("y", I32));
    assert ps[1..][1..] == [];
    assert FormatMembers(ps[1..][1..]) == Done([]);
    assert ps[1..][0] == ps[1];
    assert [Member("y", I32)] + [] == [Member("y", I32)];
    assert FormatMembers(ps[1..]) == Done([Member("y", I32)]);
    assert [Member("x", I32)] + [Member("y", I32)] == Point;
    assert FormatMembers(ps) == Done(Point);
    assert Lookup(StructInfoJson.pairs, "format") == Some(FormatJson);
  }

  lemma {:induction false} SamplePoint(n: int)
    requires n == 1 || n == 2
    ensures DataRecord(Point, PointJson(n)) == Done([n, n])
  {
    ConvertKeepsFitting(I32, n);
    var unset: seq<Option<int>> := seq(2, _ => None);
    var afterX := SetByNameSpec(Point, unset, "x", I64, Some(n), IntAssignable, StoreInt).1;
    assert afterX == [Some(n), None];
    var afterY := SetByNameSpec(Point, afterX, "y", I64, Some(n), IntAssignable, StoreInt).1;
    assert afterY == [Some(n), Some(n)];
    var ps := PointJson(n).pairs;
    assert ApplyPairs(Point, afterY, ps[1..][1..]) == Done(afterY);
    assert ApplyPairs(Point, afterX, ps[1..]) == Done(afterY);
    assert ApplyPairs(Point, unset, ps) == Done(afterY);
    assert Unwrap(afterY) == [n, n];
  }

  /** The static_assert: two points, (1, 1) and (2, 2). */
  lemma {:induction false} SampleData()
    ensures DataFromJson(StructInfo, Point) == Done([[1, 1], [2, 2]])
  {
    StructInfoParses();
    SamplePoint(1);
    SamplePoint(2);
    var es := DataJson.elems;
    assert es[1..][1..] == [] && es[0] == PointJson(1) && es[1..][0] == PointJson(2);
    assert DataRecords(Point, es[1..][1..]) == Done([]);
    assert [[2, 2]] + [] == [[2, 2]];
    assert DataRecords(Point, es[1..]) == Done([[2, 2]]);
    assert [[1, 1]] + [[2, 2]] == [[1, 1], [2, 2]];
    assert DataRecords(Point, es) == Done([[1, 1], [2, 2]]);
    assert StructInfoJson.pairs[0].0 != "data";
    assert Lookup(StructInfoJson.pairs, "data") == Some(DataJson);
  }
}
