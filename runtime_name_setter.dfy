/** The interactive field editor of src/runtime_name_setter.cpp: a C-string
    length, the '|'-joined list of command names built into a fixed array at
    compile time, and the set, view and view_all commands dispatched on the
    first token of a line.

    Fields are looked up with get_by_name and changed in place; whether a
    field's type can be read from a std::stringstream, and what reading the
    argument text yields, are given as parameters. Splitting the line is
    Commands.SplitByWhitespace, which the file repeats verbatim. */
module RuntimeNameSetter {
  import opened Basics
  import opened RuntimeSetter
  import opened Commands

  // ---------------------------------------------------------------------
  // constexpr_strlen

  /** constexpr_strlen, constant-evaluated branch: counts until the
      terminator. Reading past the end is undefined, so a terminator is
      required. */
  method ConstexprStrlen(c: seq<char>) returns (size: nat)
    requires '\0' in c
    ensures size == CStrLen(c)
  {
    size := 0;
    while c[size] != '\0'
      invariant size <= CStrLen(c)
      decreases CStrLen(c) - size
    {
      size := size + 1;
    }
  }

  // ---------------------------------------------------------------------
  // arguments_string

  /** Each name followed by '|', in order. */
  function Piped(names: seq<string>): seq<char> {
    if names == [] then []
    else Piped(names[..|names| - 1]) + names[|names| - 1] + ['|']
  }

  /** total_len: the number of names plus the sum of their lengths. */
  function TotalLen(names: seq<string>): nat {
    if names == [] then 0 else 1 + |names[0]| + TotalLen(names[1..])
  }

  /** The names joined by '|', the last '|' overwritten by the terminator. */
  function ArgumentsString(names: seq<string>): (r: seq<char>)
    requires names != []
  {
    var p := Piped(names);
    p[|p| - 1 := '\0']
  }

  predicate NoTerminator(s: string) {
    forall k :: 0 <= k < |s| ==> s[k] != '\0'
  }

  lemma {:induction false} PipedAppend(a: seq<string>, b: seq<string>)
    ensures Piped(a + b) == Piped(a) + Piped(b)
    decreases |b|
  {
    if b != [] {
      var init := b[..|b| - 1];
      assert (a + b)[..|a + b| - 1] == a + init;
      PipedAppend(a, init);
    } else {
      assert a + b == a;
    }
  }

  lemma {:induction false} PipedLength(names: seq<string>)
    ensures |Piped(names)| == TotalLen(names)
    decreases |names|
  {
    if names != [] {
      PipedAppend([names[0]], names[1..]);
      assert [names[0]] + names[1..] == names;
      assert Piped([names[0]]) == [] + names[0] + ['|'];
      PipedLength(names[1..]);
    }
  }

  lemma {:induction false} PipedNoTerminator(names: seq<string>)
    requires forall i :: 0 <= i < |names| ==> NoTerminator(names[i])
    ensures '\0' !in Piped(names)
    decreases |names|
  {
    if names != [] {
      PipedNoTerminator(names[..|names| - 1]);
      assert NoTerminator(names[|names| - 1]);
    }
  }

  /** The static_assert on arguments_string: its C-string length is one
      less than its size, as no command name holds a '\0'. */
  lemma {:induction false} ArgumentsStringLength(names: seq<string>)
    requires names != [] && forall i :: 0 <= i < |names| ==> NoTerminator(names[i])
    ensures |ArgumentsString(names)| == TotalLen(names)
    ensures '\0' in ArgumentsString(names)
    ensures CStrLen(ArgumentsString(names)) == |ArgumentsString(names)| - 1
  {
    PipedLength(names);
    PipedNoTerminator(names);
    var p := Piped(names);
    var r := ArgumentsString(names);
    assert r[|r| - 1] == '\0';
    forall k | 0 <= k < |r| - 1
      ensures r[k] != '\0'
    {
      assert r[k] == p[k] && p[k] in p;
    }
  }

  /** The lambda that fills arguments_string: for each name, copy its
      characters and a '|'; then overwrite the last character with '\0'.
      Writing back() of an empty array is undefined, so some name is needed. */
  method BuildArgumentsString(names: seq<string>) returns (toRet: array<char>)
    requires names != []
    ensures toRet.Length == TotalLen(names)
    ensures toRet[..] == ArgumentsString(names)
  {
    PipedLength(names);
    toRet := new char[TotalLen(names)];
    var copyLoc := 0;
    var i := 0;
    while i < |names|
      invariant 0 <= i <= |names|
      invariant copyLoc == |Piped(names[..i])| <= toRet.Length == |Piped(names)|
      invariant toRet[..copyLoc] == Piped(names[..i])
    {
      copyLoc := CopyName(toRet, names, i, copyLoc);
      i := i + 1;
    }
    assert names[..|names|] == names;
    assert toRet[..] == toRet[..copyLoc];
    toRet[toRet.Length - 1] := '\0';
  }

  /** One turn of that loop: names[i] and a '|' written at copyLoc. */
  method CopyName(toRet: array<char>, names: seq<string>, i: nat, copyLoc: nat) returns (next: nat)
    requires i < |names| && toRet.Length == |Piped(names)|
    requires copyLoc == |Piped(names[..i])| <= toRet.Length && toRet[..copyLoc] == Piped(names[..i])
    modifies toRet
    ensures next == |Piped(names[..i + 1])| <= toRet.Length
    ensures toRet[..next] == Piped(names[..i + 1])
  {
    var cmd := names[i];
    PipedSnoc(names, i);
    CopyInto(toRet, copyLoc, cmd);
    next := copyLoc + |cmd|;
    toRet[next] := '|';
    assert toRet[..next + 1] == toRet[..next] + ['|'];
    next := next + 1;
  }

  lemma {:induction false} PipedSnoc(names: seq<string>, i: nat)
    requires i < |names|
    ensures Piped(names[..i + 1]) == Piped(names[..i]) + names[i] + ['|']
    ensures |Piped(names[..i + 1])| <= |Piped(names)|
  {
    assert names[..i + 1][..i] == names[..i];
    PipedAppend(names[..i + 1], names[i + 1..]);
    assert names[..i + 1] + names[i + 1..] == names;
  }

  /** std::ranges::copy of a name's characters to position `at`. */
  method CopyInto(toRet: array<char>, at: nat, cmd: string)
    requires at + |cmd| <= toRet.Length
    modifies toRet
    ensures toRet[..at + |cmd|] == old(toRet[..at]) + cmd
  {
    ghost var before := toRet[..at];
    var j := 0;
    while j < |cmd|
      invariant 0 <= j <= |cmd|
      invariant toRet[..at + j] == before + cmd[..j]
    {
      toRet[at + j] := cmd[j];
      assert toRet[..at + j + 1] == toRet[..at + j] + [cmd[j]];
      assert cmd[..j + 1] == cmd[..j] + [cmd[j]];
      j := j + 1;
    }
    assert cmd[..|cmd|] == cmd;
  }

  /** The three commands of main's table, in order. */
  const CommandNames := ["set", "view", "view_all"]

  lemma {:induction false} CommandNamesString()
    ensures ArgumentsString(CommandNames) == "set|view|view_all\0"
    ensures TotalLen(CommandNames) == 18
  {
    var p := Piped(CommandNames);
    assert CommandNames[..2] == ["set", "view"] && CommandNames[..2][..1] == ["set"];
    assert ["set"][..0] == [];
    assert Piped(["set"]) == "set|";
    assert Piped(["set", "view"]) == "set|" + "view" + "|";
    assert p == "set|" + "view" + "|" + "view_all" + "|";
    assert p == "set|view|view_all|";
    PipedLength(CommandNames);
  }

  // ---------------------------------------------------------------------
  // The set, view and view_all commands

  /** What a command reports. The handlers print these; Stored, Shown and
      ShownAll are the runs that print no error. */
  datatype Report =
    | MissingFieldName
    | MissingValue
    | NoField(name: string)
    | CannotBeSet
    | CouldNotParse
    | Stored(index: nat)
    | Shown(index: nat)
    | ShownAll

  /** The set command on the tokens of a line: field name and value text are
      the second and third tokens, further tokens are ignored. */
  function SetSpec<Ty, Val>(members: seq<Member<Ty>>, values: seq<Val>, args: seq<string>,
                            streamable: Ty -> bool, extract: (Ty, string) -> (bool, Val)): (Report, seq<Val>)
    requires |values| == |members|
  {
    if |args| < 2 then (MissingFieldName, values)
    else if |args| < 3 then (MissingValue, values)
    else
      match GetByName(members, args[1])
      case None => (NoField(args[1]), values)
      case Some(i) =>
        if !streamable(members[i].ty) then (CannotBeSet, values)
        else
          var (ok, v) := extract(members[i].ty, args[2]);
          if ok then (Stored(i), values[i := v]) else (CouldNotParse, values)
  }

  /** set: checks the token count and the field name, then, for a field a
      stream can read into, moves the old value aside, extracts into the
      field and puts the old value back when the stream failed. */
  method SetCommand<Ty(==), Val>(vals: Record<Ty, Val>, args: seq<string>,
                                 streamable: Ty -> bool, extract: (Ty, string) -> (bool, Val))
    returns (report: Report)
    requires vals.Valid()
    modifies vals
    ensures vals.Valid()
    ensures (report, vals.values) == SetSpec(vals.members, old(vals.values), args, streamable, extract)
  {
    if |args| < 2 {
      return MissingFieldName;
    }
    if |args| < 3 {
      return MissingValue;
    }
    var fieldName := args[1];
    var locOpt := GetByName(vals.members, fieldName);
    if locOpt.None? {
      return NoField(fieldName);
    }
    var valueToSet := args[2];
    var i := locOpt.value;
    if streamable(vals.members[i].ty) {
      var oldValue := vals.values[i];
      var (ok, v) := extract(vals.members[i].ty, valueToSet);
      vals.values := vals.values[i := v];
      if !ok {
        report := CouldNotParse;
        vals.values := vals.values[i := oldValue];
        assert vals.values == old(vals.values);
      } else {
        report := Stored(i);
      }
    } else {
      report := CannotBeSet;
    }
  }

  /** view: the field named by the second token; printing it is not modelled. */
  function ViewCommand<Ty>(members: seq<Member<Ty>>, args: seq<string>): Report {
    if |args| < 2 then MissingFieldName
    else
      match GetByName(members, args[1])
      case None => NoField(args[1])
      case Some(i) => Shown(i)
  }

  /** What the main loop does with one line. */
  datatype LineOutcome = Usage(text: string) | InvalidCommand | Handled(report: Report)

  /** The usage line prints arguments_string up to its terminator. */
  function UsageText(): string {
    ArgumentsStringLength(CommandNames);
    "Usage: " + ArgumentsString(CommandNames)[..CStrLen(ArgumentsString(CommandNames))] + " [field_name] [value]"
  }

  function LineSpec<Ty, Val>(members: seq<Member<Ty>>, values: seq<Val>, line: string,
                             streamable: Ty -> bool, extract: (Ty, string) -> (bool, Val)): (LineOutcome, seq<Val>)
    requires |values| == |members|
  {
    var split := Tokens(line);
    if split == [] then (Usage(UsageText()), values)
    else if split[0] == "set" then
      var (report, after) := SetSpec(members, values, split, streamable, extract);
      (Handled(report), after)
    else if split[0] == "view" then (Handled(ViewCommand(members, split)), values)
    else if split[0] == "view_all" then (Handled(ShownAll), values)
    else (InvalidCommand, values)
  }

  /** One turn of main's loop, after the line has been read. */
  method HandleLine<Ty(==), Val>(vals: Record<Ty, Val>, line: string,
                                 streamable: Ty -> bool, extract: (Ty, string) -> (bool, Val))
    returns (outcome: LineOutcome)
    requires vals.Valid()
    modifies vals
    ensures vals.Valid()
    ensures (outcome, vals.values) == LineSpec(vals.members, old(vals.values), line, streamable, extract)
  {
    var split := SplitByWhitespace(line);
    if |split| == 0 {
      return Usage(UsageText());
    }
    var command := split[0];
    if command == "set" {
      var report := SetCommand(vals, split, streamable, extract);
      outcome := Handled(report);
    } else if command == "view" {
      outcome := Handled(ViewCommand(vals.members, split));
    } else if command == "view_all" {
      outcome := Handled(ShownAll);
    } else {
      outcome := InvalidCommand;
    }
  }

  // ---------------------------------------------------------------------
  // Properties

  /** Every error of set leaves every field as it was; a set that stores
      writes the extracted value into the one field named by the second
      token and nothing else. */
  lemma {:induction false} SetMeaning<Ty, Val>(members: seq<Member<Ty>>, values: seq<Val>, args: seq<string>,
                            streamable: Ty -> bool, extract: (Ty, string) -> (bool, Val))
    requires |values| == |members| && UniqueNames(members)
    ensures var (report, after) := SetSpec(members, values, args, streamable, extract);
      && (!report.Stored? ==> after == values)
      && (report == MissingFieldName <==> |args| < 2)
      && (report == MissingValue <==> |args| == 2)
      && (report.NoField? <==> |args| >= 3 && forall i :: 0 <= i < |members| ==> members[i].name != args[1])
      && (report.Stored? <==>
            |args| >= 3 &&
            exists i :: (0 <= i < |members| && members[i].name == args[1] &&
              streamable(members[i].ty) && extract(members[i].ty, args[2]).0))
      && (report.Stored? ==>
            (report.index < |members| && members[report.index].name == args[1] &&
             after == values[report.index := extract(members[report.index].ty, args[2]).1]))
  {
    var (report, after) := SetSpec(members, values, args, streamable, extract);
    if |args| >= 3 {
      var r := GetByName(members, args[1]);
      if r.Some? {
        forall i | 0 <= i < |members| && members[i].name == args[1]
          ensures i == r.value
        {
          GetByNameUnique(members, args[1], i);
        }
      }
    }
  }

  /** A set that stores is seen by the next view of the same field. */
  lemma {:induction false} SetThenView<Ty, Val>(members: seq<Member<Ty>>, values: seq<Val>, args: seq<string>,
                             streamable: Ty -> bool, extract: (Ty, string) -> (bool, Val))
    requires |values| == |members|
    requires SetSpec(members, values, args, streamable, extract).0.Stored?
    ensures var (report, after) := SetSpec(members, values, args, streamable, extract);
      && ViewCommand(members, args[..2]) == Shown(report.index)
      && after[report.index] == extract(members[report.index].ty, args[2]).1
  {
  }

  /** A blank line prints the usage with the three command names; any other
      first token that is not a command is an error; neither changes a field. */
  lemma {:induction false} LineMeaning<Ty, Val>(members: seq<Member<Ty>>, values: seq<Val>, line: string,
                             streamable: Ty -> bool, extract: (Ty, string) -> (bool, Val))
    requires |values| == |members|
    ensures var (outcome, after) := LineSpec(members, values, line, streamable, extract);
      && (outcome.Usage? <==> AllWhitespace(line))
      && (outcome.Usage? ==> outcome.text == "Usage: " + "set|view|view_all" + " [field_name] [value]")
      && (outcome == InvalidCommand <==> !AllWhitespace(line) && Tokens(line)[0] !in CommandNames)
      && (after != values ==> Tokens(line)[0] == "set")
  {
    TokensBlank(line);
    UsageLiteral();
  }

  lemma {:induction false} UsageLiteral()
    ensures UsageText() == "Usage: " + "set|view|view_all" + " [field_name] [value]"
  {
    CommandNamesString();
    var s := ArgumentsString(CommandNames);
    ArgumentsStringLength(CommandNames);
    assert s[..CStrLen(s)] == "set|view|view_all";
  }

  // ---------------------------------------------------------------------
  // The values struct of the program

  /** The member types of `values`, as far as set can tell them apart. */
  datatype FieldType = Int | StdString | Char | ConstCharPtr | IntPtr | IntPtrPtr

  const ValuesMembers := [
    Member("x", Int), Member("y", Int), Member("z", StdString), Member("c", Char),
    Member("walrus", ConstCharPtr), Member("walrus2", ConstCharPtr),
    Member("pointer", IntPtr), Member("pointer2", IntPtrPtr)]

  /** operator>> reads into int, std::string and char, not into pointers. */
  function Streamable(t: FieldType): bool {
    t == Int || t == StdString || t == Char
  }

  /** `set walrus hi`: a const char* field cannot be read from a stream. */
  lemma {:induction false} SetWalrusRejected<Val>(values: seq<Val>, extract: (FieldType, string) -> (bool, Val))
    requires |values| == |ValuesMembers|
    ensures SetSpec(ValuesMembers, values, ["set", "walrus", "hi"], Streamable, extract) == (CannotBeSet, values)
  {
    assert GetByName(ValuesMembers, "walrus") == Some(4) by {
      GetByNameUnique(ValuesMembers, "walrus", 4);
    }
  }

  /** `set x 5`, when the stream reads 5: only x changes. */
  lemma {:induction false} SetXStored(values: seq<int>, extract: (FieldType, string) -> (bool, int))
    requires |values| == |ValuesMembers| && extract(Int, "5") == (true, 5)
    ensures SetSpec(ValuesMembers, values, ["set", "x", "5"], Streamable, extract) == (Stored(0), values[0 := 5])
  {
  }
}
