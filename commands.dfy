/** Whitespace tokenizing and command dispatch (src/commands.cpp).

    A command set is the list of the type aliases of a commands<> struct, in
    declaration order, each with the identifiers of its callable's
    parameters. Running the callable is left to the caller: dispatch says
    which command runs and with which arguments, or which error it reports. */
module Commands {
  import opened Basics
  import JsonParse

  // ---------------------------------------------------------------------
  // split_by_whitespace

  /** std::ranges::find_if_not(.., isspace) from index `from`. */
  function FindNonSpace(v: string, from: nat): (r: nat)
    requires from <= |v|
    ensures from <= r <= |v|
    ensures forall k :: from <= k < r ==> IsWhitespace(v[k])
    ensures r < |v| ==> !IsWhitespace(v[r])
    decreases |v| - from
  {
    if from == |v| || !IsWhitespace(v[from]) then from else FindNonSpace(v, from + 1)
  }

  /** std::ranges::find_if(.., isspace) from index `from`. */
  function FindSpace(v: string, from: nat): (r: nat)
    requires from <= |v|
    ensures from <= r <= |v|
    ensures forall k :: from <= k < r ==> !IsWhitespace(v[k])
    ensures r < |v| ==> IsWhitespace(v[r])
    decreases |v| - from
  {
    if from == |v| || IsWhitespace(v[from]) then from else FindSpace(v, from + 1)
  }

  /** The tokens of v from index `from` on. */
  function TokensFrom(v: string, from: nat): seq<string>
    requires from <= |v|
    decreases |v| - from
  {
    var start := FindNonSpace(v, from);
    if start == |v| then []
    else
      var end := FindSpace(v, start + 1);
      [v[start..end]] + TokensFrom(v, end)
  }

  function Tokens(v: string): seq<string> {
    TokensFrom(v, 0)
  }

  /** A token: a non-empty run of characters none of which is whitespace. */
  predicate IsToken(w: string) {
    w != [] && forall k :: 0 <= k < |w| ==> !IsWhitespace(w[k])
  }

  method SplitByWhitespace(v: string) returns (r: seq<string>)
    ensures r == Tokens(v)
  {
    r := [];
    var previous := FindNonSpace(v, 0);
    assert Tokens(v) == TokensFrom(v, previous);
    while previous != |v|
      invariant previous <= |v|
      invariant Tokens(v) == r + TokensFrom(v, previous)
      decreases |v| - previous
    {
      var start := FindNonSpace(v, previous);
      if start == |v| {
        break;
      }
      var end := FindSpace(v, start + 1);
      TokensFromStep(v, previous, start, end);
      AppendAssoc(r, [v[start..end]], TokensFrom(v, end));
      r := r + [v[start..end]];
      previous := end;
    }
    assert r + [] == r;
  }

  lemma {:induction false} AppendAssoc(a: seq<string>, b: seq<string>, c: seq<string>)
    ensures a + (b + c) == a + b + c
  {
  }

  /** Every token is a maximal run: non-empty and free of whitespace. */
  lemma {:induction false} TokensAreTokens(v: string, from: nat)
    requires from <= |v|
    ensures forall i :: 0 <= i < |TokensFrom(v, from)| ==> IsToken(TokensFrom(v, from)[i])
    decreases |v| - from
  {
    var start := FindNonSpace(v, from);
    if start < |v| {
      var end := FindSpace(v, start + 1);
      TokensAreTokens(v, end);
    }
  }

  /** Blank input, and only blank input, gives no tokens. */
  lemma {:induction false} TokensBlank(v: string)
    ensures Tokens(v) == [] <==> AllWhitespace(v)
  {
    var start := FindNonSpace(v, 0);
    if start == |v| {
      assert AllWhitespace(v);
    }
  }

  /** Whitespace, then a token, then the end or more whitespace: the token
      comes first and the rest is split on its own. */
  lemma {:induction false} TokensCons(ws: string, w: string, rest: string)
    requires AllWhitespace(ws) && IsToken(w)
    requires rest == [] || IsWhitespace(rest[0])
    ensures Tokens(ws + w + rest) == [w] + Tokens(rest)
  {
    var a := ws + w;
    TokenStart(ws, w, rest);
    TokenEnd(ws, w, rest);
    TokensAfter(a, rest);
    TokenFirst(a + rest, w, |ws|, |a|, Tokens(rest));
  }

  /** The tokens of a + b after a are the tokens of b. */
  lemma {:induction false} TokensAfter(a: string, b: string)
    ensures TokensFrom(a + b, |a|) == Tokens(b)
  {
    ShiftedConcat(a, b);
    TokensShift(a + b, b, |a|, 0);
  }

  /** v holds b from index n to its end. */
  predicate Shifted(v: string, b: string, n: nat) {
    |v| == n + |b| && forall k :: 0 <= k < |b| ==> v[n + k] == b[k]
  }

  lemma {:induction false} ShiftedConcat(a: string, b: string)
    ensures Shifted(a + b, b, |a|)
  {
  }

  /** The first token of ws + w + rest starts after ws. */
  lemma {:induction false} TokenStart(ws: string, w: string, rest: string)
    requires AllWhitespace(ws) && IsToken(w)
    ensures FindNonSpace(ws + w + rest, 0) == |ws|
  {
    var v := ws + w + rest;
    forall k | 0 <= k < |ws|
      ensures IsWhitespace(v[k])
    {
      assert v[k] == ws[k];
    }
    assert v[|ws|] == w[0];
    FindNonSpaceAt(v, 0, |ws|);
  }

  /** That token ends where w does, and it is w. */
  lemma {:induction false} TokenEnd(ws: string, w: string, rest: string)
    requires IsToken(w)
    requires rest == [] || IsWhitespace(rest[0])
    ensures FindSpace(ws + w + rest, |ws| + 1) == |ws + w|
    ensures (ws + w + rest)[|ws|..|ws + w|] == w
  {
    var v := ws + w + rest;
    var start, end := |ws|, |ws| + |w|;
    forall k | start + 1 <= k < end
      ensures !IsWhitespace(v[k])
    {
      assert v[k] == w[k - start];
    }
    if rest != [] {
      assert v[end] == rest[0];
    }
    FindSpaceAt(v, start + 1, end);
    assert v[start..end] == w;
  }

  /** The first token found is w, and the tokens after it are ts. */
  lemma {:induction false} TokenFirst(v: string, w: string, start: nat, end: nat, ts: seq<string>)
    requires start == FindNonSpace(v, 0) < |v| && end == FindSpace(v, start + 1)
    requires v[start..end] == w && TokensFrom(v, end) == ts
    ensures Tokens(v) == [w] + ts
  {
    TokensFromStep(v, 0, start, end);
  }

  /** find_if_not stops at the first non-whitespace character. */
  lemma {:induction false} FindNonSpaceAt(v: string, from: nat, r: nat)
    requires from <= r <= |v|
    requires forall k :: from <= k < r ==> IsWhitespace(v[k])
    requires r < |v| ==> !IsWhitespace(v[r])
    ensures FindNonSpace(v, from) == r
    decreases r - from
  {
    if from < r {
      FindNonSpaceAt(v, from + 1, r);
    }
  }

  /** find_if stops at the first whitespace character. */
  lemma {:induction false} FindSpaceAt(v: string, from: nat, r: nat)
    requires from <= r <= |v|
    requires forall k :: from <= k < r ==> !IsWhitespace(v[k])
    requires r < |v| ==> IsWhitespace(v[r])
    ensures FindSpace(v, from) == r
    decreases r - from
  {
    if from < r {
      FindSpaceAt(v, from + 1, r);
    }
  }

  /** Splitting the tail of v from n on, where v holds b, is splitting b. */
  lemma {:induction false} TokensShift(v: string, b: string, n: nat, from: nat)
    requires Shifted(v, b, n) && from <= |b|
    ensures TokensFrom(v, n + from) == TokensFrom(b, from)
    decreases |b| - from
  {
    var start := FindNonSpace(b, from);
    if start == |b| {
      TokensShiftEnd(v, b, n, from);
    } else {
      var end := FindSpace(b, start + 1);
      TokensShift(v, b, n, end);
      FindNonSpaceShift(v, b, n, from);
      FindSpaceShift(v, b, n, start + 1);
      SliceShift(v, b, n, start, end);
      TokensStepEqual(v, b, n + from, n + start, n + end, from, start, end);
    }
  }

  lemma {:induction false} TokensShiftEnd(v: string, b: string, n: nat, from: nat)
    requires Shifted(v, b, n) && from <= |b| && FindNonSpace(b, from) == |b|
    ensures TokensFrom(v, n + from) == TokensFrom(b, from) == []
  {
    FindNonSpaceShift(v, b, n, from);
  }

  /** Two splits that find the same next token and agree after it agree. */
  lemma {:induction false} TokensStepEqual(v: string, b: string, i: nat, si: nat, ei: nat, j: nat, sj: nat, ej: nat)
    requires i <= |v| && si == FindNonSpace(v, i) < |v| && ei == FindSpace(v, si + 1)
    requires j <= |b| && sj == FindNonSpace(b, j) < |b| && ej == FindSpace(b, sj + 1)
    requires v[si..ei] == b[sj..ej] && TokensFrom(v, ei) == TokensFrom(b, ej)
    ensures TokensFrom(v, i) == TokensFrom(b, j)
  {
    TokensFromStep(v, i, si, ei);
    TokensFromStep(b, j, sj, ej);
  }

  /** One step of TokensFrom, with the token's bounds given. */
  lemma {:induction false} TokensFromStep(v: string, from: nat, start: nat, end: nat)
    requires from <= |v| && start == FindNonSpace(v, from) < |v| && end == FindSpace(v, start + 1)
    ensures TokensFrom(v, from) == [v[start..end]] + TokensFrom(v, end)
  {
  }

  lemma {:induction false} SliceShift(v: string, b: string, n: nat, i: nat, j: nat)
    requires Shifted(v, b, n) && i <= j <= |b|
    ensures v[n + i..n + j] == b[i..j]
  {
  }

  lemma {:induction false} FindNonSpaceShift(v: string, b: string, n: nat, from: nat)
    requires Shifted(v, b, n) && from <= |b|
    ensures FindNonSpace(v, n + from) == n + FindNonSpace(b, from)
  {
    var q := FindNonSpace(b, from);
    forall k | n + from <= k < n + q
      ensures IsWhitespace(v[k])
    {
      assert v[k] == b[k - n];
    }
    if q < |b| {
      assert v[n + q] == b[q];
    }
    FindNonSpaceAt(v, n + from, n + q);
  }

  lemma {:induction false} FindSpaceShift(v: string, b: string, n: nat, from: nat)
    requires Shifted(v, b, n) && from <= |b|
    ensures FindSpace(v, n + from) == n + FindSpace(b, from)
  {
    var q := FindSpace(b, from);
    forall k | n + from <= k < n + q
      ensures !IsWhitespace(v[k])
    {
      assert v[k] == b[k - n];
    }
    if q < |b| {
      assert v[n + q] == b[q];
    }
    FindSpaceAt(v, n + from, n + q);
  }

  /** Tokens joined by single spaces. */
  function JoinSpaced(ts: seq<string>): string {
    if ts == [] then "" else if |ts| == 1 then ts[0] else ts[0] + " " + JoinSpaced(ts[1..])
  }

  /** Splitting tokens joined by spaces gives back the tokens. */
  lemma {:induction false} TokensJoinRoundTrip(ts: seq<string>)
    requires forall i :: 0 <= i < |ts| ==> IsToken(ts[i])
    ensures Tokens(JoinSpaced(ts)) == ts
  {
    if ts == [] {
      TokensBlank("");
    } else if |ts| == 1 {
      TokensCons("", ts[0], "");
      TokensBlank("");
      assert "" + ts[0] + "" == ts[0];
    } else {
      var rest := " " + JoinSpaced(ts[1..]);
      TokensCons("", ts[0], rest);
      assert "" + ts[0] + rest == JoinSpaced(ts);
      TokensJoinRoundTrip(ts[1..]);
      TokensSkip(rest, 0, 1);
      TokensAfter(" ", JoinSpaced(ts[1..]));
    }
  }

  /** Leading whitespace does not change the tokens. */
  lemma {:induction false} TokensSkip(v: string, from: nat, to: nat)
    requires from <= to <= |v|
    requires forall k :: from <= k < to ==> IsWhitespace(v[k])
    ensures TokensFrom(v, from) == TokensFrom(v, to)
  {
    assert FindNonSpace(v, from) == FindNonSpace(v, to);
  }

  // ---------------------------------------------------------------------
  // commands<void>::execute

  /** One command: the name of its type alias and the identifiers of its
      callable's parameters. */
  datatype Command = Command(name: string, params: seq<string>)

  /** What execute does with a line: one of its three error messages, the
      help listing, or a call of command `index` with `arguments`. */
  datatype Dispatch =
    | NoCommandGiven
    | Help
    | NoSuchCommand(name: string)
    | WrongArity(got: nat, expected: nat)
    | Call(index: nat, arguments: seq<string>)

  /** std::ranges::find over the command names: the first command called `name`. */
  function FindCommand(commands: seq<Command>, name: string): (r: Option<nat>)
    ensures r.Some? ==> r.value < |commands| && commands[r.value].name == name
    ensures r.Some? ==> forall j :: 0 <= j < r.value ==> commands[j].name != name
    ensures r.None? ==> forall j :: 0 <= j < |commands| ==> commands[j].name != name
  {
    if commands == [] then None
    else if commands[0].name == name then Some(0)
    else
      match FindCommand(commands[1..], name)
      case None => None
      case Some(i) => Some(i + 1)
  }

  /** The wrapper get_type_alias_names builds for a command: it checks the
      number of arguments after the command name against the number of
      parameters before copying them. */
  function Invocation(c: Command, index: nat, args: seq<string>): Dispatch
    requires |args| > 0
  {
    if |c.params| != |args| - 1 then WrongArity(|args| - 1, |c.params|)
    else Call(index, args[1..])
  }

  /** execute on the tokens of a line. */
  function DispatchTokens(commands: seq<Command>, args: seq<string>): Dispatch {
    if args == [] then NoCommandGiven
    else
      match FindCommand(commands, args[0])
      case None => if args[0] == "help" then Help else NoSuchCommand(args[0])
      case Some(i) => Invocation(commands[i], i, args)
  }

  function Execute(commands: seq<Command>, line: string): Dispatch {
    DispatchTokens(commands, Tokens(line))
  }

  /** std::ranges::copy of the arguments after the command name into the
      std::array the callable is applied to. */
  method CopyArguments(args: seq<string>, toCallWith: array<string>)
    requires |args| == toCallWith.Length + 1
    modifies toCallWith
    ensures toCallWith[..] == args[1..]
  {
    var i := 0;
    while i < toCallWith.Length
      invariant 0 <= i <= toCallWith.Length
      invariant toCallWith[..i] == args[1..i + 1]
    {
      toCallWith[i] := args[i + 1];
      i := i + 1;
    }
  }

  method Invoke(c: Command, index: nat, args: seq<string>) returns (d: Dispatch)
    requires |args| > 0
    ensures d == Invocation(c, index, args)
  {
    if |c.params| != |args| - 1 {
      return WrongArity(|args| - 1, |c.params|);
    }
    var toCallWith := new string[|c.params|];
    CopyArguments(args, toCallWith);
    d := Call(index, toCallWith[..]);
  }

  /** execute: split the line, look the first token up among the commands
      and either call it or report. */
  method ExecuteLine(commands: seq<Command>, line: string) returns (d: Dispatch)
    ensures d == Execute(commands, line)
  {
    var args := SplitByWhitespace(line);
    if |args| == 0 {
      return NoCommandGiven;
    }
    var loc := FindCommand(commands, args[0]);
    if loc.None? {
      if args[0] == "help" {
        d := Help;
      } else {
        d := NoSuchCommand(args[0]);
      }
    } else {
      d := Invoke(commands[loc.value], loc.value, args);
    }
  }

  /** What execute reports, case by case: a blank line is no command; the
      help listing only when no command is itself called help; a call goes
      to the first command with the name, with exactly the remaining tokens,
      when their number is that command's parameter count. */
  lemma {:induction false} ExecuteMeaning(commands: seq<Command>, line: string)
    ensures var d, ts := Execute(commands, line), Tokens(line);
      && (d.NoCommandGiven? <==> AllWhitespace(line))
      && (d.Help? <==> ts != [] && ts[0] == "help" && forall j :: 0 <= j < |commands| ==> commands[j].name != "help")
      && (d.NoSuchCommand? <==>
            ts != [] && ts[0] != "help" && forall j :: 0 <= j < |commands| ==> commands[j].name != ts[0])
      && (d.NoSuchCommand? ==> d.name == ts[0])
      && (d.WrongArity? ==>
            exists i :: (0 <= i < |commands| && commands[i].name == ts[0] &&
              d.got == |ts| - 1 && d.expected == |commands[i].params| && d.got != d.expected))
      && (d.Call? ==>
            (d.index < |commands| && commands[d.index].name == ts[0] &&
             (forall j :: 0 <= j < d.index ==> commands[j].name != ts[0]) &&
             d.arguments == ts[1..] && |d.arguments| == |commands[d.index].params|))
  {
    TokensBlank(line);
  }

  /** The converse for calls: the first command with the name is called
      whenever the argument count fits. */
  lemma {:induction false} ExecuteCalls(commands: seq<Command>, line: string, i: nat)
    requires Tokens(line) != [] && i < |commands| && commands[i].name == Tokens(line)[0]
    requires forall j :: 0 <= j < i ==> commands[j].name != commands[i].name
    requires |commands[i].params| == |Tokens(line)| - 1
    ensures Execute(commands, line) == Call(i, Tokens(line)[1..])
  {
    assert FindCommand(commands, Tokens(line)[0]) == Some(i);
  }

  /** A well-formed line: the command's name and its arguments, each a
      token, joined by spaces, calls the first command with that name. */
  lemma {:induction false} ExecuteJoined(commands: seq<Command>, i: nat, args: seq<string>)
    requires i < |commands| && IsToken(commands[i].name)
    requires forall j :: 0 <= j < i ==> commands[j].name != commands[i].name
    requires |commands[i].params| == |args| && forall k :: 0 <= k < |args| ==> IsToken(args[k])
    ensures Execute(commands, JoinSpaced([commands[i].name] + args)) == Call(i, args)
  {
    var ts := [commands[i].name] + args;
    TokensJoinRoundTrip(ts);
    assert ts[1..] == args;
    ExecuteCalls(commands, JoinSpaced(ts), i);
  }

  // ---------------------------------------------------------------------
  // What execute prints

  /** One line of the help listing: six spaces, the command, and each
      parameter's identifier after a space. */
  function HelpLine(c: Command): string {
    "      " + c.name + ParamList(c.params)
  }

  function ParamList(ps: seq<string>): string {
    if ps == [] then "" else " " + ps[0] + ParamList(ps[1..])
  }

  /** One listing line per command, in declaration order. */
  function HelpListing(commands: seq<Command>): (r: seq<string>)
    ensures |r| == |commands| && forall i :: 0 <= i < |commands| ==> r[i] == HelpLine(commands[i])
  {
    if commands == [] then [] else [HelpLine(commands[0])] + HelpListing(commands[1..])
  }

  /** "parameter" takes an "s" unless the count is one. */
  function Plural(n: nat): string {
    if n == 1 then "" else "s"
  }

  /** The lines execute prints itself; a call prints whatever the
      callable prints, which is not modelled. */
  function Output(commands: seq<Command>, d: Dispatch): seq<string> {
    match d
    case NoCommandGiven => ["Error: No command given."]
    case Help => ["   Commands and arguments:"] + HelpListing(commands)
    case NoSuchCommand(name) => ["Error: No command " + name + "."]
    case WrongArity(got, expected) =>
      ["Error: Got " + JsonParse.Digits(got) + " parameter" + Plural(got) + ", expected " + JsonParse.Digits(expected) + "."]
    case Call(_, _) => []
  }

  lemma {:induction false} ParamListJoined(w: string, ps: seq<string>)
    ensures w + ParamList(ps) == JoinSpaced([w] + ps)
    decreases ps
  {
    if ps != [] {
      ParamListJoined(ps[0], ps[1..]);
      assert [ps[0]] + ps[1..] == ps;
      assert ([w] + ps)[1..] == ps;
      assert w + ParamList(ps) == w + " " + (ps[0] + ParamList(ps[1..]));
    }
  }

  /** A help line splits back into the command's name and its parameters'
      identifiers, so the listing shows exactly the line that calls it. */
  lemma {:induction false} HelpLineTokens(c: Command)
    requires IsToken(c.name) && forall k :: 0 <= k < |c.params| ==> IsToken(c.params[k])
    ensures Tokens(HelpLine(c)) == [c.name] + c.params
  {
    var indent := "      ";
    var joined := JoinSpaced([c.name] + c.params);
    ParamListJoined(c.name, c.params);
    assert HelpLine(c) == indent + joined;
    TokensJoinRoundTrip([c.name] + c.params);
    TokensSkip(indent + joined, 0, |indent|);
    TokensAfter(indent, joined);
  }

  // ---------------------------------------------------------------------
  // test_commands

  const Goodbye := Command("goodbye", [])
  const Greet := Command("greet", ["name"])
  /** test_commands: goodbye takes nothing, greet takes a name. */
  const TestCommands := [Goodbye, Greet]

  lemma {:induction false} GreetCalled()
    ensures Execute(TestCommands, "greet Bob") == Call(1, ["Bob"])
  {
    assert JoinSpaced([Greet.name] + ["Bob"]) == "greet Bob";
    ExecuteJoined(TestCommands, 1, ["Bob"]);
  }

  lemma {:induction false} GreetWithoutName()
    ensures Execute(TestCommands, "greet") == WrongArity(0, 1)
  {
    assert JoinSpaced(["greet"]) == "greet";
    TokensJoinRoundTrip(["greet"]);
    assert Tokens("greet") == ["greet"];
    assert FindCommand(TestCommands, "greet") == Some(1) by {
      assert TestCommands[0].name != "greet";
      assert TestCommands[1..] == [Greet];
    }
  }

  lemma {:induction false} GoodbyeWithArgument()
    ensures Execute(TestCommands, "goodbye now") == WrongArity(1, 0)
  {
    assert JoinSpaced(["goodbye", "now"]) == "goodbye now";
    TokensJoinRoundTrip(["goodbye", "now"]);
    assert Tokens("goodbye now") == ["goodbye", "now"];
    assert FindCommand(TestCommands, "goodbye") == Some(0);
  }

  lemma {:induction false} HelpListed()
    ensures Execute(TestCommands, " help ") == Help
    ensures Output(TestCommands, Help) == ["   Commands and arguments:", "      goodbye", "      greet name"]
  {
    HelpTokens();
    assert FindCommand(TestCommands, "help") == None by {
      assert TestCommands[0].name != "help" && TestCommands[1].name != "help";
    }
    HelpLines();
  }

  lemma {:induction false} HelpTokens()
    ensures Tokens(" help ") == ["help"]
  {
    TokensCons(" ", "help", " ");
    TokensBlank(" ");
    assert " " + "help" + " " == " help ";
  }

  lemma {:induction false} HelpLines()
    ensures HelpListing(TestCommands) == ["      goodbye", "      greet name"]
  {
    assert HelpLine(Goodbye) == "      goodbye";
    assert ParamList(["name"]) == " name" by {
      assert ["name"][1..] == [];
    }
    assert HelpLine(Greet) == "      greet name";
    assert HelpListing(TestCommands) == ["      goodbye", "      greet name"];
  }

  lemma {:induction false} UnknownCommand()
    ensures Execute(TestCommands, "hello") == NoSuchCommand("hello")
  {
    assert JoinSpaced(["hello"]) == "hello";
    TokensJoinRoundTrip(["hello"]);
    assert Tokens("hello") == ["hello"];
    assert FindCommand(TestCommands, "hello") == None by {
      assert TestCommands[0].name != "hello" && TestCommands[1].name != "hello";
    }
  }

  lemma {:induction false} GreetWithoutNameText()
    ensures Output(TestCommands, WrongArity(0, 1)) == ["Error: Got 0 parameters, expected 1."]
  {
    assert JsonParse.Digits(0) == "0" && JsonParse.Digits(1) == "1";
    ArityText0();
  }

  lemma {:induction false} ArityText0()
    ensures "Error: Got " + "0" + " parameter" + "s" + ", expected " + "1" + "." == "Error: Got 0 parameters, expected 1."
  {
  }

  lemma {:induction false} GoodbyeWithArgumentText()
    ensures Output(TestCommands, WrongArity(1, 0)) == ["Error: Got 1 parameter, expected 0."]
  {
    assert JsonParse.Digits(0) == "0" && JsonParse.Digits(1) == "1";
    ArityText1();
  }

  lemma {:induction false} ArityText1()
    ensures "Error: Got " + "1" + " parameter" + "" + ", expected " + "0" + "." == "Error: Got 1 parameter, expected 0."
  {
  }

  lemma {:induction false} UnknownCommandText()
    ensures Output(TestCommands, NoSuchCommand("hello")) == ["Error: No command hello."]
  {
    var line := "Error: No command " + "hello" + ".";
    assert Output(TestCommands, NoSuchCommand("hello")) == [line];
    assert line == "Error: No command hello.";
  }
}
