/** Windows command lines for launched programs.

    `quote_command_line_token` escapes one argument, `try_get_command_line_arguments`
    joins the tokens with spaces, and `build_command_line` puts the program in
    front.  The reference is the reader on the other side: the documented
    CommandLineToArgvW rules, written as a character-by-character parser. */
module CommandLine {
  import opened Wrappers

  // ----- The reader: how a program splits its command line -----

  function Backslashes(n: nat): (s: string)
    ensures |s| == n
  {
    if n == 0 then "" else "\\" + Backslashes(n - 1)
  }

  predicate IsSeparator(c: char) {
    c == ' ' || c == '\t'
  }

  /** Between arguments: skip separators, then read one argument. */
  function Arguments(s: string, doubled: bool): seq<string>
    decreases |s|, 1
  {
    if s == "" then []
    else if IsSeparator(s[0]) then Arguments(s[1..], doubled)
    else Argument(s, doubled, false, 0, "")
  }

  /** Inside an argument.  `run` backslashes have been seen and not yet decided: before a quote 2n of
      them stand for n and the quote toggles quoting, 2n+1 stand for n and a literal quote; before
      anything else they stand for themselves.  With `doubled`, two quotes in a row inside a quoted
      part stand for one literal quote, as newer C runtimes read them. */
  function Argument(s: string, doubled: bool, quoted: bool, run: nat, arg: string): seq<string>
    decreases |s|, 0
  {
    if s == "" then [arg + Backslashes(run)]
    else if s[0] == '\\' then Argument(s[1..], doubled, quoted, run + 1, arg)
    else if s[0] == '"' && run % 2 == 1 then Argument(s[1..], doubled, quoted, 0, arg + Backslashes(run / 2) + "\"")
    else if s[0] == '"' && doubled && quoted && |s| > 1 && s[1] == '"' then
      Argument(s[2..], doubled, quoted, 0, arg + Backslashes(run / 2) + "\"")
    else if s[0] == '"' then Argument(s[1..], doubled, !quoted, 0, arg + Backslashes(run / 2))
    else if IsSeparator(s[0]) && !quoted then [arg + Backslashes(run)] + Arguments(s[1..], doubled)
    else Argument(s[1..], doubled, quoted, 0, arg + Backslashes(run) + [s[0]])
  }

  /** The program name comes first and knows no escapes: a quoted name ends at the next quote,
      an unquoted one at the next separator. */
  function ProgramAndArguments(s: string, doubled: bool): (r: seq<string>)
    ensures r != []
  {
    if s != "" && s[0] == '"' then
      var end := 1 + FindIn(s[1..], {'"'});
      [s[1..end]] + Arguments(if end < |s| then s[end + 1..] else "", doubled)
    else
      var end := FindIn(s, {' ', '\t'});
      [s[..end]] + Arguments(s[end..], doubled)
  }

  /** The index of the first character of `s` that is in `stops`, or |s|. */
  function FindIn(s: string, stops: set<char>): (k: nat)
    ensures k <= |s|
    ensures forall i :: 0 <= i < k ==> s[i] !in stops
    ensures k < |s| ==> s[k] in stops
  {
    if s == "" || s[0] in stops then 0 else 1 + FindIn(s[1..], stops)
  }

  // ----- The writer -----

  predicate NeedsQuotes(value: string) {
    exists i :: 0 <= i < |value| && value[i] in " \t\""
  }

  /** The escaped rest of a token, when `run` backslashes are still to be written; ends with the closing quote. */
  function Escaped(value: string, run: nat): string {
    if value == "" then Backslashes(2 * run) + "\""
    else if value[0] == '\\' then Escaped(value[1..], run + 1)
    else if value[0] == '"' then Backslashes(2 * run + 1) + "\"" + Escaped(value[1..], 0)
    else Backslashes(run) + [value[0]] + Escaped(value[1..], 0)
  }

  function Quoted(value: string): string {
    if value == "" then "\"\""
    else if !NeedsQuotes(value) then value
    else "\"" + Escaped(value, 0)
  }

  method QuoteToken(value: string) returns (result: string)
    ensures result == Quoted(value)
  {
    if value == "" {
      return "\"\"";
    }
    if !NeedsQuotes(value) {
      return value;
    }
    result := "\"";
    var count := 0;
    assert value[0..] == value;
    assert result + Escaped(value, 0) == Quoted(value);
    hide Escaped, Backslashes, Quoted;
    for i := 0 to |value|
      invariant count >= 0
      invariant result + Escaped(value[i..], count) == Quoted(value)
    {
      var character := value[i];
      assert value[i..][1..] == value[i + 1..];
      EscapedStep(result, value[i..], count);
      if character == '\\' {
        count := count + 1;
        continue;
      }
      if character == '"' {
        result := result + Backslashes(count * 2 + 1);
        result := result + [character];
        count := 0;
        continue;
      }
      if count > 0 {
        result := result + Backslashes(count);
        count := 0;
      }
      result := result + [character];
    }
    assert value[|value|..] == "";
    EscapedStop(result, count);
    if count > 0 {
      result := result + Backslashes(count * 2);
    }
    result := result + "\"";
  }

  lemma {:induction false} EscapedStop(result: string, run: nat)
    ensures result + Escaped("", run) == result + Backslashes(2 * run) + "\""
    ensures run == 0 ==> result + Escaped("", run) == result + "\""
  {
  }

  lemma {:induction false} EscapedStep(result: string, value: string, run: nat)
    requires value != ""
    ensures result + Escaped(value, run) ==
            if value[0] == '\\' then result + Escaped(value[1..], run + 1)
            else if value[0] == '"' then result + Backslashes(2 * run + 1) + ['"'] + Escaped(value[1..], 0)
            else result + Backslashes(run) + [value[0]] + Escaped(value[1..], 0)
    ensures run == 0 ==> result + Backslashes(run) == result
  {
    if run == 0 {
      NoBackslashes(result);
    }
    hide Backslashes;
  }

  lemma {:induction false} NoBackslashes(result: string)
    ensures result + Backslashes(0) == result
  {
  }

  /** An element of the `args` array: a string, or the text of any other JSON value. */
  datatype Item = Text(text: string) | Other(dump: string)

  function Token(item: Item): string {
    match item
    case Text(s) => Quoted(s)
    case Other(d) => d
  }

  function Joined(items: seq<Item>): string {
    if items == [] then "" else Token(items[0]) + Tail(items[1..])
  }

  function Tail(items: seq<Item>): string {
    if items == [] then "" else " " + Token(items[0]) + Tail(items[1..])
  }

  method CommandLineArguments(items: seq<Item>) returns (r: Option<string>)
    ensures r == if items == [] then None else Some(Joined(items))
  {
    if items == [] {
      return None;
    }
    var joined := "";
    for index := 0 to |items|
      invariant if index == 0 then joined == "" else joined + Tail(items[index..]) == Joined(items)
    {
      assert items[index..][1..] == items[index + 1..];
      if index != 0 {
        TailStep(joined, items[index..]);
        joined := joined + " ";
      }
      var token;
      match items[index] {
        case Text(text) => token := QuoteToken(text);
        case Other(dump) => token := dump;
      }
      joined := joined + token;
    }
    assert joined + Tail(items[|items|..]) == joined;
    return Some(joined);
  }

  lemma {:induction false} TailStep(joined: string, items: seq<Item>)
    requires items != []
    ensures joined + Tail(items) == joined + " " + Token(items[0]) + Tail(items[1..])
  {
  }

  /** The program in front, in quotes when it contains a space. */
  method BuildCommandLine(executable: string, arguments: Option<string>) returns (line: string)
    ensures line == Program(executable) + (if arguments == None || arguments.value == "" then "" else " " + arguments.value)
  {
    var quoted := executable;
    if exists i :: 0 <= i < |executable| && executable[i] == ' ' {
      quoted := "\"" + executable + "\"";
    }
    if arguments == None || arguments.value == "" {
      return quoted;
    }
    return quoted + " " + arguments.value;
  }

  function Program(executable: string): string {
    if exists i :: 0 <= i < |executable| && executable[i] == ' ' then "\"" + executable + "\"" else executable
  }

  // ----- The round trip -----

  /** A run of backslashes is only counted. */
  lemma {:induction false} ReadBackslashes(n: nat, s: string, doubled: bool, quoted: bool, run: nat, arg: string)
    ensures Argument(Backslashes(n) + s, doubled, quoted, run, arg) == Argument(s, doubled, quoted, run + n, arg)
  {
    if n == 0 {
      assert Backslashes(0) + s == s;
    } else {
      assert (Backslashes(n) + s)[1..] == Backslashes(n - 1) + s;
      ReadBackslashes(n - 1, s, doubled, quoted, run + 1, arg);
    }
  }

  lemma {:induction false} BackslashesSum(m: nat, n: nat)
    ensures Backslashes(m) + Backslashes(n) == Backslashes(m + n)
  {
    if m > 0 {
      BackslashesSum(m - 1, n);
      assert Backslashes(m) + Backslashes(n) == "\\" + (Backslashes(m - 1) + Backslashes(n));
    }
  }

  /** A token that needs no quotes is written as it is, and any other in quotes. */
  lemma {:induction false} QuotesWhenNeeded(value: string)
    ensures (value != "" && ' ' !in value && '\t' !in value && '"' !in value) <==> Quoted(value) == value
    ensures Quoted(value) != value ==> Quoted(value)[0] == '"' && Quoted(value)[|Quoted(value)| - 1] == '"'
    ensures Quoted("") == "\"\""
  {
    if value != "" && NeedsQuotes(value) {
      EscapedEndsQuoted(value, 0);
      EscapedIsLonger(value, 0);
    }
    hide Escaped;
    if value != "" && !NeedsQuotes(value) {
      assert forall i :: 0 <= i < |value| ==> value[i] !in " \t\"";
    }
  }

  lemma {:induction false} EscapedEndsQuoted(value: string, run: nat)
    ensures var e := Escaped(value, run); e != "" && e[|e| - 1] == '"'
    decreases value
  {
    if value != "" {
      EscapedEndsQuoted(value[1..], if value[0] == '\\' then run + 1 else 0);
    }
  }

  lemma {:induction false} EscapedIsLonger(value: string, run: nat)
    ensures |Escaped(value, run)| > |value| + run
    decreases value
  {
    if value != "" {
      EscapedIsLonger(value[1..], if value[0] == '\\' then run + 1 else 0);
    }
  }

  /** Values that are not strings go on the line as their JSON text. */
  lemma {:induction false} OtherValuesVerbatim(dump: string, items: seq<Item>)
    ensures Joined([Other(dump)] + items) == dump + Tail(items)
    ensures Tail([Other(dump)] + items) == " " + dump + Tail(items)
  {
    assert ([Other(dump)] + items)[1..] == items;
  }

  /** What may follow a token: the end, or a separator. */
  predicate EndsToken(rest: string) {
    rest == "" || rest[0] == ' '
  }

  /** 2n+1 backslashes and a quote: n backslashes and a literal quote. */
  lemma {:induction false} ReadLiteralQuote(n: nat, s: string, doubled: bool, quoted: bool, arg: string)
    ensures Argument(Backslashes(2 * n + 1) + "\"" + s, doubled, quoted, 0, arg)
         == Argument(s, doubled, quoted, 0, arg + Backslashes(n) + "\"")
  {
    var t := "\"" + s;
    assert Backslashes(2 * n + 1) + "\"" + s == Backslashes(2 * n + 1) + t && t[1..] == s;
    ReadBackslashes(2 * n + 1, t, doubled, quoted, 0, arg);
  }

  /** 2n backslashes and the closing quote: n backslashes. */
  lemma {:induction false} ReadClosing(n: nat, rest: string, doubled: bool, arg: string)
    requires EndsToken(rest)
    ensures Argument(Backslashes(2 * n) + "\"" + rest, doubled, true, 0, arg)
         == Argument(rest, doubled, false, 0, arg + Backslashes(n))
  {
    var t := "\"" + rest;
    assert Backslashes(2 * n) + "\"" + rest == Backslashes(2 * n) + t && t[1..] == rest;
    ReadBackslashes(2 * n, t, doubled, true, 0, arg);
  }

  /** Backslashes before any other character stand for themselves. */
  lemma {:induction false} ReadOrdinary(n: nat, c: char, s: string, doubled: bool, arg: string)
    requires c != '"' && c != '\\'
    ensures Argument(Backslashes(n) + [c] + s, doubled, true, 0, arg)
         == Argument(s, doubled, true, 0, arg + Backslashes(n) + [c])
  {
    var t := [c] + s;
    assert Backslashes(n) + [c] + s == Backslashes(n) + t && t[1..] == s;
    ReadBackslashes(n, t, doubled, true, 0, arg);
  }

  /** One more pending backslash is the same as one more backslash in the argument. */
  lemma {:induction false} PendingBackslash(arg: string, run: nat, value: string)
    requires value != "" && value[0] == '\\'
    ensures arg + Backslashes(run + 1) + value[1..] == arg + Backslashes(run) + value
  {
    BackslashesSum(run, 1);
    assert Backslashes(1) == "\\" + Backslashes(0) == "\\";
    assert value == "\\" + value[1..];
  }

  lemma {:induction false} TakenCharacter(arg: string, value: string)
    requires value != ""
    ensures arg + [value[0]] + Backslashes(0) + value[1..] == arg + value
  {
  }

  lemma {:induction false} EscapedQuote(value: string, run: nat, rest: string)
    requires value != "" && value[0] == '"'
    ensures Escaped(value, run) + rest == Backslashes(2 * run + 1) + "\"" + (Escaped(value[1..], 0) + rest)
  {
  }

  lemma {:induction false} EscapedOrdinary(value: string, run: nat, rest: string)
    requires value != "" && value[0] != '"' && value[0] != '\\'
    ensures Escaped(value, run) + rest == Backslashes(run) + [value[0]] + (Escaped(value[1..], 0) + rest)
  {
  }

  lemma {:induction false} EscapedEnd(run: nat, rest: string, arg: string)
    ensures Escaped("", run) + rest == Backslashes(2 * run) + "\"" + rest
    ensures arg + Backslashes(run) + "" == arg + Backslashes(run)
  {
  }

  /** Reading the escaped rest of a token inside quotes gives back the pending backslashes and the rest itself. */
  lemma {:induction false} ReadEscaped(value: string, run: nat, rest: string, doubled: bool, arg: string)
    requires EndsToken(rest)
    ensures Argument(Escaped(value, run) + rest, doubled, true, 0, arg)
         == Argument(rest, doubled, false, 0, arg + Backslashes(run) + value)
    decreases value
  {
    hide Argument, Backslashes;
    if value == "" {
      EscapedEnd(run, rest, arg);
      ReadClosing(run, rest, doubled, arg);
    } else if value[0] == '\\' {
      ReadEscaped(value[1..], run + 1, rest, doubled, arg);
      PendingBackslash(arg, run, value);
    } else {
      hide Escaped;
      var s := Escaped(value[1..], 0) + rest;
      if value[0] == '"' {
        EscapedQuote(value, run, rest);
        ReadLiteralQuote(run, s, doubled, true, arg);
      } else {
        EscapedOrdinary(value, run, rest);
        ReadOrdinary(run, value[0], s, doubled, arg);
      }
      ReadEscaped(value[1..], 0, rest, doubled, arg + Backslashes(run) + [value[0]]);
      TakenCharacter(arg + Backslashes(run), value);
    }
  }

  /** A token without separators and quotes reads as itself. */
  lemma {:induction false} ReadPlain(value: string, run: nat, rest: string, doubled: bool, arg: string)
    requires EndsToken(rest)
    requires forall i :: 0 <= i < |value| ==> value[i] !in " \t\""
    ensures Argument(value + rest, doubled, false, run, arg)
         == Argument(rest, doubled, false, 0, arg + Backslashes(run) + value)
    decreases value
  {
    if value == "" {
      assert value + rest == rest;
      assert arg + Backslashes(run) + value + Backslashes(0) == arg + Backslashes(run);
    } else {
      assert (value + rest)[1..] == value[1..] + rest;
      if value[0] == '\\' {
        ReadPlain(value[1..], run + 1, rest, doubled, arg);
        PendingBackslash(arg, run, value);
      } else {
        ReadPlain(value[1..], 0, rest, doubled, arg + Backslashes(run) + [value[0]]);
        TakenCharacter(arg + Backslashes(run), value);
      }
    }
  }

  /** One quoted token, followed by the end or a space, reads back as exactly the value. */
  lemma {:induction false} ReadToken(value: string, rest: string, doubled: bool)
    requires EndsToken(rest)
    ensures Arguments(Quoted(value) + rest, doubled) == [value] + Arguments(rest, doubled)
  {
    if value == "" {
      ReadEmptyToken(rest, doubled);
    } else if !NeedsQuotes(value) {
      assert value[0] !in " \t\"";
      ReadPlain(value, 0, rest, doubled, "");
      assert "" + Backslashes(0) + value == value;
    } else {
      ReadQuotedToken(value, rest, doubled);
    }
    assert value + Backslashes(0) == value;
  }

  lemma {:induction false} ReadEmptyToken(rest: string, doubled: bool)
    requires EndsToken(rest)
    ensures Arguments("\"\"" + rest, doubled) == Argument(rest, doubled, false, 0, "")
  {
    var s := "\"\"" + rest;
    assert s[1..] == Backslashes(2 * 0) + "\"" + rest;
    assert "" + Backslashes(0) == "";
    assert Argument(s, doubled, false, 0, "") == Argument(s[1..], doubled, true, 0, "");
    ReadClosing(0, rest, doubled, "");
  }

  lemma {:induction false} ReadQuotedToken(value: string, rest: string, doubled: bool)
    requires EndsToken(rest)
    ensures Arguments("\"" + Escaped(value, 0) + rest, doubled) == Argument(rest, doubled, false, 0, value)
  {
    var s := "\"" + Escaped(value, 0) + rest;
    assert s[1..] == Escaped(value, 0) + rest;
    assert "" + Backslashes(0) == "" && "" + Backslashes(0) + value == value;
    assert Argument(s, doubled, false, 0, "") == Argument(s[1..], doubled, true, 0, "");
    ReadEscaped(value, 0, rest, doubled, "");
  }

  function Texts(values: seq<string>): (items: seq<Item>)
    ensures |items| == |values|
  {
    seq(|values|, i requires 0 <= i < |values| => Text(values[i]))
  }

  lemma {:induction false} ReadTail(values: seq<string>, doubled: bool)
    ensures EndsToken(Tail(Texts(values)))
    ensures Arguments(Tail(Texts(values)), doubled) == values
  {
    if values != [] {
      hide Argument, Arguments, Quoted, Tail;
      ReadTail(values[1..], doubled);
      var items := Texts(values);
      assert items[1..] == Texts(values[1..]);
      var s := Quoted(values[0]) + Tail(items[1..]);
      TailHead(items);
      SkipSpace(s, doubled);
      ReadToken(values[0], Tail(items[1..]), doubled);
      assert [values[0]] + values[1..] == values;
    }
  }

  lemma {:induction false} TailHead(items: seq<Item>)
    requires items != []
    ensures Tail(items) == " " + (Token(items[0]) + Tail(items[1..]))
  {
    hide Token;
  }

  lemma {:induction false} SkipSpace(s: string, doubled: bool)
    ensures Arguments(" " + s, doubled) == Arguments(s, doubled)
  {
    hide Argument;
    assert (" " + s)[1..] == s;
  }

  /** Every list of string arguments survives quoting, joining and splitting, under either
      reading of doubled quotes. */
  lemma {:induction false} ArgumentsRoundTrip(values: seq<string>, doubled: bool)
    ensures Arguments(Joined(Texts(values)), doubled) == values
  {
    if values != [] {
      var items := Texts(values);
      assert items[1..] == Texts(values[1..]);
      ReadTail(values[1..], doubled);
      ReadToken(values[0], Tail(items[1..]), doubled);
    }
  }

  lemma {:induction false} FindInPrefix(a: string, b: string, stops: set<char>)
    requires forall i :: 0 <= i < |a| ==> a[i] !in stops
    requires b == "" || b[0] in stops
    ensures FindIn(a + b, stops) == |a|
  {
    if a == "" {
      assert a + b == b;
    } else {
      assert (a + b)[1..] == a[1..] + b;
      FindInPrefix(a[1..], b, stops);
    }
  }

  /** When the program name is read back: a name with a space is quoted, and must hold no quote; any other
      is written as it is, and must hold no tab and not start with a quote. */
  predicate ReadsBack(executable: string) {
    if ' ' in executable then '"' !in executable
    else '\t' !in executable && (executable == "" || executable[0] != '"')
  }

  lemma {:induction false} ReadQuotedProgram(executable: string, rest: string, doubled: bool)
    requires '"' !in executable
    ensures ProgramAndArguments("\"" + executable + "\"" + rest, doubled) == [executable] + Arguments(rest, doubled)
  {
    hide Arguments, FindIn;
    var s := "\"" + executable + "\"" + rest;
    assert s[1..] == executable + ("\"" + rest);
    FindInPrefix(executable, "\"" + rest, {'"'});
    assert s[1..|executable| + 1] == executable && s[|executable| + 2..] == rest;
  }

  lemma {:induction false} ReadPlainProgram(executable: string, rest: string, doubled: bool)
    requires ' ' !in executable && ReadsBack(executable) && EndsToken(rest)
    ensures ProgramAndArguments(executable + rest, doubled) == [executable] + Arguments(rest, doubled)
  {
    hide Arguments, FindIn;
    var s := executable + rest;
    FindInPrefix(executable, rest, {' ', '\t'});
    assert s != "" ==> s[0] == if executable == "" then rest[0] else executable[0];
    assert s[..|executable|] == executable && s[|executable|..] == rest;
  }

  /** Any other name is read as something else: up to a quote inside it, up to a tab, or without its quote. */
  lemma {:induction false} MisreadProgram(executable: string, rest: string, doubled: bool)
    requires !ReadsBack(executable)
    ensures ProgramAndArguments(Program(executable) + rest, doubled)[0] != executable
  {
    hide Arguments;
    var s := Program(executable) + rest;
    if ' ' in executable {
      var i :| 0 <= i < |executable| && executable[i] == '"';
      assert s[1..][i] == '"' && s[0] == '"';
      assert FindIn(s[1..], {'"'}) <= i;
    } else if executable[0] == '"' {
      assert s[0] == '"';
      var name := s[1..1 + FindIn(s[1..], {'"'})];
      assert forall k :: 0 <= k < |name| ==> name[k] == s[1..][k] && name[k] != '"';
    } else {
      var i :| 0 <= i < |executable| && executable[i] == '\t';
      assert s[i] == '\t' && s[0] == executable[0];
      assert FindIn(s, {' ', '\t'}) <= i;
    }
  }

  lemma {:induction false} ReadProgram(executable: string, rest: string, doubled: bool)
    requires EndsToken(rest)
    ensures var read := ProgramAndArguments(Program(executable) + rest, doubled);
            && (ReadsBack(executable) ==> read == [executable] + Arguments(rest, doubled))
            && (read[0] == executable <==> ReadsBack(executable))
  {
    if !ReadsBack(executable) {
      MisreadProgram(executable, rest, doubled);
    } else if ' ' in executable {
      ReadQuotedProgram(executable, rest, doubled);
    } else {
      ReadPlainProgram(executable, rest, doubled);
    }
    hide Arguments;
  }

  /** The whole launch command line: the started program sees its own path and exactly the given arguments,
      exactly when the path is one that is read back. */
  method LaunchCommandLine(executable: string, values: seq<string>) returns (line: string)
    ensures forall doubled :: ProgramAndArguments(line, doubled) == [executable] + values <==> ReadsBack(executable)
  {
    hide Arguments, ProgramAndArguments, ReadsBack;
    var arguments := CommandLineArguments(Texts(values));
    line := BuildCommandLine(executable, arguments);
    forall doubled
      ensures ProgramAndArguments(line, doubled) == [executable] + values <==> ReadsBack(executable)
    {
      LineIsProgramAndTail(executable, values, arguments, line);
      ReadTail(values, doubled);
      ReadProgram(executable, Tail(Texts(values)), doubled);
    }
  }

  lemma {:induction false} LineIsProgramAndTail(executable: string, values: seq<string>, arguments: Option<string>, line: string)
    requires arguments == if values == [] then None else Some(Joined(Texts(values)))
    requires line == Program(executable) + (if arguments == None || arguments.value == "" then "" else " " + arguments.value)
    ensures line == Program(executable) + Tail(Texts(values))
  {
    var items := Texts(values);
    if values == [] {
      assert Tail(items) == "";
    } else {
      TokenOfText(items[0].text);
      TailOfJoined(items);
    }
    hide Tail, Joined, Token, Program, Texts;
  }

  lemma {:induction false} TokenOfText(text: string)
    ensures Token(Text(text)) != ""
  {
    hide Escaped;
  }

  lemma {:induction false} TailOfJoined(items: seq<Item>)
    requires items != [] && Token(items[0]) != ""
    ensures Tail(items) == " " + Joined(items) && Joined(items) != ""
  {
    hide Token;
  }
}
