/** All that a unit says, read line by line by the rules of unit files. The
    program itself reads the command alone. */
module UnitLines {
  import opened Wrappers
  import opened Seqs
  import opened Texts
  import opened ServiceFiles
  import opened UnitLaws

  /** What one line says: a section; the path a start waits for; the command; a
      variable of the environment; or any other setting. */
  datatype Said =
    | Section(name: string)
    | Path(path: string)
    | Runs(args: Args)
    | Sets(variable: Option<string>)
    | Other(key: string, value: string)

  // ----- reading a unit

  /** Every doubled `%` read as one. */
  function Undoubled(s: string): string {
    if |s| < 2 then s
    else if s[0] == '%' && s[1] == '%' then "%" + Undoubled(s[2..])
    else [s[0]] + Undoubled(s[1..])
  }

  /** The text up to the closing quote, where a `$` is only a `$`. */
  function Value(s: string): Option<(string, string)>
    decreases |s|
  {
    if s == "" then None
    else if s[0] == '"' then Some(("", s[1..]))
    else if s[0] == '\\' then
      if |s| == 1 then None else PushAll([if s[1] == 'n' then '\n' else s[1]], Value(s[2..]))
    else if s[0] == '%' && |s| > 1 && s[1] == '%' then PushAll("%", Value(s[2..]))
    else PushAll([s[0]], Value(s[1..]))
  }

  /** A value in quotes, and nothing after them. */
  function InQuotes(s: string): Option<string> {
    if s == "" || s[0] != '"' || Value(s[1..]).None? || Value(s[1..]).value.1 != "" then None
    else Some(Value(s[1..]).value.0)
  }

  function Setting(key: string, value: string): Said {
    if key == "ConditionPathExists" then Path(Undoubled(value))
    else if key == "ExecStart" then Runs(ReadArgs(Trim(value)))
    else if key == "Environment" then Sets(InQuotes(value))
    else Other(key, value)
  }

  function LineSays(line: string): Said
    requires line != ""
  {
    var at := Position(line, '=');
    if line[0] == '[' then Section(line)
    else if at.None? then Other(line, "")
    else Setting(line[..at.value], line[at.value + 1..])
  }

  /** What the lines say, in order; a blank one says nothing. */
  function Says(lines: seq<string>): seq<Said> {
    if lines == [] then []
    else if lines[0] == "" then Says(lines[1..])
    else [LineSays(lines[0])] + Says(lines[1..])
  }

  // ----- lines

  /** A line without its end, which may be `\r\n`. */
  function Cut(line: string): string {
    if line != "" && line[|line| - 1] == '\r' then line[..|line| - 1] else line
  }

  lemma LineIsSaid(line: string, rest: string)
    requires '\n' !in line && Cut(line) != ""
    ensures Says(Lines(line + "\n" + rest)) == [LineSays(Cut(line))] + Says(Lines(rest))
  {
    hide Lines, LineSays;
    LinesFirst(line, rest);
    assert Chomp(line + "\n") == Cut(line) by {
      assert (line + "\n")[..|line|] == line;
    }
  }

  lemma BlankSaysNothing(rest: string)
    ensures Says(Lines("" + "\n" + rest)) == Says(Lines(rest))
  {
    hide Lines;
    LinesFirst("", rest);
    assert Chomp("" + "\n") == "";
  }

  lemma SettingIsSaid(key: string, value: string)
    requires key != "" && key[0] != '[' && '=' !in key
    ensures LineSays(key + "=" + value) == Setting(key, value)
  {
    hide Setting;
    var line := key + "=" + value;
    assert line == key + (['='] + value);
    PositionAfter(key, ['='] + value, '=');
    assert line[..|key|] == key && line[|key| + 1..] == value;
  }

  lemma KeyedLine(key: string, value: string, rest: string)
    requires key != "" && key[0] != '[' && '=' !in key && '\n' !in key && '\n' !in value
    ensures Says(Lines(key + "=" + value + "\n" + rest)) == [Setting(key, Cut(value))] + Says(Lines(rest))
  {
    hide Lines, Setting, LineSays;
    assert Cut(key + "=" + value) == key + "=" + Cut(value);
    SettingIsSaid(key, Cut(value));
    LineIsSaid(key + "=" + value, rest);
  }

  // ----- values

  lemma ValueEnds(after: string)
    ensures Value("\"" + after) == Some(("", after))
  {
  }

  lemma ValueChar(c: char, rest: string)
    ensures Value(QuoteChar(c, false) + rest) == PushAll([c], Value(rest))
  {
    var q := QuoteChar(c, false);
    assert (q + rest)[|q|..] == rest;
  }

  /** A quoted value reads to the value, and leaves what follows it. */
  lemma {:induction false} ValueReads(value: string, after: string)
    ensures Value(QuoteText(value, false) + "\"" + after) == Some((value, after))
    decreases |value|
  {
    hide Value, QuoteChar;
    if value == "" {
      assert QuoteText(value, false) + "\"" + after == "\"" + after;
      ValueEnds(after);
    } else {
      var rest := QuoteText(value[1..], false) + "\"" + after;
      ValueReads(value[1..], after);
      ValueChar(value[0], rest);
      assert QuoteText(value, false) + "\"" + after == QuoteChar(value[0], false) + rest;
      assert [value[0]] + value[1..] == value;
    }
  }

  lemma {:induction false} ValueIsOneLine(value: string)
    ensures '\n' !in QuoteText(value, false)
    decreases |value|
  {
    if value == "" {
    } else {
      ValueIsOneLine(value[1..]);
    }
  }

  lemma VariableIsSet(value: string)
    ensures Setting("Environment", Quote(value, false)) == Sets(Some(value))
  {
    hide Value, QuoteText, Undoubled, ReadArgs, Trim;
    ValueReads(value, "");
    assert Quote(value, false)[1..] == QuoteText(value, false) + "\"" + "";
  }

  lemma CommandRuns(args: seq<string>)
    ensures Setting("ExecStart", Command(args)) == Runs(Success(args))
  {
    hide Command, Undoubled, ReadArgs, Trim;
    CommandIsQuoted(args);
    TrimNothing(Command(args));
    CommandReads(args);
  }

  lemma {:induction false} UndoubledDoubled(s: string)
    ensures Undoubled(Doubled(s)) == s
    decreases |s|
  {
    if s == "" {
    } else {
      UndoubledDoubled(s[1..]);
      var rest := Doubled(s[1..]);
      if s[0] == '%' {
        assert Doubled(s)[2..] == rest;
      } else {
        assert Doubled(s)[1..] == rest;
        UndoubledPush(s[0], rest);
      }
      assert [s[0]] + s[1..] == s;
    }
  }

  lemma UndoubledPush(c: char, rest: string)
    requires c != '%'
    ensures Undoubled([c] + rest) == [c] + Undoubled(rest)
  {
    assert ([c] + rest)[1..] == rest;
    if rest == "" {
      assert [c] + rest == [c] + Undoubled(rest);
    }
  }

  // ----- the whole unit

  const DESCRIPTION: string := "cases web inbox (cases serve)"

  function Variables(env: seq<(string, string)>): seq<Said> {
    seq(|env|, i requires 0 <= i < |env| => Sets(Some(env[i].0 + "=" + env[i].1)))
  }

  function Install(): seq<Said> {
    [Other("Restart", "always"), Other("RestartSec", "5"), Section("[Install]"), Other("WantedBy", "default.target")]
  }

  /** What a unit is to say of a service. */
  function Service(spec: Spec): seq<Said> {
    [Section("[Unit]"), Other("Description", DESCRIPTION), Path(Program(spec)),
     Section("[Service]"), Runs(Success(spec.args))] + Variables(spec.env) + Install()
  }

  lemma NothingSaid()
    ensures Says(Lines("")) == []
  {
  }

  const WANTED: string := "WantedBy" + "=" + "default.target" + "\n" + ""
  const INSTALL: string := "" + "\n" + ("[Install]" + "\n" + WANTED)

  lemma WantedIsSaid()
    ensures Says(Lines(INSTALL)) == [Section("[Install]"), Other("WantedBy", "default.target")]
  {
    hide Lines, Says, LineSays, Setting;
    BlankSaysNothing("[Install]" + "\n" + WANTED);
    LineIsSaid("[Install]", WANTED);
    SectionsAreSaid();
    KeyedLine("WantedBy", "default.target", "");
    NothingSaid();
    PlainSettings();
  }

  lemma InstallIsSaid()
    ensures Says(Lines(UNIT_TAIL)) == Install()
  {
    hide Lines, Says, LineSays, Setting, INSTALL;
    TailParts();
    KeyedLine("Restart", "always", "RestartSec" + "=" + "5" + "\n" + INSTALL);
    KeyedLine("RestartSec", "5", INSTALL);
    WantedIsSaid();
    PlainSettings();
  }

  lemma TailParts()
    ensures
      UNIT_TAIL == "Restart" + "=" + "always" + "\n" + ("RestartSec" + "=" + "5" + "\n" + INSTALL)
  {
    assert "Restart=always\n" == "Restart" + "=" + "always" + "\n";
    assert "RestartSec=5\n" == "RestartSec" + "=" + "5" + "\n";
    assert "[Install]\n" == "[Install]" + "\n" && "\n" == "" + "\n";
    assert "WantedBy=default.target\n" == "WantedBy" + "=" + "default.target" + "\n";
  }

  lemma SectionsAreSaid()
    ensures LineSays("[Install]") == Section("[Install]") && LineSays("[Service]") == Section("[Service]")
    ensures LineSays("[Unit]") == Section("[Unit]")
  {
    hide Position;
  }

  lemma PlainSettings()
    ensures Setting("Restart", "always") == Other("Restart", "always")
    ensures Setting("RestartSec", "5") == Other("RestartSec", "5")
    ensures Setting("WantedBy", "default.target") == Other("WantedBy", "default.target")
    ensures Setting("Description", DESCRIPTION) == Other("Description", DESCRIPTION)
  {
    hide Undoubled, InQuotes, ReadArgs, Trim;
  }

  lemma VariableIsSaid(value: string, rest: string)
    ensures Says(Lines("Environment=" + Quote(value, false) + "\n" + rest)) == [Sets(Some(value))] + Says(Lines(rest))
  {
    hide Lines, Says, Quote, Setting;
    QuotedIsOneLine(value);
    assert "Environment=" == "Environment" + "=";
    KeyedLine("Environment", Quote(value, false), rest);
    VariableIsSet(value);
  }

  lemma {:induction false} VariablesAreSaid(env: seq<(string, string)>)
    ensures Says(Lines(EnvironmentLines(env) + UNIT_TAIL)) == Variables(env) + Install()
    decreases |env|
  {
    hide Lines, Says, Quote, Install, UNIT_TAIL;
    if env == [] {
      assert EnvironmentLines(env) + UNIT_TAIL == UNIT_TAIL;
      assert Variables([]) + Install() == Install();
      InstallIsSaid();
    } else {
      var value, rest := env[0].0 + "=" + env[0].1, EnvironmentLines(env[1..]) + UNIT_TAIL;
      VariablesAreSaid(env[1..]);
      VariableIsSaid(value, rest);
      assert EnvironmentLines(env) + UNIT_TAIL == "Environment=" + Quote(value, false) + "\n" + rest;
      assert [Sets(Some(value))] + (Variables(env[1..]) + Install()) == Variables(env) + Install();
    }
  }

  lemma QuotedIsOneLine(value: string)
    ensures '\n' !in Quote(value, false) && Quote(value, false)[|Quote(value, false)| - 1] == '"'
  {
    hide QuoteText;
    ValueIsOneLine(value);
  }

  /** The unit from the line that names its program on. */
  lemma ServiceIsSaid(spec: Spec)
    ensures
      Says(Lines(AfterProgram(spec))) ==
      [Section("[Service]"), Runs(Success(spec.args))] + (Variables(spec.env) + Install())
  {
    hide Lines, Says, LineSays, Setting, Command, EnvironmentLines, UNIT_TAIL, Install, Variables;
    var more := EnvironmentLines(spec.env) + UNIT_TAIL;
    var command := EXEC + Command(spec.args) + "\n" + more;
    CommandIsQuoted(spec.args);
    BlankSaysNothing("[Service]" + "\n" + command);
    LineIsSaid("[Service]", command);
    SectionsAreSaid();
    assert EXEC == "ExecStart" + "=";
    KeyedLine("ExecStart", Command(spec.args), more);
    CommandRuns(spec.args);
    VariablesAreSaid(spec.env);
  }

  lemma DescriptionParts()
    ensures "Description=cases web inbox (cases serve)" == "Description" + "=" + DESCRIPTION
  {
    var key := "Description" + "=";
    assert key == "Description=";
    assert "Description=cases web inbox (cases serve)" == "Description=" + DESCRIPTION;
  }

  lemma DescriptionIsOneLine()
    ensures '\n' !in DESCRIPTION && Cut(DESCRIPTION) == DESCRIPTION
  {
    assert forall i | 0 <= i < |DESCRIPTION| :: DESCRIPTION[i] != '\n' && DESCRIPTION[i] != '\r';
  }

  lemma DescriptionIsSaid(rest: string)
    ensures
      Says(Lines("[Unit]" + "\n" + ("Description=cases web inbox (cases serve)" + "\n" + rest))) ==
      [Section("[Unit]"), Other("Description", DESCRIPTION)] + Says(Lines(rest))
  {
    hide Lines, Says, LineSays, Setting, DESCRIPTION;
    DescriptionParts();
    DescriptionIsOneLine();
    LineIsSaid("[Unit]", "Description" + "=" + DESCRIPTION + "\n" + rest);
    SectionsAreSaid();
    KeyedLine("Description", DESCRIPTION, rest);
    PlainSettings();
  }

  lemma {:induction false} DoubledParts(a: string, b: string)
    ensures Doubled(a + b) == Doubled(a) + Doubled(b)
    decreases |a|
  {
    if a == "" {
      assert a + b == b;
    } else {
      DoubledParts(a[1..], b);
      assert (a + b)[1..] == a[1..] + b;
    }
  }

  lemma {:induction false} DoubledIsOneLine(s: string)
    ensures '\n' in Doubled(s) <==> '\n' in s
    decreases |s|
  {
    if s == "" {
    } else {
      DoubledIsOneLine(s[1..]);
    }
  }

  lemma DoubledCut(s: string)
    ensures Cut(Doubled(s)) == Doubled(Cut(s))
  {
    if s != "" {
      var init, last := s[..|s| - 1], [s[|s| - 1]];
      assert s == init + last;
      DoubledParts(init, last);
      assert Doubled(last) == (if last[0] == '%' then "%%" else last) by {
        assert last[1..] == "";
      }
    }
  }

  /** The path of a line that holds so much of a program. */
  lemma PathIsSaid(program: string, rest: string)
    requires '\n' !in program
    ensures Says(Lines(CONDITION + Doubled(program) + "\n" + rest)) == [Path(Cut(program))] + Says(Lines(rest))
  {
    hide Lines, Says, Undoubled, Doubled, ReadArgs, Trim, InQuotes, Cut;
    assert CONDITION == "ConditionPathExists" + "=";
    DoubledIsOneLine(program);
    DoubledCut(program);
    UndoubledDoubled(Cut(program));
    KeyedLine("ConditionPathExists", Doubled(program), rest);
  }

  /** A program of more than one line is cut at its first. */
  lemma PathIsCut(program: string, rest: string) returns (path: string)
    requires '\n' in program
    ensures |path| < |program|
    ensures [Path(path)] <= Says(Lines(CONDITION + Doubled(program) + "\n" + rest))
  {
    hide Lines, Says, Doubled, Position;
    var at := Position(program, '\n').value;
    var first, more := program[..at], program[at + 1..];
    assert program == first + ("\n" + more);
    DoubledParts(first, "\n" + more);
    DoubledParts("\n", more);
    assert Doubled("\n") == "\n" by {
      NothingDoubled("\n");
    }
    path := Cut(first);
    PathIsSaid(first, Doubled(more) + "\n" + rest);
    assert CONDITION + Doubled(program) + "\n" + rest ==
           CONDITION + Doubled(first) + "\n" + (Doubled(more) + "\n" + rest);
  }

  /** A unit says just what its specification does, line by line, in order, and
      no more, exactly when its program holds no line break and does not end
      with a carriage return. */
  lemma UnitSays(spec: Spec)
    ensures
      Says(Lines(UnitText(spec))) == Service(spec) <==>
      var p := Program(spec);
      '\n' !in p && (p == "" || p[|p| - 1] != '\r')
  {
    hide Lines, Says, UnitText, AfterProgram, Doubled, Install, Variables, DESCRIPTION;
    var p := Program(spec);
    UnitParts(spec);
    DescriptionIsSaid(CONDITION + Doubled(p) + "\n" + AfterProgram(spec));
    if '\n' in p {
      var path := PathIsCut(p, AfterProgram(spec));
      assert Says(Lines(UnitText(spec)))[2] == Path(path);
    } else {
      PathIsSaid(p, AfterProgram(spec));
      ServiceIsSaid(spec);
      assert Says(Lines(UnitText(spec)))[2] == Path(Cut(p));
    }
  }
}
