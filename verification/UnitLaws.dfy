/** A unit gives back the arguments it was written with exactly when its
    program hides no `ExecStart=` line of its own. */
module UnitLaws {
  import opened Wrappers
  import opened Seqs
  import opened Texts
  import opened ServiceFiles

  /** What a program that breaks the unit holds. */
  const HIDDEN: string := "\n" + EXEC

  // ----- quoting

  /** A quoted value reads to the value, and leaves what follows it. */
  lemma {:induction false} QuoteReads(value: string, after: string)
    ensures Quoted(QuoteText(value, true) + "\"" + after) == Some((value, after))
    decreases |value|
  {
    hide Quoted, QuoteChar;
    if value == "" {
      QuoteEnds(after);
    } else {
      var rest := QuoteText(value[1..], true) + "\"" + after;
      QuoteReads(value[1..], after);
      CharReads(value[0], rest);
      assert QuoteText(value, true) + "\"" + after == QuoteChar(value[0], true) + rest;
      assert [value[0]] + value[1..] == value;
    }
  }

  lemma QuoteEnds(after: string)
    ensures Quoted("" + "\"" + after) == Some(("", after))
  {
    assert ("" + "\"" + after)[1..] == after;
  }

  lemma CharReads(c: char, rest: string)
    ensures Quoted(QuoteChar(c, true) + rest) == PushAll([c], Quoted(rest))
  {
    var q := QuoteChar(c, true);
    assert (q + rest)[|q|..] == rest;
  }

  lemma {:induction false} CommandReads(args: seq<string>)
    ensures ReadArgs(Command(args)) == Success(args)
    decreases |args|
  {
    hide ReadArgs, QuoteText, Quoted;
    if args == [] {
      NoArgs();
    } else {
      var after := if |args| == 1 then "" else " " + Command(args[1..]);
      assert Command(args) == "\"" + (QuoteText(args[0], true) + "\"" + after);
      QuoteReads(args[0], after);
      ArgReads(args[0], QuoteText(args[0], true) + "\"" + after, after);
      CommandReads(args[1..]);
      CommandIsQuoted(args[1..]);
      if |args| == 1 {
        TrimPast("", "");
      } else {
        TrimPast(" ", Command(args[1..]));
      }
      assert [args[0]] + args[1..] == args;
    }
  }

  lemma NoArgs()
    ensures ReadArgs("") == Success([])
  {
  }

  lemma ArgReads(arg: string, text: string, after: string)
    requires Quoted(text) == Some((arg, after))
    ensures ReadArgs("\"" + text) == Prepend([arg], ReadArgs(TrimLeft(after)))
  {
    assert ("\"" + text)[1..] == text;
  }

  /** A command is one line, with a quote at each end. */
  lemma {:induction false} CommandIsQuoted(args: seq<string>)
    ensures '\n' !in Command(args)
    ensures var s := Command(args); if args == [] then s == "" else s != "" && s[0] == '"' == s[|s| - 1]
    decreases |args|
  {
    if args == [] {
    } else {
      QuoteIsOneLine(args[0]);
      CommandIsQuoted(args[1..]);
      hide QuoteText;
    }
  }

  lemma {:induction false} QuoteIsOneLine(value: string)
    ensures '\n' !in QuoteText(value, true)
    decreases |value|
  {
    if value == "" {
    } else {
      QuoteIsOneLine(value[1..]);
    }
  }

  // ----- doubling

  lemma {:induction false} DoubledStarts(s: string, what: string)
    requires '%' !in what
    ensures what <= Doubled(s) <==> what <= s
    decreases |what|
  {
    if what == "" || s == "" {
    } else {
      DoubledStarts(s[1..], what[1..]);
      assert s == [s[0]] + s[1..] && what == [what[0]] + what[1..];
    }
  }

  /** Doubling hides no line and makes none. */
  lemma {:induction false} DoubledHides(s: string)
    ensures Find(Doubled(s), HIDDEN).Some? <==> Find(s, HIDDEN).Some?
    decreases |s|
  {
    if s == "" {
    } else {
      DoubledHides(s[1..]);
      DoubledStarts(s, HIDDEN);
      if s[0] == '%' {
        FindPast("%%", Doubled(s[1..]), HIDDEN);
      } else {
        assert Doubled(s)[1..] == Doubled(s[1..]);
      }
    }
  }

  // ----- how much of a text is not doubled

  /** The characters that are not `%`. */
  function Weight(s: string): nat {
    if s == "" then 0 else (if s[0] == '%' then 0 else 1) + Weight(s[1..])
  }

  lemma {:induction false} WeightAdds(a: string, b: string)
    ensures Weight(a + b) == Weight(a) + Weight(b)
    decreases |a|
  {
    if a == "" {
      assert a + b == b;
    } else {
      WeightAdds(a[1..], b);
      assert (a + b)[1..] == a[1..] + b;
    }
  }

  lemma {:induction false} DoublingWeighsNothing(s: string)
    ensures Weight(Doubled(s)) == Weight(s)
    decreases |s|
  {
    if s == "" {
    } else {
      DoublingWeighsNothing(s[1..]);
      WeightAdds(if s[0] == '%' then "%%" else [s[0]], Doubled(s[1..]));
    }
  }

  lemma {:induction false} TrimLeftWeighs(s: string)
    ensures Weight(TrimLeft(s)) <= Weight(s)
    decreases |s|
  {
    if s == "" || !White(s[0]) {
    } else {
      TrimLeftWeighs(s[1..]);
    }
  }

  lemma {:induction false} TrimRightWeighs(s: string)
    ensures Weight(TrimRight(s)) <= Weight(s)
    decreases |s|
  {
    if s == "" || !White(s[|s| - 1]) {
    } else {
      var init := s[..|s| - 1];
      TrimRightWeighs(init);
      WeightAdds(init, [s[|s| - 1]]);
      assert s == init + [s[|s| - 1]];
    }
  }

  /** What is read from quotes weighs no more than what it is read from. */
  lemma {:induction false} QuotedWeighs(s: string)
    requires Quoted(s).Some?
    ensures Weight(Quoted(s).value.0) <= Weight(s)
    decreases |s|
  {
    if s[0] == '"' {
    } else {
      var k := if s[0] == '\\' || ((s[0] == '%' || s[0] == '$') && |s| > 1 && s[1] == s[0]) then 2 else 1;
      var c := if s[0] == '\\' then if s[1] == 'n' then '\n' else s[1] else s[0];
      assert Quoted(s) == PushAll([c], Quoted(s[k..]));
      QuotedWeighs(s[k..]);
      WeightAdds([c], Quoted(s[k..]).value.0);
      WeightAdds(s[..k], s[k..]);
      assert s == s[..k] + s[k..];
      FirstWeighs(s, k, c);
    }
  }

  lemma FirstWeighs(s: string, k: nat, c: char)
    requires 1 <= k <= 2 && k <= |s|
    requires c == s[0] || (k == 2 && s[0] == '\\')
    ensures Weight([c]) <= Weight(s[..k])
  {
    WeightAdds([s[0]], s[1..k]);
    assert s[..k] == [s[0]] + s[1..k];
  }

  lemma FirstArgWeighs(line: string)
    requires ReadArgs(Trim(line)).Success? && ReadArgs(Trim(line)).value != []
    ensures Weight(ReadArgs(Trim(line)).value[0]) <= Weight(line)
  {
    hide TrimLeft, TrimRight, Quoted, Weight;
    var rest := Trim(line);
    TrimLeftWeighs(line);
    TrimRightWeighs(TrimLeft(line));
    QuotedWeighs(rest[1..]);
    WeightAdds([rest[0]], rest[1..]);
    assert rest == [rest[0]] + rest[1..];
  }

  // ----- the lines of a unit

  lemma LineSkipped(line: string, rest: string)
    requires '\n' !in line && !(EXEC <= line)
    ensures FirstExec(Lines(line + "\n" + rest)) == FirstExec(Lines(rest))
  {
    hide Lines;
    LinesFirst(line, rest);
    assert Chomp(line + "\n") <= line by {
      assert (line + "\n")[..|line|] == line;
    }
  }

  lemma LineFound(line: string, rest: string)
    requires '\n' !in line && EXEC <= line && line[|line| - 1] != '\r'
    ensures FirstExec(Lines(line + "\n" + rest)) == Some(line[|EXEC|..])
  {
    hide Lines;
    LinesFirst(line, rest);
    assert Chomp(line + "\n") == line by {
      assert (line + "\n")[..|line|] == line;
    }
  }

  /** The first line of a text is an `ExecStart=` line, whatever its end. */
  lemma LineFoundAnyhow(line: string, rest: string)
    requires '\n' !in line && EXEC <= line
    ensures
      var found := FirstExec(Lines(line + "\n" + rest));
      found.Some? && Weight(found.value) + |EXEC| <= Weight(line)
  {
    hide Lines, Weight;
    LinesFirst(line, rest);
    var read := Chomp(line + "\n");
    assert (line + "\n")[..|line|] == line;
    assert read <= line && |read| >= |EXEC|;
    WeightAdds(read, line[|read|..]);
    assert line == read + line[|read|..];
    WeightAdds(EXEC, read[|EXEC|..]);
    assert read == EXEC + read[|EXEC|..];
    ExecWeighs();
  }

  lemma ExecWeighs()
    ensures Weight(EXEC) == |EXEC|
  {
    NoPercent(EXEC);
  }

  lemma {:induction false} NoPercent(s: string)
    requires '%' !in s
    ensures Weight(s) == |s|
    decreases |s|
  {
    if s == "" {
    } else {
      NoPercent(s[1..]);
    }
  }

  /** A text of more than one line hides an `ExecStart=` line if its next line
      is one or what follows hides one. */
  lemma Broken(d: string) returns (first: string, rest: string)
    requires '\n' in d
    ensures d == first + "\n" + rest && '\n' !in first
    ensures Find(d, HIDDEN).Some? <==> EXEC <= rest || Find(rest, HIDDEN).Some?
  {
    hide Find, Position;
    var at := Position(d, '\n');
    first, rest := d[..at.value], d[at.value + 1..];
    assert d == first + ("\n" + rest);
    FindPast(first, "\n" + rest, HIDDEN);
    NextFound(rest);
  }

  lemma NextFound(rest: string)
    ensures Find("\n" + rest, HIDDEN).Some? <==> EXEC <= rest || Find(rest, HIDDEN).Some?
  {
    NextStarts('\n', EXEC, rest);
    assert ("\n" + rest)[1..] == rest;
  }

  lemma NextStarts(c: char, what: string, rest: string)
    ensures [c] + what <= [c] + rest <==> what <= rest
  {
    if [c] + what <= [c] + rest {
      assert ([c] + rest)[1..] == rest && ([c] + what)[1..] == what;
      assert ([c] + rest)[1..][..|what|] == ([c] + what)[1..];
    }
  }

  /** A program that hides no line is passed over. */
  lemma {:induction false} ProgramIsSkipped(p: string, d: string, tail: string)
    requires '\n' !in p && !(EXEC <= p + d) && Find(d, HIDDEN).None?
    ensures FirstExec(Lines(p + d + "\n" + tail)) == FirstExec(Lines(tail))
    decreases |d|
  {
    hide Lines, FirstExec, Find;
    if '\n' in d {
      var first, rest := Broken(d);
      assert p + d + "\n" + tail == (p + first) + "\n" + ("" + rest + "\n" + tail);
      assert !(EXEC <= p + first) by {
        assert p + d == (p + first) + ("\n" + rest);
      }
      LineSkipped(p + first, "" + rest + "\n" + tail);
      assert "" + rest == rest;
      ProgramIsSkipped("", rest, tail);
    } else {
      LineSkipped(p + d, tail);
    }
  }

  /** A program that hides a line has it read in place of the unit's own. */
  lemma {:induction false} ProgramIsRead(p: string, d: string, tail: string)
    requires '\n' !in p && !(EXEC <= p + d) && Find(d, HIDDEN).Some?
    ensures
      var found := FirstExec(Lines(p + d + "\n" + tail));
      found.Some? && Weight(found.value) < Weight(d)
    decreases |d|
  {
    hide Lines, FirstExec, Find, Weight;
    if '\n' !in d {
      NothingHidden(d);
    } else {
      var first, rest := Broken(d);
      assert p + d + "\n" + tail == (p + first) + "\n" + ("" + rest + "\n" + tail);
      assert !(EXEC <= p + first) by {
        assert p + d == (p + first) + ("\n" + rest);
      }
      LineSkipped(p + first, "" + rest + "\n" + tail);
      assert "" + rest == rest;
      WeightAdds(first, "\n" + rest);
      WeightAdds("\n", rest);
      assert d == first + ("\n" + rest);
      if EXEC <= rest {
        NextIsRead(rest, tail);
      } else {
        ProgramIsRead("", rest, tail);
      }
    }
  }

  lemma NothingHidden(d: string)
    requires '\n' !in d
    ensures Find(d, HIDDEN).None?
  {
    FindPast(d, "", HIDDEN);
    assert d + "" == d;
  }

  lemma NextIsRead(d: string, tail: string)
    requires EXEC <= d
    ensures
      var found := FirstExec(Lines(d + "\n" + tail));
      found.Some? && Weight(found.value) < Weight(d)
  {
    hide Lines, FirstExec, Weight;
    if '\n' in d {
      var first, rest := Broken(d);
      assert d + "\n" + tail == first + "\n" + (rest + "\n" + tail);
      assert EXEC <= first by {
        assert d[|first|] == '\n';
      }
      LineFoundAnyhow(first, rest + "\n" + tail);
      WeightAdds(first, "\n" + rest);
      assert d == first + ("\n" + rest);
    } else {
      LineFoundAnyhow(d, tail);
    }
  }

  // ----- the unit reads back

  /** What follows the line that names the program. */
  function AfterProgram(spec: Spec): string {
    "" + "\n" + ("[Service]" + "\n" + (EXEC + Command(spec.args) + "\n" + (EnvironmentLines(spec.env) + UNIT_TAIL)))
  }

  const CONDITION: string := "ConditionPathExists="

  lemma UnitParts(spec: Spec)
    ensures
      var rest := CONDITION + Doubled(Program(spec)) + "\n" + AfterProgram(spec);
      UnitText(spec) == "[Unit]" + "\n" + ("Description=cases web inbox (cases serve)" + "\n" + rest)
  {
    hide Doubled, Command, EnvironmentLines;
    assert "[Unit]\n" == "[Unit]" + "\n" && "[Service]\n" == "[Service]" + "\n";
    var description := "Description=cases web inbox (cases serve)\n";
    assert description == "Description=cases web inbox (cases serve)" + "\n";
  }

  /** No line above the program's is a command line. */
  lemma HeadIsSkipped(spec: Spec)
    ensures
      FirstExec(Lines(UnitText(spec))) ==
      FirstExec(Lines(CONDITION + Doubled(Program(spec)) + "\n" + AfterProgram(spec)))
  {
    hide Lines, FirstExec, UnitText, AfterProgram, Doubled;
    var description := "Description=cases web inbox (cases serve)";
    var rest := CONDITION + Doubled(Program(spec)) + "\n" + AfterProgram(spec);
    UnitParts(spec);
    LineSkipped("[Unit]", description + "\n" + rest);
    NotExec(description);
    LineSkipped(description, rest);
  }

  /** The unit's own command line is what follows its program. */
  lemma OwnLineFound(spec: Spec)
    ensures FirstExec(Lines(AfterProgram(spec))) == Some(Command(spec.args))
  {
    hide Lines, FirstExec, Command;
    var more := EnvironmentLines(spec.env) + UNIT_TAIL;
    CommandIsQuoted(spec.args);
    var line := EXEC + Command(spec.args);
    LineSkipped("", "[Service]" + "\n" + (line + "\n" + more));
    LineSkipped("[Service]", line + "\n" + more);
    LineFound(line, more);
    assert line[|EXEC|..] == Command(spec.args);
  }

  /** Reading a unit gives the arguments it was written with if, and only if,
      its program holds no line break followed by `ExecStart=`. */
  lemma UnitReads(spec: Spec)
    ensures UnitArgs(UnitText(spec)) == Success(spec.args) <==> Find(Program(spec), HIDDEN).None?
  {
    hide Lines, FirstExec, Find, Weight, Doubled, ReadArgs, UnitText, AfterProgram, Trim;
    var d := Doubled(Program(spec));
    HeadIsSkipped(spec);
    NotExec(CONDITION + d);
    DoubledHides(Program(spec));
    if Find(d, HIDDEN).None? {
      ProgramIsSkipped(CONDITION, d, AfterProgram(spec));
      OwnLineFound(spec);
      CommandIsQuoted(spec.args);
      TrimNothing(Command(spec.args));
      CommandReads(spec.args);
    } else {
      ProgramIsRead(CONDITION, d, AfterProgram(spec));
      DoublingWeighsNothing(Program(spec));
      NothingHidden("");
      var line := FirstExec(Lines(UnitText(spec))).value;
      if ReadArgs(Trim(line)) == Success(spec.args) {
        FirstArgWeighs(line);
      }
    }
  }

  lemma NotExec(s: string)
    requires s != "" && s[0] != 'E'
    ensures !(EXEC <= s)
  {
  }

  lemma {:induction false} NothingDoubled(s: string)
    requires '%' !in s
    ensures Doubled(s) == s
    decreases |s|
  {
    if s == "" {
    } else {
      NothingDoubled(s[1..]);
    }
  }

  /** Such a program: its unit reads to no arguments at all. */
  lemma HiddenLineIsRead(more: seq<string>, env: seq<(string, string)>, log: string)
    ensures UnitArgs(UnitText(Spec(["x" + HIDDEN] + more, env, log))) == Success([])
  {
    hide Lines, FirstExec, Doubled, ReadArgs, UnitText, AfterProgram, Trim;
    var spec := Spec(["x" + HIDDEN] + more, env, log);
    var rest := EXEC + "\n" + AfterProgram(spec);
    NothingDoubled("x" + HIDDEN);
    assert Program(spec) == "x" + HIDDEN;
    HeadIsSkipped(spec);
    assert CONDITION + ("x" + HIDDEN) + "\n" + AfterProgram(spec) == CONDITION + "x" + "\n" + rest;
    NotExec(CONDITION + "x");
    LineSkipped(CONDITION + "x", rest);
    LineFound(EXEC, AfterProgram(spec));
    assert EXEC[|EXEC|..] == "";
    TrimNothing("");
    NoArgs();
  }
}
