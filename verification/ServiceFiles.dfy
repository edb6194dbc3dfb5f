/** The file a service manager starts the inbox from: a launchd plist or a
    systemd unit, as each is written, and as its arguments are read back. */
module ServiceFiles {
  import opened Wrappers
  import opened Decimals
  import opened Texts

  const LABEL: string := "sh.cases.serve"

  /** A command line, its environment, and a path for its log. */
  datatype Spec = Spec(args: seq<string>, env: seq<(string, string)>, log: string)

  /** Why a file's arguments cannot be read. */
  datatype Fault =
    | NoArray | OpenArray | NotString | OpenString | OpenEntity | UnknownEntity
    | NoExec | Unquoted | OpenQuote

  type Args = Result<seq<string>, Fault>

  function Program(spec: Spec): string {
    if spec.args == [] then "" else spec.args[0]
  }

  /** What is read so far, before what is read next, unless that fails. */
  function Prepend<T>(first: seq<T>, more: Result<seq<T>, Fault>): (r: Result<seq<T>, Fault>)
    ensures first == [] ==> r == more
  {
    if more.Failure? then more
    else
      assert first == [] ==> first + more.value == more.value;
      Success(first + more.value)
  }

  lemma PrependTwice<T>(a: seq<T>, b: seq<T>, more: Result<seq<T>, Fault>)
    ensures Prepend(a, Prepend(b, more)) == Prepend(a + b, more)
  {
    assert more.Success? ==> a + (b + more.value) == a + b + more.value;
  }

  // ----- XML text

  function EscapeChar(c: char): string {
    match c
    case '&' => "&amp;"
    case '<' => "&lt;"
    case '>' => "&gt;"
    case '"' => "&#34;"
    case '\'' => "&#39;"
    case '\t' => "&#x9;"
    case '\n' => "&#xA;"
    case '\r' => "&#xD;"
    case _ => [c]
  }

  function Escape(text: string): string {
    if text == "" then "" else EscapeChar(text[0]) + Escape(text[1..])
  }

  /** `xml_escape` */
  method WriteEscaped(text: string) returns (escaped: string)
    ensures escaped == Escape(text)
  {
    hide EscapeChar;
    escaped := "";
    for i := 0 to |text|
      invariant escaped + Escape(text[i..]) == Escape(text)
    {
      assert text[i..][1..] == text[i + 1..];
      assert escaped + (EscapeChar(text[i]) + Escape(text[i + 1..]))
          == escaped + EscapeChar(text[i]) + Escape(text[i + 1..]);
      escaped := escaped + EscapeChar(text[i]);
    }
  }

  predicate IsHex(c: char) {
    '0' <= c <= '9' || 'a' <= c <= 'f' || 'A' <= c <= 'F'
  }

  function HexValue(c: char): nat
    requires IsHex(c)
  {
    if c <= '9' then c as int - '0' as int
    else if c <= 'F' then c as int - 'A' as int + 10
    else c as int - 'a' as int + 10
  }

  function HexNumberOf(s: string): nat
    requires forall c <- s :: IsHex(c)
  {
    if s == "" then 0 else HexNumberOf(s[..|s| - 1]) * 16 + HexValue(s[|s| - 1])
  }

  /** A number may have a plus sign before its digits. */
  function Unsigned(s: string): string {
    if "+" <= s then s[1..] else s
  }

  function HexCode(s: string): Option<nat> {
    var digits := Unsigned(s);
    if digits == "" || exists c <- digits :: !IsHex(c) then None else Some(HexNumberOf(digits))
  }

  function DecimalCode(s: string): Option<nat> {
    var digits := Unsigned(s);
    if digits == "" || !AllDigits(digits) then None else Some(NumberOf(digits))
  }

  /** The character of a code that is a Unicode scalar value. */
  function Scalar(code: Option<nat>): Option<char> {
    match code
    case Some(n) => if n < 0xD800 || 0xE000 <= n < 0x11_0000 then Some(n as char) else None
    case None => None
  }

  function Entity(name: string): Option<char> {
    if name == "amp" then Some('&')
    else if name == "lt" then Some('<')
    else if name == "gt" then Some('>')
    else if name == "quot" then Some('"')
    else if name == "apos" then Some('\'')
    else if "#x" <= name then Scalar(HexCode(name[2..]))
    else if "#" <= name then Scalar(DecimalCode(name[1..]))
    else None
  }

  /** Text with its entities read. */
  function Unescape(text: string): Result<string, Fault>
    decreases |text|
  {
    var amp := SplitOnce(text, "&");
    if amp.None? then Success(text)
    else
      var entity := SplitOnce(amp.value.1, ";");
      if entity.None? then Failure(OpenEntity)
      else
        var c := Entity(entity.value.0);
        if c.None? then Failure(UnknownEntity)
        else
          Prepend(amp.value.0 + [c.value], Unescape(entity.value.1))
  }

  /** `xml_unescape` */
  method ReadEscaped(text: string) returns (r: Result<string, Fault>)
    ensures r == Unescape(text)
  {
    hide Entity, SplitOnce;
    var plain, rest := "", text;
    while true
      invariant Unescape(text) == Prepend(plain, Unescape(rest))
      decreases |rest|
    {
      var amp := SplitOnce(rest, "&");
      if amp.None? {
        return Success(plain + rest);
      }
      var entity := SplitOnce(amp.value.1, ";");
      if entity.None? {
        return Failure(OpenEntity);
      }
      var c := Entity(entity.value.0);
      if c.None? {
        return Failure(UnknownEntity);
      }
      PrependTwice(plain, amp.value.0 + [c.value], Unescape(entity.value.1));
      plain, rest := plain + (amp.value.0 + [c.value]), entity.value.1;
    }
  }

  // ----- the launchd plist

  const ARGUMENTS: string := "ProgramArguments"

  const MARKER: string := "<key>" + ARGUMENTS + "</key>"

  function Element(indent: string, tag: string, text: string): string {
    indent + "<" + tag + ">" + Escape(text) + "</" + tag + ">\n"
  }

  function Strings(args: seq<string>): string {
    if args == [] then "" else Element("\t\t", "string", args[0]) + Strings(args[1..])
  }

  function Pairs(env: seq<(string, string)>): string {
    if env == [] then ""
    else Element("\t\t", "key", env[0].0) + Element("\t\t", "string", env[0].1) + Pairs(env[1..])
  }

  function XmlLine(): string {
    "<?xml " + "version=\"1.0\" " + "encoding=\"UTF-8\"?>\n"
  }

  function DoctypeLine(): string {
    "<!DOCTYPE " + "plist PUBLIC " + "\"-//Apple//DTD PLIST 1.0//EN\" " +
    "\"http://www.apple.com/" + "DTDs/PropertyList-1.0.dtd\">\n"
  }

  function PlistHead(): string {
    XmlLine() + DoctypeLine() + "<plist version=\"1.0\">\n" + "<dict>\n"
  }

  function Environment(env: seq<(string, string)>): string {
    if env == [] then ""
    else Element("\t", "key", "EnvironmentVariables") + "\t<dict>\n" + Pairs(env) + "\t</dict>\n"
  }

  function PathState(program: string): string {
    Element("\t\t", "key", "PathState") + "\t\t<dict>\n" +
    Element("\t\t\t", "key", program) + "\t\t\t<true/>\n\t\t</dict>\n"
  }

  function KeepAlive(program: string): string {
    Element("\t", "key", "RunAtLoad") + "\t<true/>\n" +
    Element("\t", "key", "KeepAlive") + "\t<dict>\n" + PathState(program) + "\t</dict>\n"
  }

  function Logging(log: string): string {
    Element("\t", "key", "StandardOutPath") + Element("\t", "string", "/dev/null") +
    Element("\t", "key", "StandardErrorPath") + Element("\t", "string", log)
  }

  function PlistTail(spec: Spec): string {
    Environment(spec.env) + KeepAlive(Program(spec)) + Logging(spec.log) + "</dict>\n</plist>\n"
  }

  function PlistText(spec: Spec): string {
    PlistHead() + Element("\t", "key", "Label") + Element("\t", "string", LABEL) +
    Element("\t", "key", ARGUMENTS) + "\t<array>\n" + Strings(spec.args) + "\t</array>\n" +
    PlistTail(spec)
  }

  method AddElement(plist: string, indent: string, tag: string, text: string) returns (grown: string)
    ensures grown == plist + Element(indent, tag, text)
  {
    var escaped := WriteEscaped(text);
    grown := plist + (indent + "<" + tag + ">" + escaped + "</" + tag + ">\n");
  }

  method AddStrings(plist: string, args: seq<string>) returns (grown: string)
    ensures grown == plist + Strings(args)
  {
    hide Element;
    grown := plist;
    for i := 0 to |args|
      invariant grown + Strings(args[i..]) == plist + Strings(args)
    {
      var element := Element("\t\t", "string", args[i]);
      assert args[i..][1..] == args[i + 1..];
      assert grown + (element + Strings(args[i + 1..])) == grown + element + Strings(args[i + 1..]);
      grown := AddElement(grown, "\t\t", "string", args[i]);
    }
  }

  method AddPairs(plist: string, env: seq<(string, string)>) returns (grown: string)
    ensures grown == plist + Pairs(env)
  {
    hide Element;
    grown := plist;
    for i := 0 to |env|
      invariant grown + Pairs(env[i..]) == plist + Pairs(env)
    {
      var key, value := Element("\t\t", "key", env[i].0), Element("\t\t", "string", env[i].1);
      assert env[i..][1..] == env[i + 1..];
      assert grown + (key + value + Pairs(env[i + 1..])) == grown + key + value + Pairs(env[i + 1..]);
      grown := AddElement(grown, "\t\t", "key", env[i].0);
      grown := AddElement(grown, "\t\t", "string", env[i].1);
    }
  }

  method AddEnvironment(plist: string, env: seq<(string, string)>) returns (grown: string)
    ensures grown == plist + Environment(env)
  {
    hide Element, Pairs;
    grown := plist;
    if env != [] {
      var p := AddElement("", "\t", "key", "EnvironmentVariables");
      p := AddPairs(p + "\t<dict>\n", env);
      grown := plist + (p + "\t</dict>\n");
    }
  }

  method AddPathState(plist: string, program: string) returns (grown: string)
    ensures grown == plist + PathState(program)
  {
    hide Element;
    var p := AddElement("", "\t\t", "key", "PathState");
    p := AddElement(p + "\t\t<dict>\n", "\t\t\t", "key", program);
    grown := plist + (p + "\t\t\t<true/>\n\t\t</dict>\n");
  }

  method AddKeepAlive(plist: string, program: string) returns (grown: string)
    ensures grown == plist + KeepAlive(program)
  {
    hide Element, PathState;
    var p := AddElement("", "\t", "key", "RunAtLoad");
    p := AddElement(p + "\t<true/>\n", "\t", "key", "KeepAlive");
    p := AddPathState(p + "\t<dict>\n", program);
    grown := plist + (p + "\t</dict>\n");
  }

  method AddLogging(plist: string, log: string) returns (grown: string)
    ensures grown == plist + Logging(log)
  {
    hide Element;
    var p := AddElement("", "\t", "key", "StandardOutPath");
    p := AddElement(p, "\t", "string", "/dev/null");
    p := AddElement(p, "\t", "key", "StandardErrorPath");
    p := AddElement(p, "\t", "string", log);
    grown := plist + p;
  }

  /** `plist` */
  method WritePlist(spec: Spec) returns (p: string)
    ensures p == PlistText(spec)
  {
    hide Element, Strings, PlistHead, Environment, KeepAlive, Logging;
    p := AddElement(PlistHead(), "\t", "key", "Label");
    p := AddElement(p, "\t", "string", LABEL);
    p := AddElement(p, "\t", "key", ARGUMENTS);
    p := AddStrings(p + "\t<array>\n", spec.args);
    p := p + "\t</array>\n";
    var tail := AddEnvironment("", spec.env);
    tail := AddKeepAlive(tail, Program(spec));
    tail := AddLogging(tail, spec.log);
    p := p + (tail + "</dict>\n</plist>\n");
  }

  /** The strings of an array, whatever white space is between them. */
  function ReadStrings(rest: string): Args
    decreases |rest|
  {
    if rest == "" then Success([])
    else if "<string/>" <= rest then Prepend([""], ReadStrings(TrimLeft(rest[9..])))
    else if !("<string>" <= rest) then Failure(NotString)
    else
      var parts := SplitOnce(rest[8..], "</string>");
      if parts.None? then Failure(OpenString)
      else
        var value :- Unescape(parts.value.0);
        Prepend([value], ReadStrings(TrimLeft(parts.value.1)))
  }

  /** The text of the `ProgramArguments` array, if there is one. */
  function ArrayText(text: string): Result<Option<string>, Fault> {
    var at := Find(text, MARKER);
    if at.None? then Success(None)
    else
      var start := SplitOnce(text[at.value..], "<array>");
      if start.None? then Failure(NoArray)
      else
        var closed := SplitOnce(start.value.1, "</array>");
        if closed.None? then Failure(OpenArray) else Success(Some(closed.value.0))
  }

  function PlistArgs(text: string): Args {
    var inner :- ArrayText(text);
    if inner.None? then Success([]) else ReadStrings(TrimLeft(inner.value))
  }

  /** `plist_args` */
  method ReadPlist(text: string) returns (r: Args)
    ensures r == PlistArgs(text)
  {
    hide SplitOnce, TrimLeft, Unescape, ArrayText;
    var strings := ArrayText(text);
    if strings.Failure? {
      return Failure(strings.error);
    }
    if strings.value.None? {
      return Success([]);
    }
    var args: seq<string>, rest := [], TrimLeft(strings.value.value);
    while rest != ""
      invariant PlistArgs(text) == Prepend(args, ReadStrings(rest))
      decreases |rest|
    {
      ghost var before := args;
      if "<string/>" <= rest {
        args, rest := args + [""], TrimLeft(rest[9..]);
        PrependTwice(before, [""], ReadStrings(rest));
        continue;
      }
      if !("<string>" <= rest) {
        return Failure(NotString);
      }
      var parts := SplitOnce(rest[8..], "</string>");
      if parts.None? {
        return Failure(OpenString);
      }
      var value := ReadEscaped(parts.value.0);
      if value.Failure? {
        return Failure(value.error);
      }
      args, rest := args + [value.value], TrimLeft(parts.value.1);
      PrependTwice(before, [value.value], ReadStrings(rest));
    }
    assert args + [] == args;
    return Success(args);
  }

  // ----- the systemd unit

  const EXEC: string := "ExecStart="

  /** Every `%` doubled. */
  function Doubled(s: string): string {
    if s == "" then "" else (if s[0] == '%' then "%%" else [s[0]]) + Doubled(s[1..])
  }

  function QuoteChar(c: char, exec: bool): string {
    match c
    case '\\' => "\\\\"
    case '"' => "\\\""
    case '\n' => "\\n"
    case '%' => "%%"
    case '$' => if exec then "$$" else "$"
    case _ => [c]
  }

  function QuoteText(value: string, exec: bool): string {
    if value == "" then "" else QuoteChar(value[0], exec) + QuoteText(value[1..], exec)
  }

  function Quote(value: string, exec: bool): string {
    "\"" + QuoteText(value, exec) + "\""
  }

  /** `unit_quote` */
  method WriteQuoted(value: string, exec: bool) returns (quoted: string)
    ensures quoted == Quote(value, exec)
  {
    hide QuoteChar;
    quoted := "\"";
    for i := 0 to |value|
      invariant quoted + QuoteText(value[i..], exec) == "\"" + QuoteText(value, exec)
    {
      var c := QuoteChar(value[i], exec);
      assert value[i..][1..] == value[i + 1..];
      assert quoted + (c + QuoteText(value[i + 1..], exec)) == quoted + c + QuoteText(value[i + 1..], exec);
      quoted := quoted + c;
    }
    quoted := quoted + "\"";
  }

  /** The program and its arguments, quoted, with a space between them. */
  function Command(args: seq<string>): string {
    if args == [] then ""
    else if |args| == 1 then Quote(args[0], true)
    else Quote(args[0], true) + " " + Command(args[1..])
  }

  function EnvironmentLines(env: seq<(string, string)>): string {
    if env == [] then ""
    else "Environment=" + Quote(env[0].0 + "=" + env[0].1, false) + "\n" + EnvironmentLines(env[1..])
  }

  const UNIT_HEAD: string := "[Unit]\n" + "Description=cases web inbox (cases serve)\n"

  const UNIT_TAIL: string :=
    "Restart=always\n" + "RestartSec=5\n" + "\n" + "[Install]\n" + "WantedBy=default.target\n"

  function UnitText(spec: Spec): string {
    UNIT_HEAD + ("ConditionPathExists=" + Doubled(Program(spec)) + "\n") + "\n" +
    "[Service]\n" + (EXEC + Command(spec.args) + "\n") + EnvironmentLines(spec.env) + UNIT_TAIL
  }

  method WriteCommand(args: seq<string>) returns (command: string)
    ensures command == Command(args)
  {
    hide Quote;
    command := "";
    for i := 0 to |args|
      invariant
        Command(args) ==
        if i == 0 then command + Command(args)
        else if i < |args| then command + (" " + Command(args[i..]))
        else command
    {
      var quoted := WriteQuoted(args[i], true);
      assert args[i..] == [args[i]] + args[i + 1..];
      assert i == 0 ==> args[i..] == args;
      ghost var rest := if i + 1 < |args| then " " + Command(args[i + 1..]) else "";
      assert Command(args[i..]) == quoted + rest;
      assert command + (" " + (quoted + rest)) == command + " " + quoted + rest;
      command := if i == 0 then quoted else command + " " + quoted;
    }
  }

  /** `unit` */
  method WriteUnit(spec: Spec) returns (u: string)
    ensures u == UnitText(spec)
  {
    hide Quote, Command, Doubled;
    var command := WriteCommand(spec.args);
    u := UNIT_HEAD + ("ConditionPathExists=" + Doubled(Program(spec)) + "\n") + "\n" +
      "[Service]\n" + (EXEC + command + "\n");
    ghost var before := u;
    for i := 0 to |spec.env|
      invariant u + EnvironmentLines(spec.env[i..]) == before + EnvironmentLines(spec.env)
    {
      var quoted := WriteQuoted(spec.env[i].0 + "=" + spec.env[i].1, false);
      var line := "Environment=" + quoted + "\n";
      assert spec.env[i..][1..] == spec.env[i + 1..];
      ghost var more := EnvironmentLines(spec.env[i + 1..]);
      assert u + (line + more) == u + line + more;
      u := u + line;
    }
    u := u + UNIT_TAIL;
  }

  /** The text up to the quote that closes it, read, and what follows it. */
  function Quoted(s: string): (r: Option<(string, string)>)
    ensures r.Some? ==> |r.value.1| < |s|
    decreases |s|
  {
    if s == "" then None
    else if s[0] == '"' then Some(("", s[1..]))
    else if s[0] == '\\' then
      if |s| == 1 then None else PushAll([if s[1] == 'n' then '\n' else s[1]], Quoted(s[2..]))
    else if (s[0] == '%' || s[0] == '$') && |s| > 1 && s[1] == s[0] then PushAll([s[0]], Quoted(s[2..]))
    else PushAll([s[0]], Quoted(s[1..]))
  }

  function PushAll(text: string, more: Option<(string, string)>): (r: Option<(string, string)>)
    ensures text == "" ==> r == more
  {
    if more.None? then None
    else
      assert text == "" ==> text + more.value.0 == more.value.0;
      Some((text + more.value.0, more.value.1))
  }

  lemma PushTwice(a: string, b: string, more: Option<(string, string)>)
    ensures PushAll(a, PushAll(b, more)) == PushAll(a + b, more)
  {
    assert more.Some? ==> a + (b + more.value.0) == a + b + more.value.0;
  }

  /** The inner loop of `unit_args`. */
  method ReadQuoted(s: string) returns (r: Option<(string, string)>)
    ensures r == Quoted(s)
  {
    var arg, i := "", 0;
    assert s[0..] == s;
    while i < |s|
      invariant i <= |s|
      invariant Quoted(s) == PushAll(arg, Quoted(s[i..]))
    {
      var c := s[i];
      if c == '"' {
        assert s[i..][1..] == s[i + 1..] && arg + "" == arg;
        return Some((arg, s[i + 1..]));
      }
      var n, k := c, 1;
      if c == '\\' {
        if i + 1 == |s| {
          return None;
        }
        n, k := if s[i + 1] == 'n' then '\n' else s[i + 1], 2;
      } else if (c == '%' || c == '$') && i + 1 < |s| && s[i + 1] == c {
        k := 2;
      }
      assert s[i..][k..] == s[i + k..] && Quoted(s[i..]) == PushAll([n], Quoted(s[i + k..]));
      PushTwice(arg, [n], Quoted(s[i + k..]));
      arg, i := arg + [n], i + k;
    }
    return None;
  }

  /** The quoted arguments of a command line. */
  function ReadArgs(rest: string): Args
    decreases |rest|
  {
    if rest == "" then Success([])
    else if rest[0] != '"' then Failure(Unquoted)
    else
      var arg := Quoted(rest[1..]);
      if arg.None? then Failure(OpenQuote) else Prepend([arg.value.0], ReadArgs(TrimLeft(arg.value.1)))
  }

  /** What the first line that starts with `ExecStart=` says. */
  function FirstExec(lines: seq<string>): Option<string> {
    if lines == [] then None
    else if EXEC <= lines[0] then Some(lines[0][|EXEC|..])
    else FirstExec(lines[1..])
  }

  function UnitArgs(text: string): Args {
    var line := FirstExec(Lines(text));
    if line.None? then Failure(NoExec) else ReadArgs(Trim(line.value))
  }

  /** `unit_args` */
  method ReadUnit(text: string) returns (r: Args)
    ensures r == UnitArgs(text)
  {
    hide FirstExec, Lines, Trim, TrimLeft, Quoted;
    var line := FirstExec(Lines(text));
    if line.None? {
      return Failure(NoExec);
    }
    var args: seq<string>, rest := [], Trim(line.value);
    while rest != ""
      invariant UnitArgs(text) == Prepend(args, ReadArgs(rest))
      decreases |rest|
    {
      if rest[0] != '"' {
        return Failure(Unquoted);
      }
      var arg := ReadQuoted(rest[1..]);
      if arg.None? {
        return Failure(OpenQuote);
      }
      ghost var before := args;
      args, rest := args + [arg.value.0], TrimLeft(arg.value.1);
      PrependTwice(before, [arg.value.0], ReadArgs(rest));
    }
    assert args + [] == args;
    return Success(args);
  }
}
