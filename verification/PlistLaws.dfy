/** All that a plist says, read by the rules of property lists: by no reader of
    the program's own, which looks for the arguments alone. */
module PlistLaws {
  import opened Wrappers
  import opened Texts
  import opened ServiceFiles
  import opened ServiceLaws

  /** A property list of strings, truths, arrays of strings and dictionaries. */
  datatype Plist = Text(text: string) | Yes | List(items: seq<string>) | Dict(entries: seq<(string, Plist)>)

  // ----- reading a property list

  /** One element of a tag, its text read, and what follows it. */
  function ReadElement(tag: string, s: string): (r: Option<(string, string)>)
    ensures r.Some? ==> |r.value.1| < |s|
  {
    var open, close := "<" + tag + ">", "</" + tag + ">";
    if !(open <= s) then None
    else
      var parts := SplitOnce(s[|open|..], close);
      if parts.None? || Unescape(parts.value.0).Failure? then None
      else Some((Unescape(parts.value.0).value, TrimLeft(parts.value.1)))
  }

  /** One value, and what follows it. */
  function ReadValue(s: string): (r: Option<(Plist, string)>)
    ensures r.Some? ==> |r.value.1| < |s|
    decreases |s|
  {
    if "<true/>" <= s then Some((Yes, TrimLeft(s[7..])))
    else if "<array>" <= s then
      var (items, rest) :- ReadItems(TrimLeft(s[7..]));
      Some((List(items), rest))
    else if "<dict>" <= s then
      var (entries, rest) :- ReadEntries(TrimLeft(s[6..]));
      Some((Dict(entries), rest))
    else
      var (text, rest) :- ReadElement("string", s);
      Some((Text(text), rest))
  }

  function ReadItems(s: string): (r: Option<(seq<string>, string)>)
    ensures r.Some? ==> |r.value.1| < |s|
    decreases |s|
  {
    if "</array>" <= s then Some(([], TrimLeft(s[8..])))
    else
      var (text, rest) :- ReadElement("string", s);
      var (items, end) :- ReadItems(rest);
      Some(([text] + items, end))
  }

  function ReadEntries(s: string): (r: Option<(seq<(string, Plist)>, string)>)
    ensures r.Some? ==> |r.value.1| < |s|
    decreases |s|
  {
    if "</dict>" <= s then Some(([], TrimLeft(s[7..])))
    else
      var (key, afterKey) :- ReadElement("key", s);
      var (value, afterValue) :- ReadValue(afterKey);
      var (entries, end) :- ReadEntries(afterValue);
      Some(([(key, value)] + entries, end))
  }

  const ROOT: string := "<plist version=\"1.0\">\n"

  /** The one value of a whole property list. */
  function ReadRoot(text: string): Option<Plist> {
    var root := SplitOnce(text, ROOT);
    if root.None? then None
    else
      var (value, rest) :- ReadValue(TrimLeft(root.value.1));
      if rest == "</plist>\n" then Some(value) else None
  }

  // ----- elements

  /** An element of a tag with its text, up to what follows it. */
  function ElementText(tag: string, text: string, after: string): string {
    "<" + tag + ">" + Escape(text) + ("</" + tag + ">" + after)
  }

  lemma ElementIsText(indent: string, tag: string, text: string, after: string)
    ensures Element(indent, tag, text) + after == indent + ElementText(tag, text, "\n" + after)
  {
    hide Escape;
    assert "</" + tag + ">\n" + after == "</" + tag + ">" + ("\n" + after);
  }

  lemma ElementReads(tag: string, text: string, after: string)
    ensures ReadElement(tag, ElementText(tag, text, after)) == Some((text, TrimLeft(after)))
  {
    var open, close := "<" + tag + ">", "</" + tag + ">";
    var s := open + Escape(text) + (close + after);
    EscapedReads(text);
    hide Escape, Unescape, TrimLeft;
    assert s[|open|..] == Escape(text) + close + after;
    assert close[0] == '<' && '<' !in Escape(text);
    SplitAt(Escape(text), close, after);
  }

  predicate Indents(indent: string) {
    forall c <- indent :: c == '\t'
  }

  /** An element on a line of its own, whatever its text. */
  lemma LineReads(indent: string, tag: string, text: string, after: string)
    requires Indents(indent)
    ensures
      var s := TrimLeft(Element(indent, tag, text) + after);
      && s != "" && s[0] == '<' && ReadElement(tag, s) == Some((text, TrimLeft(after)))
      && s == ElementText(tag, text, "\n" + after)
  {
    hide Element, Escape, ReadElement, TrimLeft;
    ElementIsText(indent, tag, text, after);
    TrimPast(indent, ElementText(tag, text, "\n" + after));
    ElementReads(tag, text, "\n" + after);
    TrimMore("\n", after);
  }

  // ----- values

  lemma TextReads(indent: string, text: string, after: string)
    requires Indents(indent)
    ensures ReadValue(TrimLeft(Element(indent, "string", text) + after)) == Some((Text(text), TrimLeft(after)))
  {
    hide Element, Escape, ReadElement, TrimLeft;
    LineReads(indent, "string", text, after);
    var s := TrimLeft(Element(indent, "string", text) + after);
    assert s[1] == 's';
  }

  /** A tag on a line of its own. */
  function Tag(indent: string, tag: string): string {
    indent + (tag + "\n")
  }

  lemma TagIsFirst(indent: string, tag: string, after: string)
    requires Indents(indent) && tag != "" && tag[0] == '<'
    ensures
      var s := TrimLeft(Tag(indent, tag) + after);
      s == tag + ("\n" + after) && tag <= s && TrimLeft(s[|tag|..]) == TrimLeft(after)
  {
    hide TrimLeft;
    assert indent + (tag + "\n") + after == indent + (tag + ("\n" + after));
    TrimPast(indent, tag + ("\n" + after));
    TrimMore("\n", after);
    assert (tag + ("\n" + after))[|tag|..] == "\n" + after;
  }

  lemma YesReads(indent: string, after: string)
    requires Indents(indent)
    ensures ReadValue(TrimLeft(Tag(indent, "<true/>") + after)) == Some((Yes, TrimLeft(after)))
  {
    hide TrimLeft, Tag;
    TagIsFirst(indent, "<true/>", after);
  }

  lemma {:induction false} ItemsRead(args: seq<string>, after: string)
    ensures ReadItems(TrimLeft(Strings(args) + (Tag("\t", "</array>") + after))) == Some((args, TrimLeft(after)))
    decreases |args|
  {
    hide TrimLeft, Element, Escape, ReadElement, Tag;
    var close := Tag("\t", "</array>") + after;
    if args == [] {
      TagIsFirst("\t", "</array>", after);
      assert "" + close == close;
    } else {
      var rest := Strings(args[1..]) + close;
      ItemsRead(args[1..], after);
      LineReads("\t\t", "string", args[0], rest);
      assert Strings(args) + close == Element("\t\t", "string", args[0]) + rest;
      assert TrimLeft(Element("\t\t", "string", args[0]) + rest)[1] == 's';
      assert [args[0]] + args[1..] == args;
    }
  }

  lemma ListReads(args: seq<string>, after: string)
    ensures
      ReadValue(TrimLeft(Tag("\t", "<array>") + (Strings(args) + (Tag("\t", "</array>") + after))))
      == Some((List(args), TrimLeft(after)))
  {
    hide TrimLeft, Strings, ReadItems, Tag;
    var rest := Strings(args) + (Tag("\t", "</array>") + after);
    TagIsFirst("\t", "<array>", rest);
    assert TrimLeft(Tag("\t", "<array>") + rest)[1] == 'a';
    ItemsRead(args, after);
  }

  lemma EntriesEnd(indent: string, after: string)
    requires Indents(indent)
    ensures ReadEntries(TrimLeft(Tag(indent, "</dict>") + after)) == Some(([], TrimLeft(after)))
  {
    hide TrimLeft, Tag;
    TagIsFirst(indent, "</dict>", after);
  }

  /** A key, its value, and the entries after them. */
  lemma EntryReads(
    indent: string, key: string, text: string, value: Plist, next: string, entries: seq<(string, Plist)>, end: string)
    requires Indents(indent) && ReadValue(TrimLeft(text)) == Some((value, next))
    requires ReadEntries(next) == Some((entries, end))
    ensures ReadEntries(TrimLeft(Element(indent, "key", key) + text)) == Some(([(key, value)] + entries, end))
  {
    hide Element, Escape, ReadElement, ReadValue, TrimLeft;
    LineReads(indent, "key", key, text);
    var s := TrimLeft(Element(indent, "key", key) + text);
    assert s[1] == 'k';
  }

  lemma DictReads(indent: string, text: string, entries: seq<(string, Plist)>, end: string)
    requires Indents(indent) && ReadEntries(TrimLeft(text)) == Some((entries, end))
    ensures ReadValue(TrimLeft(Tag(indent, "<dict>") + text)) == Some((Dict(entries), end))
  {
    hide TrimLeft, ReadEntries, Tag;
    TagIsFirst(indent, "<dict>", text);
    assert TrimLeft(Tag(indent, "<dict>") + text)[1] == 'd';
  }

  // ----- the sections of the plist

  type Entries = seq<(string, Plist)>

  /** A key and its string. */
  lemma TextEntry(indent: string, key: string, value: string, rest: string, entries: Entries, end: string)
    requires Indents(indent) && ReadEntries(TrimLeft(rest)) == Some((entries, end))
    ensures
      ReadEntries(TrimLeft(Element(indent, "key", key) + (Element(indent, "string", value) + rest)))
      == Some(([(key, Text(value))] + entries, end))
  {
    hide TrimLeft, Element, ReadEntries, ReadValue;
    TextReads(indent, value, rest);
    EntryReads(indent, key, Element(indent, "string", value) + rest, Text(value), TrimLeft(rest), entries, end);
  }

  /** A key that is true. */
  lemma YesEntry(indent: string, key: string, rest: string, entries: Entries, end: string)
    requires Indents(indent) && ReadEntries(TrimLeft(rest)) == Some((entries, end))
    ensures
      ReadEntries(TrimLeft(Element(indent, "key", key) + (Tag(indent, "<true/>") + rest)))
      == Some(([(key, Yes)] + entries, end))
  {
    hide TrimLeft, Element, ReadEntries, ReadValue, Tag;
    YesReads(indent, rest);
    EntryReads(indent, key, Tag(indent, "<true/>") + rest, Yes, TrimLeft(rest), entries, end);
  }

  /** A key and the dictionary whose entries `inner` is. */
  lemma DictEntry(
    indent: string, key: string, inner: string, held: Entries, rest: string, entries: Entries, end: string)
    requires Indents(indent)
    requires ReadEntries(TrimLeft(inner + (Tag(indent, "</dict>") + rest))) == Some((held, TrimLeft(rest)))
    requires ReadEntries(TrimLeft(rest)) == Some((entries, end))
    ensures
      ReadEntries(TrimLeft(
        Element(indent, "key", key) + (Tag(indent, "<dict>") + (inner + (Tag(indent, "</dict>") + rest)))))
      == Some(([(key, Dict(held))] + entries, end))
  {
    hide TrimLeft, Element, ReadEntries, ReadValue, Tag;
    var text := inner + (Tag(indent, "</dict>") + rest);
    DictReads(indent, text, held, TrimLeft(rest));
    EntryReads(indent, key, Tag(indent, "<dict>") + text, Dict(held), TrimLeft(rest), entries, end);
  }

  function Told(env: seq<(string, string)>): Entries {
    seq(|env|, i requires 0 <= i < |env| => (env[i].0, Text(env[i].1)))
  }

  lemma {:induction false} PairsRead(env: seq<(string, string)>, after: string)
    ensures ReadEntries(TrimLeft(Pairs(env) + (Tag("\t", "</dict>") + after))) == Some((Told(env), TrimLeft(after)))
    decreases |env|
  {
    hide TrimLeft, Element, ReadEntries, Tag;
    var close := Tag("\t", "</dict>") + after;
    if env == [] {
      EntriesEnd("\t", after);
      assert "" + close == close;
    } else {
      var rest := Pairs(env[1..]) + close;
      PairsRead(env[1..], after);
      TextEntry("\t\t", env[0].0, env[0].1, rest, Told(env[1..]), TrimLeft(after));
      var key, value := Element("\t\t", "key", env[0].0), Element("\t\t", "string", env[0].1);
      assert Pairs(env) + close == key + (value + rest);
      assert [(env[0].0, Text(env[0].1))] + Told(env[1..]) == Told(env);
    }
  }

  lemma EnvironmentReads(env: seq<(string, string)>, rest: string, entries: Entries, end: string)
    requires ReadEntries(TrimLeft(rest)) == Some((entries, end))
    ensures
      ReadEntries(TrimLeft(Environment(env) + rest))
      == Some(((if env == [] then [] else [("EnvironmentVariables", Dict(Told(env)))]) + entries, end))
  {
    hide TrimLeft, Element, ReadEntries, Pairs, Told;
    if env == [] {
      assert "" + rest == rest && [] + entries == entries;
    } else {
      var key := Element("\t", "key", "EnvironmentVariables");
      PairsRead(env, rest);
      DictEntry("\t", "EnvironmentVariables", Pairs(env), Told(env), rest, entries, end);
      assert Tag("\t", "<dict>") == "\t<dict>\n" && Tag("\t", "</dict>") == "\t</dict>\n";
      hide Tag;
      assert Environment(env) + rest == key + (Tag("\t", "<dict>") + (Pairs(env) + (Tag("\t", "</dict>") + rest)));
    }
  }

  lemma KeepAliveReads(program: string, rest: string, entries: Entries, end: string)
    requires ReadEntries(TrimLeft(rest)) == Some((entries, end))
    ensures
      ReadEntries(TrimLeft(KeepAlive(program) + rest))
      == Some(([("RunAtLoad", Yes), ("KeepAlive", Dict([("PathState", Dict([(program, Yes)]))]))] + entries, end))
  {
    hide TrimLeft, Element, ReadEntries, KeepAlive, PathState;
    var state, alive := [("PathState", Dict([(program, Yes)]))], PathState(program);
    var last := Tag("\t", "</dict>") + rest;
    EntriesEnd("\t", rest);
    PathStateReads(program, last, [], TrimLeft(rest));
    assert state + [] == state;
    DictEntry("\t", "KeepAlive", alive, state, rest, entries, end);
    var keep := Element("\t", "key", "KeepAlive") + (Tag("\t", "<dict>") + (alive + last));
    var kept := [("KeepAlive", Dict(state))] + entries;
    YesEntry("\t", "RunAtLoad", keep, kept, end);
    KeepAliveParts(program, rest);
    assert [("RunAtLoad", Yes)] + kept == [("RunAtLoad", Yes), ("KeepAlive", Dict(state))] + entries;
  }

  lemma KeepAliveParts(program: string, rest: string)
    ensures
      KeepAlive(program) + rest ==
      Element("\t", "key", "RunAtLoad") + (Tag("\t", "<true/>") + (Element("\t", "key", "KeepAlive") +
        (Tag("\t", "<dict>") + (PathState(program) + (Tag("\t", "</dict>") + rest)))))
  {
    hide Element, PathState;
    assert Tag("\t", "<true/>") == "\t<true/>\n" && Tag("\t", "<dict>") == "\t<dict>\n"
        && Tag("\t", "</dict>") == "\t</dict>\n";
    hide Tag;
  }

  lemma PathStateReads(program: string, rest: string, entries: Entries, end: string)
    requires ReadEntries(TrimLeft(rest)) == Some((entries, end))
    ensures
      ReadEntries(TrimLeft(PathState(program) + rest)) == Some(([("PathState", Dict([(program, Yes)]))] + entries, end))
  {
    hide TrimLeft, Element, ReadEntries, PathState;
    var last := Tag("\t\t", "</dict>") + rest;
    var inner := Element("\t\t\t", "key", program) + Tag("\t\t\t", "<true/>");
    EntriesEnd("\t\t", rest);
    YesEntry("\t\t\t", program, last, [], TrimLeft(rest));
    assert inner + last == Element("\t\t\t", "key", program) + (Tag("\t\t\t", "<true/>") + last);
    assert [(program, Yes)] + [] == [(program, Yes)];
    DictEntry("\t\t", "PathState", inner, [(program, Yes)], rest, entries, end);
    PathStateParts(program, rest);
  }

  lemma PathStateParts(program: string, rest: string)
    ensures
      PathState(program) + rest ==
      Element("\t\t", "key", "PathState") + (Tag("\t\t", "<dict>") +
        ((Element("\t\t\t", "key", program) + Tag("\t\t\t", "<true/>")) + (Tag("\t\t", "</dict>") + rest)))
  {
    hide Element;
    assert Tag("\t\t", "<dict>") == "\t\t<dict>\n";
    assert Tag("\t\t\t", "<true/>") + Tag("\t\t", "</dict>") == "\t\t\t<true/>\n\t\t</dict>\n";
    hide Tag;
  }

  lemma LoggingReads(log: string, rest: string, entries: Entries, end: string)
    requires ReadEntries(TrimLeft(rest)) == Some((entries, end))
    ensures
      ReadEntries(TrimLeft(Logging(log) + rest))
      == Some(([("StandardOutPath", Text("/dev/null")), ("StandardErrorPath", Text(log))] + entries, end))
  {
    hide TrimLeft, Element, ReadEntries;
    var error := Element("\t", "key", "StandardErrorPath") + (Element("\t", "string", log) + rest);
    var logged := [("StandardErrorPath", Text(log))] + entries;
    TextEntry("\t", "StandardErrorPath", log, rest, entries, end);
    TextEntry("\t", "StandardOutPath", "/dev/null", error, logged, end);
    assert Logging(log) + rest ==
           Element("\t", "key", "StandardOutPath") + (Element("\t", "string", "/dev/null") + error);
    assert [("StandardOutPath", Text("/dev/null"))] + logged ==
           [("StandardOutPath", Text("/dev/null")), ("StandardErrorPath", Text(log))] + entries;
  }

  // ----- the whole plist

  /** What a plist is to say of a service. */
  function Service(spec: Spec): Entries {
    [("Label", Text(LABEL)), ("ProgramArguments", List(spec.args))]
    + (if spec.env == [] then [] else [("EnvironmentVariables", Dict(Told(spec.env)))])
    + [("RunAtLoad", Yes), ("KeepAlive", Dict([("PathState", Dict([(Program(spec), Yes)]))]))]
    + [("StandardOutPath", Text("/dev/null")), ("StandardErrorPath", Text(spec.log))]
  }

  const FOOT: string := Tag("", "</dict>") + "</plist>\n"

  /** What is between the arguments and the end of the dictionary. */
  lemma TailReads(spec: Spec)
    ensures
      ReadEntries(TrimLeft(Environment(spec.env) + (KeepAlive(Program(spec)) + (Logging(spec.log) + FOOT))))
      == Some((Service(spec)[2..], "</plist>\n"))
  {
    hide TrimLeft, ReadEntries, Environment, KeepAlive, Logging, Told, Tag;
    var logging := Logging(spec.log) + FOOT;
    var logged := [("StandardOutPath", Text("/dev/null")), ("StandardErrorPath", Text(spec.log))];
    var alive := [("RunAtLoad", Yes), ("KeepAlive", Dict([("PathState", Dict([(Program(spec), Yes)]))]))];
    FootIsFirst();
    EntriesEnd("", "</plist>\n");
    LoggingReads(spec.log, FOOT, [], "</plist>\n");
    assert logged + [] == logged;
    KeepAliveReads(Program(spec), logging, logged, "</plist>\n");
    EnvironmentReads(spec.env, KeepAlive(Program(spec)) + logging, alive + logged, "</plist>\n");
    var env := if spec.env == [] then [] else [("EnvironmentVariables", Dict(Told(spec.env)))];
    assert Service(spec)[2..] == env + (alive + logged);
  }

  lemma FootIsFirst()
    ensures TrimLeft("</plist>\n") == "</plist>\n"
  {
  }

  lemma BodyReads(spec: Spec, tail: string)
    requires ReadEntries(TrimLeft(tail)) == Some((Service(spec)[2..], "</plist>\n"))
    ensures
      ReadEntries(TrimLeft(
        Element("\t", "key", "Label") + (Element("\t", "string", LABEL) + (Element("\t", "key", ARGUMENTS) +
        (Tag("\t", "<array>") + (Strings(spec.args) + (Tag("\t", "</array>") + tail)))))))
      == Some((Service(spec), "</plist>\n"))
  {
    hide TrimLeft, ReadEntries, ReadValue, Element, Strings, Tag, Told;
    var listed := Tag("\t", "<array>") + (Strings(spec.args) + (Tag("\t", "</array>") + tail));
    var more := [("ProgramArguments", List(spec.args))] + Service(spec)[2..];
    ListReads(spec.args, tail);
    EntryReads("\t", ARGUMENTS, listed, List(spec.args), TrimLeft(tail), Service(spec)[2..], "</plist>\n");
    TextEntry("\t", "Label", LABEL, Element("\t", "key", ARGUMENTS) + listed, more, "</plist>\n");
    assert [("Label", Text(LABEL))] + more == Service(spec);
  }

  lemma WholeParts(spec: Spec)
    ensures
      var tail := Environment(spec.env) + (KeepAlive(Program(spec)) + (Logging(spec.log) + FOOT));
      var body :=
        Element("\t", "key", "Label") + (Element("\t", "string", LABEL) + (Element("\t", "key", ARGUMENTS) +
        (Tag("\t", "<array>") + (Strings(spec.args) + (Tag("\t", "</array>") + tail)))));
      PlistText(spec) == (XmlLine() + DoctypeLine()) + (ROOT + (Tag("", "<dict>") + body))
  {
    hide XmlLine, DoctypeLine, Element, Strings, Environment, KeepAlive, Logging;
    assert Tag("", "<dict>") == "<dict>\n" && Tag("\t", "<array>") == "\t<array>\n";
    assert Tag("\t", "</array>") == "\t</array>\n" && FOOT == "</dict>\n</plist>\n";
    hide Tag;
  }

  lemma PastRoot()
    ensures Past(XmlLine() + DoctypeLine(), ROOT)
  {
    hide Past, XmlLine, DoctypeLine;
    assert ROOT[0] == '<' && ROOT[1] == 'p';
    PastXml(ROOT);
    PastDoctype(ROOT);
    PastBoth(XmlLine(), DoctypeLine(), ROOT);
  }

  /** A plist says just what its specification does, key by key, in order, and
      no more: whatever its program, arguments, environment and log hold. */
  lemma PlistSays(spec: Spec)
    ensures ReadRoot(PlistText(spec)) == Some(Dict(Service(spec)))
  {
    var tail := Environment(spec.env) + (KeepAlive(Program(spec)) + (Logging(spec.log) + FOOT));
    var body :=
      Element("\t", "key", "Label") + (Element("\t", "string", LABEL) + (Element("\t", "key", ARGUMENTS) +
      (Tag("\t", "<array>") + (Strings(spec.args) + (Tag("\t", "</array>") + tail)))));
    hide TrimLeft, ReadEntries, ReadValue, Element, Strings, Environment, KeepAlive, Logging, Tag, Past, SplitOnce,
         PlistText, XmlLine, DoctypeLine, Service, ROOT;
    TailReads(spec);
    BodyReads(spec, tail);
    DictReads("", body, Service(spec), "</plist>\n");
    WholeParts(spec);
    PastRoot();
    SplitPast(XmlLine() + DoctypeLine(), ROOT, Tag("", "<dict>") + body);
  }
}
