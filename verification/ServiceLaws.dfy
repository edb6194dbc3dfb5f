/** The service files read back: a plist gives the arguments it was written
    with, always; a unit does exactly when its program hides no `ExecStart=`
    line of its own. */
module ServiceLaws {
  import opened Wrappers
  import opened Decimals
  import opened Texts
  import opened ServiceFiles

  // ----- XML text

  /** No character of a text that XML or a property list's line gives meaning to. */
  predicate Inert(s: string) {
    forall c <- s :: c !in "<>\"'\t\n\r"
  }

  lemma EntitiesRead()
    ensures Entity("amp") == Some('&') && Entity("lt") == Some('<') && Entity("gt") == Some('>')
    ensures Entity("#34") == Some('"') && Entity("#39") == Some('\'')
    ensures Entity("#x9") == Some('\t') && Entity("#xA") == Some('\n') && Entity("#xD") == Some('\r')
  {
    hide HexCode, DecimalCode, HexNumberOf, NumberOf;
    DecimalEntityReads("34", 34);
    DecimalEntityReads("39", 39);
    assert "#" + "34" == "#34" && "#" + "39" == "#39";
    HexReads('9');
    HexReads('A');
    HexReads('D');
    assert "#x" + ['9'] == "#x9" && "#x" + ['A'] == "#xA" && "#x" + ['D'] == "#xD";
  }

  lemma DecimalEntityReads(digits: string, n: int)
    requires |digits| == 2 && AllDigits(digits)
    requires n == DigitValue(digits[0]) * 10 + DigitValue(digits[1])
    ensures Entity("#" + digits) == Scalar(Some(n))
  {
    var name := "#" + digits;
    assert name[0] == '#' && name[1] == digits[0] && name[1..] == digits;
    assert IsDigit(digits[0]) && Unsigned(digits) == digits;
    assert NumberOf(digits[..1]) == NumberOf("") * 10 + DigitValue(digits[0]) by {
      assert digits[..1][..0] == "";
    }
    assert NumberOf(digits) == n;
  }

  lemma HexReads(c: char)
    requires IsHex(c)
    ensures Entity("#x" + [c]) == Scalar(Some(HexValue(c)))
  {
    var name := "#x" + [c];
    assert name[0] == '#' && name[1] == 'x' && name[2..] == [c];
    assert [c][0] == c != "+"[0];
    assert HexNumberOf([c]) == HexNumberOf("") * 16 + HexValue(c) by {
      assert [c][..0] == "";
    }
  }

  /** A character as it is escaped: itself, or an entity that reads to it. */
  lemma EscapeCharReads(c: char, rest: string)
    ensures Unescape(EscapeChar(c) + rest) == Prepend([c], Unescape(rest))
  {
    hide Entity, Unescape;
    EntitiesRead();
    match c {
      case '&' => EntityReads("&amp;", "amp", c, rest);
      case '<' => EntityReads("&lt;", "lt", c, rest);
      case '>' => EntityReads("&gt;", "gt", c, rest);
      case '"' => EntityReads("&#34;", "#34", c, rest);
      case '\'' => EntityReads("&#39;", "#39", c, rest);
      case '\t' => EntityReads("&#x9;", "#x9", c, rest);
      case '\n' => EntityReads("&#xA;", "#xA", c, rest);
      case '\r' => EntityReads("&#xD;", "#xD", c, rest);
      case _ => PlainReads(c, rest);
    }
  }

  lemma EscapeCharIsInert(c: char)
    ensures Inert(EscapeChar(c))
  {
  }

  lemma EntityReads(escaped: string, name: string, c: char, rest: string)
    requires escaped == "&" + name + ";" && ';' !in name && Entity(name) == Some(c)
    ensures Unescape(escaped + rest) == Prepend([c], Unescape(rest))
  {
    hide Entity, SplitOnce;
    assert escaped + rest == "" + "&" + (name + ";" + rest);
    SplitAt("", "&", name + ";" + rest);
    SplitAt(name, ";", rest);
    assert "" + [c] == [c];
  }

  lemma PlainReads(c: char, rest: string)
    requires c != '&'
    ensures Unescape([c] + rest) == Prepend([c], Unescape(rest))
  {
    hide Entity, SplitOnce;
    SplitLater(c, rest);
    assert [c] + [] == [c];
    var amp := SplitOnce(rest, "&");
    if amp.Some? {
      var entity := SplitOnce(amp.value.1, ";");
      if entity.Some? && Entity(entity.value.0).Some? {
        var e := Entity(entity.value.0).value;
        PrependTwice([c], amp.value.0 + [e], Unescape(entity.value.1));
        assert [c] + (amp.value.0 + [e]) == [c] + amp.value.0 + [e];
      }
    }
  }

  lemma SplitLater(c: char, rest: string)
    requires c != '&'
    ensures
      var parts := SplitOnce(rest, "&");
      SplitOnce([c] + rest, "&") == if parts.None? then None else Some(([c] + parts.value.0, parts.value.1))
  {
    hide Find;
    FindPast([c], rest, "&");
    var at := Find(rest, "&");
    if at.Some? {
      assert ([c] + rest)[..1 + at.value] == [c] + rest[..at.value];
      assert ([c] + rest)[1 + at.value + 1..] == rest[at.value + 1..];
    }
  }

  /** Escaped text reads to the text, for every text, and holds nothing that
      could end the element it is in. */
  lemma {:induction false} EscapedReads(text: string)
    ensures Unescape(Escape(text)) == Success(text)
    ensures Inert(Escape(text))
    decreases |text|
  {
    hide EscapeChar, Unescape;
    if text == "" {
      NothingReads();
    } else {
      EscapedReads(text[1..]);
      EscapeCharReads(text[0], Escape(text[1..]));
      EscapeCharIsInert(text[0]);
      assert [text[0]] + text[1..] == text;
    }
  }

  lemma NothingReads()
    ensures Unescape("") == Success("")
  {
  }

  // ----- finding past the elements of a plist

  /** `what` is never found starting in `a`, whatever comes after it. */
  ghost predicate Past(a: string, what: string) {
    forall b: string :: Find(a + b, what) == Shifted(|a|, Find(b, what))
  }

  lemma PastPlain(a: string, what: string)
    requires what != "" && what[0] !in a
    ensures Past(a, what)
  {
    forall b: string
      ensures Find(a + b, what) == Shifted(|a|, Find(b, what))
    {
      FindPast(a, b, what);
    }
  }

  /** A tag that is not `what`, and what follows it up to the next tag. */
  lemma PastTag(a: string, k: nat, what: string)
    requires k < |a| && k < |what| && a[k] != what[k] && what[0] !in a[1..]
    ensures Past(a, what)
  {
    hide Find, Past;
    forall b: string
      ensures Find(a + b, what) == Shifted(|a|, Find(b, what))
    {
      PastTagAt(a, k, b, what);
    }
    PastIs(a, what);
  }

  lemma PastTagAt(a: string, k: nat, b: string, what: string)
    requires k < |a| && k < |what| && a[k] != what[k] && what[0] !in a[1..]
    ensures Find(a + b, what) == Shifted(|a|, Find(b, what))
  {
    hide Find;
    var c, rest := a[0], a[1..];
    NotThere(a, k, b, what);
    assert a + b == [c] + (rest + b);
    FindNext(c, rest + b, what);
    FindPast(rest, b, what);
  }

  lemma NotThere(a: string, k: nat, b: string, what: string)
    requires k < |a| && k < |what| && a[k] != what[k]
    ensures !(what <= a + b)
  {
    assert (a + b)[k] == a[k];
  }

  lemma FindNext(c: char, s: string, what: string)
    requires !(what <= [c] + s)
    ensures Find([c] + s, what) == Shifted(1, Find(s, what))
  {
    assert ([c] + s)[1..] == s;
  }

  lemma PastBoth(a: string, b: string, what: string)
    requires Past(a, what) && Past(b, what)
    ensures Past(a + b, what)
  {
    hide Past, Find;
    forall c: string
      ensures Find((a + b) + c, what) == Shifted(|a + b|, Find(c, what))
    {
      PastAt(b, c, what);
      PastAt(a, b + c, what);
      assert (a + b) + c == a + (b + c);
    }
    PastIs(a + b, what);
  }

  lemma PastAt(a: string, b: string, what: string)
    requires Past(a, what)
    ensures Find(a + b, what) == Shifted(|a|, Find(b, what))
  {
  }

  lemma PastIs(a: string, what: string)
    requires forall b: string :: Find(a + b, what) == Shifted(|a|, Find(b, what))
    ensures Past(a, what)
  {
  }

  function Open(tag: string, text: string): string {
    "<" + tag + ">" + Escape(text)
  }

  function Close(tag: string): string {
    "</" + tag + ">\n"
  }

  /** An element neither of whose tags is `what`. */
  lemma PastElement(indent: string, tag: string, text: string, k: nat, m: nat, what: string)
    requires '<' !in indent && '<' !in tag && what != "" && what[0] == '<'
    requires k < |Open(tag, text)| && k < |what| && Open(tag, text)[k] != what[k]
    requires m < |Close(tag)| && m < |what| && Close(tag)[m] != what[m]
    ensures Past(Element(indent, tag, text), what)
  {
    var open, close := Open(tag, text), Close(tag);
    OneTag(tag, text);
    assert Element(indent, tag, text) == indent + open + close by {
      hide Escape;
    }
    hide *;
    PastPlain(indent, what);
    PastTag(open, k, what);
    PastTag(close, m, what);
    PastBoth(indent, open, what);
    PastBoth(indent + open, close, what);
  }

  lemma OneTag(tag: string, text: string)
    requires '<' !in tag
    ensures '<' !in Open(tag, text)[1..] && '<' !in Close(tag)[1..]
  {
    hide Escape;
    EscapedReads(text);
    assert Open(tag, text)[1..] == tag + ">" + Escape(text) && Close(tag)[1..] == "/" + tag + ">\n";
  }

  lemma PastXml(what: string)
    requires |what| > 1 && what[0] == '<' && what[1] != '?'
    ensures Past(XmlLine(), what)
  {
    hide Past;
    PastTag("<?xml ", 1, what);
    PastPlain("version=\"1.0\" ", what);
    PastPlain("encoding=\"UTF-8\"?>\n", what);
    PastBoth("<?xml ", "version=\"1.0\" ", what);
    PastBoth("<?xml " + "version=\"1.0\" ", "encoding=\"UTF-8\"?>\n", what);
  }

  lemma PastDoctype(what: string)
    requires |what| > 1 && what[0] == '<' && what[1] != '!'
    ensures Past(DoctypeLine(), what)
  {
    hide Past;
    var doctype, public, name := "<!DOCTYPE ", "plist PUBLIC ", "\"-//Apple//DTD PLIST 1.0//EN\" ";
    var host, file := "\"http://www.apple.com/", "DTDs/PropertyList-1.0.dtd\">\n";
    PastTag(doctype, 1, what);
    DoctypeIsPlain();
    PastPlain(public, what);
    PastPlain(name, what);
    PastPlain(host, what);
    PastPlain(file, what);
    PastBoth(doctype, public, what);
    PastBoth(doctype + public, name, what);
    PastBoth(doctype + public + name, host, what);
    PastBoth(doctype + public + name + host, file, what);
  }

  lemma DoctypeIsPlain()
    ensures '<' !in "plist PUBLIC " && '<' !in "\"-//Apple//DTD PLIST 1.0//EN\" "
    ensures '<' !in "\"http://www.apple.com/" && '<' !in "DTDs/PropertyList-1.0.dtd\">\n"
  {
  }

  lemma PastHead(what: string)
    requires |what| > 1 && what[0] == '<' && what[1] == 'k'
    ensures Past(PlistHead(), what)
  {
    hide Past, XmlLine, DoctypeLine;
    var plist, dict := "<plist version=\"1.0\">\n", "<dict>\n";
    PastXml(what);
    PastDoctype(what);
    PastTag(plist, 1, what);
    PastTag(dict, 1, what);
    PastBoth(XmlLine(), DoctypeLine(), what);
    PastBoth(XmlLine() + DoctypeLine(), plist, what);
    PastBoth(XmlLine() + DoctypeLine() + plist, dict, what);
  }

  lemma {:induction false} LettersEscape(text: string)
    requires forall i | 0 <= i < |text| :: 'A' <= text[i] <= 'z'
    ensures Escape(text) == text
    decreases |text|
  {
    if text == "" {
    } else {
      LettersEscape(text[1..]);
      assert EscapeChar(text[0]) == [text[0]];
    }
  }

  // ----- the plist reads back

  /** The plist from its first argument on. */
  function AfterMarker(spec: Spec): string {
    "\n\t" + ("<array>" + (("\n" + Strings(spec.args) + "\t") + ("</array>" + ("\n" + PlistTail(spec)))))
  }

  /** What is before the arguments. */
  function BeforeMarker(): string {
    PlistHead() + Element("\t", "key", "Label") + Element("\t", "string", LABEL) + "\t"
  }

  lemma MarkerIsFound(spec: Spec)
    ensures Find(PlistText(spec), MARKER) == Some(|BeforeMarker()|)
  {
    hide PlistText, Find, AfterMarker, BeforeMarker, MARKER;
    PastBefore();
    TextParts(spec);
    FoundPast(BeforeMarker(), MARKER, AfterMarker(spec));
  }

  lemma PastBefore()
    ensures Past(BeforeMarker(), MARKER)
  {
    hide Past, PlistHead, Element;
    var first, name := Element("\t", "key", "Label"), Element("\t", "string", LABEL);
    assert MARKER[0] == '<' && MARKER[1] == 'k';
    PastHead(MARKER);
    PastLabel();
    PastName();
    PastPlain("\t", MARKER);
    PastBoth(PlistHead(), first, MARKER);
    PastBoth(PlistHead() + first, name, MARKER);
    PastBoth(PlistHead() + first + name, "\t", MARKER);
  }

  /** The first `what` after what it is not found in. */
  lemma FoundPast(before: string, what: string, rest: string)
    requires Past(before, what)
    ensures Find(before + (what + rest), what) == Some(|before|)
  {
    assert what <= what + rest;
    assert Find(what + rest, what) == Some(0);
    hide Find;
  }

  lemma SplitPast(before: string, what: string, rest: string)
    requires Past(before, what)
    ensures SplitOnce(before + (what + rest), what) == Some((before, rest))
  {
    FoundPast(before, what, rest);
    hide Find;
    var s := before + (what + rest);
    assert s[..|before|] == before && s[|before| + |what|..] == rest;
  }

  lemma TextParts(spec: Spec)
    ensures PlistText(spec) == BeforeMarker() + (MARKER + AfterMarker(spec))
  {
    hide PlistHead, Element, Strings, PlistTail;
    ProgramElement();
    var before := PlistHead() + Element("\t", "key", "Label") + Element("\t", "string", LABEL);
    Assembled(before, MARKER, Strings(spec.args), PlistTail(spec));
  }

  lemma Assembled(before: string, marker: string, strings: string, tail: string)
    ensures before + ("\t" + marker + "\n") + "\t<array>\n" + strings + "\t</array>\n" + tail
         == before + "\t" +
            (marker + ("\n\t" + ("<array>" + (("\n" + strings + "\t") + ("</array>" + ("\n" + tail))))))
  {
    assert "\n" + "\t<array>\n" == "\n\t" + "<array>" + "\n" && "\t</array>\n" == "\t" + "</array>" + "\n";
  }

  lemma ProgramElement()
    ensures Element("\t", "key", ARGUMENTS) == "\t" + MARKER + "\n"
  {
    hide Escape, Element;
    LettersEscape(ARGUMENTS);
    KeyElement(ARGUMENTS);
  }

  lemma KeyElement(text: string)
    requires Escape(text) == text
    ensures Element("\t", "key", text) == "\t" + ("<key>" + text + "</key>") + "\n"
  {
    hide Escape;
    assert "<" + "key" + ">" == "<key>" && "</" + "key" + ">\n" == "</key>" + "\n";
  }

  lemma PastLabel()
    ensures Past(Element("\t", "key", "Label"), MARKER)
  {
    hide Past;
    LettersEscape("Label");
    PastElement("\t", "key", "Label", 5, 1, MARKER);
  }

  lemma PastName()
    ensures Past(Element("\t", "string", LABEL), MARKER)
  {
    hide Past, Escape;
    PastElement("\t", "string", LABEL, 1, 1, MARKER);
  }

  lemma PastMarker()
    ensures Past(MARKER, "<array>")
  {
    hide Past;
    var open, close := "<key>" + ARGUMENTS, "</key>";
    PastTag(open, 1, "<array>");
    PastTag(close, 1, "<array>");
    PastBoth(open, close, "<array>");
  }

  lemma ArrayStarts(rest: string)
    ensures SplitOnce(MARKER + "\n\t" + ("<array>" + rest), "<array>") == Some((MARKER + "\n\t", rest))
  {
    hide Past, SplitOnce, MARKER;
    PastMarker();
    PastPlain("\n\t", "<array>");
    PastBoth(MARKER, "\n\t", "<array>");
    SplitPast(MARKER + "\n\t", "<array>", rest);
  }

  lemma {:induction false} PastStrings(args: seq<string>)
    ensures Past(Strings(args), "</array>")
    decreases |args|
  {
    hide Past, Escape;
    if args == [] {
      PastPlain("", "</array>");
    } else {
      PastStrings(args[1..]);
      PastElement("\t\t", "string", args[0], 1, 2, "</array>");
      hide Element;
      PastBoth(Element("\t\t", "string", args[0]), Strings(args[1..]), "</array>");
    }
  }

  lemma ArrayEnds(args: seq<string>, rest: string)
    ensures
      var inner := "\n" + Strings(args) + "\t";
      SplitOnce(inner + ("</array>" + rest), "</array>") == Some((inner, rest))
  {
    hide Past, Strings, SplitOnce;
    PastPlain("\n", "</array>");
    PastStrings(args);
    PastPlain("\t", "</array>");
    PastBoth("\n", Strings(args), "</array>");
    PastBoth("\n" + Strings(args), "\t", "</array>");
    SplitPast("\n" + Strings(args) + "\t", "</array>", rest);
  }

  lemma {:induction false} StringsRead(args: seq<string>)
    ensures ReadStrings(TrimLeft("\n" + Strings(args) + "\t")) == Success(args)
    decreases |args|
  {
    hide ReadStrings, TrimLeft, Escape, Unescape, Strings;
    if args == [] {
      NoStringsParts();
      TrimPast("\n\t", "");
      NoStrings();
    } else {
      var rest := "\n" + Strings(args[1..]) + "\t";
      var first := "<string>" + Escape(args[0]) + "</string>" + rest;
      StringsParts(args);
      TrimPast("\n\t\t", first);
      StringReads(args[0], rest);
      StringsRead(args[1..]);
      assert [args[0]] + args[1..] == args;
    }
  }

  lemma StringsParts(args: seq<string>)
    requires args != []
    ensures "\n" + Strings(args) + "\t"
         == "\n\t\t" + ("<string>" + Escape(args[0]) + "</string>" + ("\n" + Strings(args[1..]) + "\t"))
  {
    StringElement(args[0]);
    hide Escape, Element;
    StringsAssembled(Escape(args[0]), Strings(args[1..]));
  }

  lemma StringElement(text: string)
    ensures Element("\t\t", "string", text) == "\t\t" + "<string>" + Escape(text) + "</string>" + "\n"
  {
    hide Escape;
    assert "<" + "string" + ">" == "<string>" && "</" + "string" + ">\n" == "</string>" + "\n";
  }

  lemma StringsAssembled(first: string, strings: string)
    ensures "\n" + ("\t\t" + "<string>" + first + "</string>" + "\n" + strings) + "\t"
         == "\n\t\t" + ("<string>" + first + "</string>" + ("\n" + strings + "\t"))
  {
    assert "\n" + "\t\t" == "\n\t\t";
  }

  lemma NoStrings()
    ensures ReadStrings("") == Success([])
  {
  }

  lemma NoStringsParts()
    ensures "\n" + Strings([]) + "\t" == "\n\t" + ""
  {
  }

  lemma StringReads(arg: string, rest: string)
    ensures
      ReadStrings("<string>" + Escape(arg) + "</string>" + rest) == Prepend([arg], ReadStrings(TrimLeft(rest)))
  {
    hide Escape, Unescape, TrimLeft, SplitOnce;
    EscapedReads(arg);
    SplitAt(Escape(arg), "</string>", rest);
    var text := "<string>" + Escape(arg) + "</string>" + rest;
    assert text[8..] == Escape(arg) + "</string>" + rest;
    assert text[7] == '>' && "<string/>"[7] == '/';
  }

  /** The arguments of a plist are those it was written with, for every
      specification: empty ones, white space, markup and all. */
  lemma PlistReads(spec: Spec)
    ensures PlistArgs(PlistText(spec)) == Success(spec.args)
  {
    hide PlistText, BeforeMarker, Find, SplitOnce, Strings, PlistTail, ReadStrings, TrimLeft;
    var text, inner := PlistText(spec), "\n" + Strings(spec.args) + "\t";
    MarkerIsFound(spec);
    TextParts(spec);
    var rest := inner + ("</array>" + ("\n" + PlistTail(spec)));
    assert text[|BeforeMarker()|..] == MARKER + ("\n\t" + ("<array>" + rest));
    assert MARKER + ("\n\t" + ("<array>" + rest)) == MARKER + "\n\t" + ("<array>" + rest);
    ArrayStarts(rest);
    ArrayEnds(spec.args, "\n" + PlistTail(spec));
    StringsRead(spec.args);
  }
}
