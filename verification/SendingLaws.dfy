/** Requests as a client writes them, and served as it wrote them. */
module SendingLaws {
  import opened Wrappers
  import opened Seqs
  import opened Decimals
  import opened Texts
  import opened Framing
  import opened HeadLaws

  // ----- what is sent is what is read

  /** A request as it is sent: its request line, its header lines, its body. */
  datatype Message = Message(line: string, headers: seq<string>, body: string)

  function Joined(lines: seq<string>): string {
    if lines == [] then "" else lines[0] + CRLF + Joined(lines[1..])
  }

  function HeadText(m: Message): string {
    m.line + CRLF + Joined(m.headers) + CRLF
  }

  function Text(m: Message): string {
    HeadText(m) + m.body
  }

  predicate OneLine(line: string) {
    line != "" && '\n' !in line
  }

  /** A request the peer may send: a request line that is one, header lines
      that declare its body's length, and a head of UTF-8 that fits. */
  predicate WellFormed(m: Message) {
    var line := RequestLine(m.line);
    && OneLine(m.line) && line.Some?
    && (forall i | 0 <= i < |m.headers| :: OneLine(m.headers[i]))
    && HeadersOf(m.headers, line.value.http10).Success?
    && HeadersOf(m.headers, line.value.http10).value.length == |m.body|
    && Utf8(HeadText(m)) && |HeadText(m)| <= HEAD_LIMIT + 1
  }

  /** The request a well-formed message is. */
  function RequestFor(m: Message): Request
    requires WellFormed(m)
  {
    var line := RequestLine(m.line).value;
    RequestOf(line, HeadersOf(m.headers, line.http10).value, m.body)
  }

  function WithEnds(lines: seq<string>): seq<string> {
    seq(|lines|, i requires 0 <= i < |lines| => lines[i] + CRLF)
  }

  lemma {:induction false} JoinedIsCat(lines: seq<string>)
    ensures Cat(WithEnds(lines)) == Joined(lines)
    decreases |lines|
  {
    if lines == [] {
    } else {
      JoinedIsCat(lines[1..]);
      assert WithEnds(lines)[1..] == WithEnds(lines[1..]);
    }
  }

  lemma MessageLine(s: string)
    requires OneLine(s)
    ensures TextLine(s + CRLF)
  {
    var line := s + CRLF;
    assert line[..|line| - 1] == s + "\r";
  }

  lemma HeadLinesAre(m: Message)
    requires OneLine(m.line) && forall i | 0 <= i < |m.headers| :: OneLine(m.headers[i])
    ensures
      var lines := WithEnds([m.line] + m.headers);
      lines != [] && (forall line <- lines :: TextLine(line)) && Cat(lines) + CRLF == HeadText(m)
  {
    hide TextLine;
    var all := [m.line] + m.headers;
    forall line | line in WithEnds(all)
      ensures TextLine(line)
    {
      var i :| 0 <= i < |all| && line == WithEnds(all)[i];
      MessageLine(all[i]);
    }
    JoinedIsCat(all);
    assert all[1..] == m.headers;
  }

  /** The head of a message is read whole when it fits, and refused when it
      does not. */
  lemma HeadIsRead(m: Message, more: string)
    requires OneLine(m.line) && forall i | 0 <= i < |m.headers| :: OneLine(m.headers[i])
    ensures
      HeadFrom("", HeadText(m) + more) ==
      if |HeadText(m)| <= HEAD_LIMIT + 1 then Head(HeadText(m), more) else NoHead(Bad(HeadTooLong))
  {
    hide HeadFrom, TextLine, Joined;
    var lines := WithEnds([m.line] + m.headers);
    HeadLinesAre(m);
    HeadReadsExactly("", lines, CRLF, more);
    assert "" + Cat(lines) + CRLF == HeadText(m);
  }

  /** However a message is otherwise, its head being too long refuses it. */
  lemma LongHeadIsRefused(m: Message, more: string)
    requires OneLine(m.line) && forall i | 0 <= i < |m.headers| :: OneLine(m.headers[i])
    requires |HeadText(m)| > HEAD_LIMIT + 1
    ensures Read(Text(m) + more) == Bad(HeadTooLong)
  {
    hide HeadFrom, Parse, HeadText;
    HeadIsRead(m, m.body + more);
    assert Text(m) + more == HeadText(m) + (m.body + more);
  }

  lemma LinesAfter(line: string, rest: string)
    requires '\n' !in line
    ensures Lines(line + CRLF + rest) == [line] + Lines(rest)
  {
    hide Lines, Chomp;
    LinesFirst(line + "\r", rest);
    assert line + CRLF + rest == line + "\r" + "\n" + rest;
    ChompCrlf(line);
  }

  lemma ChompCrlf(line: string)
    ensures Chomp(line + "\r" + "\n") == line
  {
    assert (line + "\r" + "\n")[..|line| + 1] == line + "\r";
  }

  lemma NoLines()
    ensures Lines("") == []
  {
  }

  lemma {:induction false} JoinedLines(lines: seq<string>)
    requires forall i | 0 <= i < |lines| :: OneLine(lines[i])
    ensures Lines(Joined(lines) + CRLF) == lines + [""]
    decreases |lines|
  {
    hide Lines;
    if lines == [] {
      LinesAfter("", "");
      NoLines();
      assert "" + CRLF + "" == CRLF && Joined(lines) + CRLF == CRLF;
    } else {
      JoinedLines(lines[1..]);
      LinesAfter(lines[0], Joined(lines[1..]) + CRLF);
      assert Joined(lines) + CRLF == lines[0] + CRLF + (Joined(lines[1..]) + CRLF);
    }
  }

  /** A well-formed message's head says what its lines say. */
  lemma HeadParses(m: Message)
    requires WellFormed(m)
    ensures
      var line := RequestLine(m.line).value;
      Parse(HeadText(m)) == Success((line, HeadersOf(m.headers, line.http10).value))
  {
    hide Utf8, RequestLine, ScanLines, Lines, Joined;
    LinesAfter(m.line, Joined(m.headers) + CRLF);
    JoinedLines(m.headers);
    assert HeadText(m) == m.line + CRLF + (Joined(m.headers) + CRLF);
    assert ([m.line] + (m.headers + [""]))[1..] == m.headers + [""];
    LastLineSaysNothing(m.headers);
  }

  /** A well-formed message reads to its request, whatever follows it. */
  lemma MessageIsRead(m: Message, more: string)
    requires WellFormed(m)
    ensures Read(Text(m) + more) == Got(RequestFor(m), more)
  {
    hide HeadFrom, Parse, RequestLine, ScanLines, PathAndQuery, HeadText;
    HeadIsRead(m, m.body + more);
    HeadParses(m);
    assert Text(m) + more == HeadText(m) + (m.body + more);
    assert (m.body + more)[..|m.body|] == m.body && (m.body + more)[|m.body|..] == more;
  }

  lemma LastLineSaysNothing(lines: seq<string>)
    ensures ScanLines(lines + [""]) == ScanLines(lines)
  {
    assert (lines + [""])[..|lines|] == lines;
  }

  function Sent(messages: seq<Message>): string {
    if messages == [] then "" else Text(messages[0]) + Sent(messages[1..])
  }

  /** The requests served of those sent: all, or those up to the first that
      asks to close, with the rest unread; then what follows them. */
  function Expected(messages: seq<Message>, tail: string): Served
    requires forall m <- messages :: WellFormed(m)
  {
    if messages == [] then Serve(tail)
    else
      var request := RequestFor(messages[0]);
      if request.close then Served([request], Closed(Sent(messages[1..]) + tail))
      else
        var more := Expected(messages[1..], tail);
        more.(requests := [request] + more.requests)
  }

  /** However many requests are sent, and whatever comes after them, exactly
      those are served, in order, and what comes after is read on its own. */
  lemma {:induction false} SentIsServed(messages: seq<Message>, tail: string)
    requires forall m <- messages :: WellFormed(m)
    ensures Serve(Sent(messages) + tail) == Expected(messages, tail)
    decreases |messages|
  {
    hide Read, WellFormed, RequestFor, Text;
    if messages == [] {
      assert Sent(messages) + tail == tail;
    } else {
      SentIsServed(messages[1..], tail);
      MessageIsRead(messages[0], Sent(messages[1..]) + tail);
      assert Sent(messages) + tail == Text(messages[0]) + (Sent(messages[1..]) + tail);
    }
  }

  /** When none asks to close, the requests are served to the end of the input. */
  lemma {:induction false} AllAreServed(messages: seq<Message>)
    requires forall m <- messages :: WellFormed(m) && !RequestFor(m).close
    ensures
      var served := Serve(Sent(messages));
      && served.ending == InputEnded && |served.requests| == |messages|
      && forall i | 0 <= i < |messages| :: served.requests[i] == RequestFor(messages[i])
    decreases |messages|
  {
    hide Read, WellFormed, RequestFor, Text;
    if messages == [] {
      NothingIsTheEnd();
    } else {
      AllAreServed(messages[1..]);
      MessageIsRead(messages[0], Sent(messages[1..]));
    }
  }

  lemma NothingIsTheEnd()
    ensures Read("") == AtEnd
  {
  }

  // ----- UTF-8

  lemma FirstStays(a: string, b: string)
    requires FirstWidth(a) > 0
    ensures FirstWidth(a + b) == FirstWidth(a)
  {
    assert forall i | 0 <= i < |a| :: (a + b)[i] == a[i];
  }

  lemma {:induction false} Utf8Joins(a: string, b: string)
    requires Utf8(a) && Utf8(b)
    ensures Utf8(a + b)
    decreases |a|
  {
    hide FirstWidth;
    if a == "" {
      assert a + b == b;
    } else {
      var k := FirstWidth(a);
      FirstStays(a, b);
      Utf8Joins(a[k..], b);
      assert (a + b)[k..] == a[k..] + b;
    }
  }

  predicate Ascii(s: string) {
    forall c <- s :: Between(c, 0, 0x7F)
  }

  lemma {:induction false} AsciiIsUtf8(s: string)
    requires Ascii(s)
    ensures Utf8(s)
    decreases |s|
  {
    if s == "" {
    } else {
      AsciiIsUtf8(s[1..]);
    }
  }

  /** What is between what is UTF-8 already. */
  lemma MarksAreUtf8()
    ensures Utf8(" ") && Utf8(": ") && Utf8("?") && Utf8(CRLF) && Utf8(" HTTP/1.1")
  {
    AsciiIsUtf8(" ");
    AsciiIsUtf8(": ");
    AsciiIsUtf8("?");
    AsciiIsUtf8(CRLF);
    AsciiIsUtf8(" HTTP/1.1");
  }

  lemma {:induction false} JoinedIsUtf8(lines: seq<string>)
    requires forall i | 0 <= i < |lines| :: Utf8(lines[i])
    ensures Utf8(Joined(lines))
    decreases |lines|
  {
    hide Utf8;
    if lines == [] {
      AsciiIsUtf8("");
    } else {
      MarksAreUtf8();
      JoinedIsUtf8(lines[1..]);
      Utf8Joins(lines[0], CRLF);
      Utf8Joins(lines[0] + CRLF, Joined(lines[1..]));
    }
  }

  // ----- a request, field by field

  /** No space and no line end. */
  predicate Word(s: string) {
    ' ' !in s && '\n' !in s && Utf8(s)
  }

  /** What a header can say: no line end, and nothing that would be trimmed. */
  predicate Value(v: string) {
    && '\n' !in v && Utf8(v)
    && (v == "" || (!Optional(v[0]) && !Optional(v[|v| - 1])))
  }

  function Target(r: Request): string {
    r.path + if r.query == "" then "" else "?" + r.query
  }

  function Header(name: string, value: string): string {
    name + ": " + value
  }

  function When(header: string, given: bool): seq<string> {
    if given then [header] else []
  }

  /** A request as the remote store's client writes it. */
  function MessageOf(r: Request): Message {
    Message(
      r.httpMethod + " " + Target(r) + " HTTP/1.1",
      [Header("Host", "localhost")]
      + When(Header("User-Agent", if r.agent.Some? then r.agent.value else ""), r.agent.Some?)
      + When(Header("Content-Type", if r.contentType.Some? then r.contentType.value else ""), r.contentType.Some?)
      + When(Header("Connection", "close"), r.close)
      + [Header("Content-Length", Decimal(|r.body|))],
      r.body)
  }

  /** The requests that can be sent, by their fields alone: a method, path and
      query with no space, a path from the root, header values with no line end
      and nothing around them, UTF-8 throughout, and sizes within the limits. */
  predicate Sendable(r: Request) {
    && r.httpMethod != "" && Word(r.httpMethod)
    && r.path != "" && r.path[0] == '/' && '?' !in r.path && Word(r.path) && Word(r.query)
    && (r.agent.Some? ==> Value(r.agent.value))
    && (r.contentType.Some? ==> Value(r.contentType.value))
    && |r.body| <= BODY_LIMIT
    && |HeadText(MessageOf(r))| <= HEAD_LIMIT + 1
  }

  // ----- its request line

  lemma SplitsAt(a: string, b: string, separator: char)
    requires separator !in a
    ensures Parts(a + [separator] + b, separator) == [a] + Parts(b, separator)
    ensures Parts(a, separator) == [a]
  {
    PositionAfter(a, [separator] + b, separator);
    assert a + [separator] + b == a + ([separator] + b);
  }

  lemma LineReads(httpMethod: string, target: string)
    requires httpMethod != "" && ' ' !in httpMethod
    requires target != "" && target[0] == '/' && ' ' !in target
    ensures RequestLine(httpMethod + " " + target + " HTTP/1.1") == Some(Line(httpMethod, target, false))
  {
    hide Parts;
    SplitsAt(httpMethod, target + " HTTP/1.1", ' ');
    SplitsAt(target, "HTTP/1.1", ' ');
    SplitsAt("HTTP/1.1", "", ' ');
    assert httpMethod + " " + target + " HTTP/1.1" == httpMethod + [' '] + (target + " HTTP/1.1");
    assert target + " HTTP/1.1" == target + [' '] + "HTTP/1.1";
  }

  lemma TargetReads(r: Request)
    requires '?' !in r.path
    ensures PathAndQuery(Target(r)) == (r.path, r.query)
  {
    hide Position;
    if r.query == "" {
      assert r.path + "" == r.path;
    } else {
      PositionAfter(r.path, "?" + r.query, '?');
      assert Target(r)[|r.path| + 1..] == r.query;
    }
  }

  // ----- its headers

  lemma ValueIsTrimmed(v: string)
    requires Value(v)
    ensures Ows(" " + v) == v
  {
    assert (" " + v)[1..] == v;
    assert TrimStart(v) == v && TrimEnd(v) == v;
  }

  /** Where a header's name ends, and what its value is. */
  lemma HeaderParts(name: string, value: string)
    requires ':' !in name && Value(value)
    ensures
      var line := Header(name, value);
      && line != "" && Position(line, ':') == Some(|name|)
      && line[..|name|] == name && Ows(line[|name| + 1..]) == value
  {
    hide Ows;
    var line := Header(name, value);
    PositionAfter(name, ": " + value, ':');
    assert line == name + (": " + value);
    assert line[|name| + 1..] == " " + value;
    ValueIsTrimmed(value);
  }

  lemma PlainIsValue(s: string)
    requires forall i | 0 <= i < |s| :: 'a' <= s[i] <= 'z'
    ensures Value(s)
  {
    AsciiIsUtf8(s);
  }

  lemma HostSays(scan: Scan)
    ensures ScanLine(scan, Header("Host", "localhost")) == Success(scan)
  {
    hide Ows, Position, Value;
    PlainIsValue("localhost");
    HeaderParts("Host", "localhost");
    assert Lower("Host") == "host";
  }

  lemma AgentSays(scan: Scan, v: string)
    requires Value(v)
    ensures ScanLine(scan, Header("User-Agent", v)) == Success(scan.(agent := Some(v)))
  {
    hide Ows, Position, Value;
    HeaderParts("User-Agent", v);
    assert Lower("User-Agent") == "user-agent";
  }

  lemma TypeSays(scan: Scan, v: string)
    requires Value(v)
    ensures ScanLine(scan, Header("Content-Type", v)) == Success(scan.(contentType := Some(v)))
  {
    hide Ows, Position, Value;
    HeaderParts("Content-Type", v);
    assert Lower("Content-Type") == "content-type";
  }

  lemma CloseSays(scan: Scan)
    ensures ScanLine(scan, Header("Connection", "close")) == Success(scan.(closes := true))
  {
    hide Ows, Position, SaysToken, Value;
    PlainIsValue("close");
    HeaderParts("Connection", "close");
    assert Lower("Connection") == "connection";
    OneToken();
  }

  lemma OneToken()
    ensures SaysToken("close", "close") && !SaysToken("close", "keep-alive")
  {
    hide Parts, Position, Value;
    SplitsAt("close", "", ',');
    PlainIsValue("close");
    PlainIsTrimmed("close");
    assert Parts("close", ',')[0] == "close";
    assert Lower("close") == "close" != "keep-alive";
  }

  lemma PlainIsTrimmed(s: string)
    requires forall i | 0 <= i < |s| :: 'a' <= s[i] <= 'z'
    ensures Ows(s) == s
  {
  }

  lemma LengthSays(scan: Scan, digits: string)
    requires AllDigits(digits) && digits != "" && NumberOf(digits) <= BODY_LIMIT && scan.length.None?
    ensures ScanLine(scan, Header("Content-Length", digits)) == Success(scan.(length := Some(NumberOf(digits))))
  {
    hide NumberOf, Ows, Position, Value;
    DigitsAreValue(digits);
    HeaderParts("Content-Length", digits);
    assert Lower("Content-Length") == "content-length";
  }

  lemma DigitsAreValue(digits: string)
    requires AllDigits(digits)
    ensures Value(digits)
  {
    assert forall i | 0 <= i < |digits| :: IsDigit(digits[i]);
    AsciiIsUtf8(digits);
  }

  lemma ScanSnoc(lines: seq<string>, line: string)
    requires ScanLines(lines).Success?
    ensures ScanLines(lines + [line]) == ScanLine(ScanLines(lines).value, line)
  {
    assert (lines + [line])[..|lines|] == lines;
  }

  /** What a request's header lines say, taken together. */
  lemma HeadersRead(r: Request)
    requires Sendable(r)
    ensures HeadersOf(MessageOf(r).headers, false) ==
            Success(Headers(|r.body|, r.contentType, r.close, r.agent))
  {
    hide ScanLine, ScanLines, Value, Word, HeadText, NumberOf;
    var lines := [Header("Host", "localhost")];
    NothingSaid();
    ScanSnoc([], lines[0]);
    HostSays(NONE_YET);
    assert [] + lines == lines;
    var scan := NONE_YET;
    if r.agent.Some? {
      var line := Header("User-Agent", r.agent.value);
      ScanSnoc(lines, line);
      AgentSays(scan, r.agent.value);
      lines, scan := lines + [line], scan.(agent := r.agent);
    }
    if r.contentType.Some? {
      var line := Header("Content-Type", r.contentType.value);
      ScanSnoc(lines, line);
      TypeSays(scan, r.contentType.value);
      lines, scan := lines + [line], scan.(contentType := r.contentType);
    }
    if r.close {
      var line := Header("Connection", "close");
      ScanSnoc(lines, line);
      CloseSays(scan);
      lines, scan := lines + [line], scan.(closes := true);
    }
    DecimalReads(|r.body|);
    ScanSnoc(lines, Header("Content-Length", Decimal(|r.body|)));
    LengthSays(scan, Decimal(|r.body|));
    assert MessageOf(r).headers == lines + [Header("Content-Length", Decimal(|r.body|))];
  }

  lemma NothingSaid()
    ensures ScanLines([]) == Success(NONE_YET)
  {
  }

  lemma HeaderIsLine(name: string, value: string)
    requires '\n' !in name && Ascii(name) && Value(value)
    ensures OneLine(Header(name, value)) && Utf8(Header(name, value))
  {
    hide Utf8;
    MarksAreUtf8();
    AsciiIsUtf8(name);
    Utf8Joins(name, ": ");
    Utf8Joins(name + ": ", value);
  }

  /** Each header line is one line of UTF-8. */
  lemma HeadersAreLines(r: Request)
    requires Sendable(r)
    ensures forall line <- MessageOf(r).headers :: OneLine(line) && Utf8(line)
  {
    hide Utf8, HeadText, Word, Value, OneLine, Header, AllDigits, Decimal;
    PlainIsValue("localhost");
    PlainIsValue("close");
    DigitsAreValue(Decimal(|r.body|));
    HeaderIsLine("Host", "localhost");
    HeaderIsLine("Connection", "close");
    HeaderIsLine("Content-Length", Decimal(|r.body|));
    if r.agent.Some? {
      HeaderIsLine("User-Agent", r.agent.value);
    }
    if r.contentType.Some? {
      HeaderIsLine("Content-Type", r.contentType.value);
    }
  }

  lemma LineIsLine(r: Request)
    requires Sendable(r)
    ensures OneLine(MessageOf(r).line) && Utf8(MessageOf(r).line)
    ensures RequestLine(MessageOf(r).line) == Some(Line(r.httpMethod, Target(r), false))
  {
    hide Utf8, HeadText, Value, RequestLine;
    MarksAreUtf8();
    Utf8Joins("?", r.query);
    Utf8Joins(r.path, if r.query == "" then "" else "?" + r.query);
    Utf8Joins(r.httpMethod, " ");
    Utf8Joins(r.httpMethod + " ", Target(r));
    Utf8Joins(r.httpMethod + " " + Target(r), " HTTP/1.1");
    LineReads(r.httpMethod, Target(r));
  }

  /** A request that can be sent is written as a message that reads back to
      it, every field as it was. */
  lemma SendableReads(r: Request)
    requires Sendable(r)
    ensures WellFormed(MessageOf(r)) && RequestFor(MessageOf(r)) == r
  {
    hide Utf8, HeadersOf, RequestLine, Word, Value, OneLine, Target, PathAndQuery;
    var m := MessageOf(r);
    LineIsLine(r);
    HeadersAreLines(r);
    HeadersRead(r);
    TargetReads(r);
    MarksAreUtf8();
    JoinedIsUtf8(m.headers);
    Utf8Joins(m.line, CRLF);
    Utf8Joins(m.line + CRLF, Joined(m.headers));
    Utf8Joins(m.line + CRLF + Joined(m.headers), CRLF);
  }

  // ----- requests in, requests out

  function MessagesOf(requests: seq<Request>): seq<Message> {
    seq(|requests|, i requires 0 <= i < |requests| => MessageOf(requests[i]))
  }

  /** What a connection makes of requests written one after another, before
      `tail`: those requests, up to the first that closes it, and then what the
      tail reads to. */
  function Delivered(requests: seq<Request>, tail: string): Served {
    if requests == [] then Serve(tail)
    else if requests[0].close then Served([requests[0]], Closed(Sent(MessagesOf(requests[1..])) + tail))
    else
      var more := Delivered(requests[1..], tail);
      more.(requests := [requests[0]] + more.requests)
  }

  /** Written and read, any list of requests comes out as it went in, whatever
      bytes come after it; those bytes are read on their own. */
  lemma {:induction false} RequestsAreDelivered(requests: seq<Request>, tail: string)
    requires forall r <- requests :: Sendable(r)
    ensures Serve(Sent(MessagesOf(requests)) + tail) == Delivered(requests, tail)
    decreases |requests|
  {
    hide Read, Text, Sendable, MessageOf, RequestFor, WellFormed;
    if requests == [] {
      assert Sent(MessagesOf(requests)) + tail == tail;
    } else {
      var r, rest := requests[0], Sent(MessagesOf(requests[1..])) + tail;
      RequestsAreDelivered(requests[1..], tail);
      SendableReads(r);
      MessageIsRead(MessageOf(r), rest);
      assert MessagesOf(requests)[1..] == MessagesOf(requests[1..]);
      assert Sent(MessagesOf(requests)) + tail == Text(MessageOf(r)) + rest;
    }
  }

  /** When none of them closes the connection, exactly they are served. */
  lemma RequestsRoundTrip(requests: seq<Request>)
    requires forall r <- requests :: Sendable(r) && !r.close
    ensures Serve(Sent(MessagesOf(requests))) == Served(requests, InputEnded)
  {
    hide Read, Text, Sendable, MessageOf, Serve;
    var sent := Sent(MessagesOf(requests));
    RequestsAreDelivered(requests, "");
    assert sent + "" == sent;
    AllDelivered(requests);
  }

  lemma {:induction false} AllDelivered(requests: seq<Request>)
    requires forall r <- requests :: !r.close
    ensures Delivered(requests, "") == Served(requests, InputEnded)
    decreases |requests|
  {
    if requests == [] {
      NothingIsTheEnd();
    } else {
      AllDelivered(requests[1..]);
      assert [requests[0]] + requests[1..] == requests;
    }
  }

  /** A request to post a body, with the one header the body needs. */
  function PlainPost(target: string, body: string): Message {
    Message("POST " + target + " HTTP/1.1", [Header("Content-Length", Decimal(|body|))], body)
  }

  lemma PlainLine(target: string)
    requires target != "" && target[0] == '/' && Word(target)
    ensures
      var line := "POST " + target + " HTTP/1.1";
      OneLine(line) && Utf8(line) && RequestLine(line) == Some(Line("POST", target, false))
  {
    hide Utf8, RequestLine;
    MarksAreUtf8();
    AsciiIsUtf8("POST ");
    Utf8Joins("POST ", target);
    Utf8Joins("POST " + target, " HTTP/1.1");
    assert "POST" + " " == "POST ";
    LineReads("POST", target);
  }

  /** A plain request, with the one header its body needs, is well formed
      whatever its target and its body, and reads to just that. */
  lemma PlainRequestFits(target: string, body: string)
    requires target != "" && target[0] == '/' && Word(target) && |body| <= BODY_LIMIT
    requires |HeadText(PlainPost(target, body))| <= HEAD_LIMIT + 1
    ensures
      var m := PlainPost(target, body);
      var (path, query) := PathAndQuery(target);
      WellFormed(m) && RequestFor(m) == Request("POST", path, query, None, body, false, None)
  {
    hide Utf8, ScanLines, ScanLine, RequestLine, OneLine, NumberOf, PathAndQuery, Value;
    var m, digits := PlainPost(target, body), Decimal(|body|);
    PlainLine(target);
    MarksAreUtf8();
    DecimalReads(|body|);
    DigitsAreValue(digits);
    HeaderIsLine("Content-Length", digits);
    NothingSaid();
    ScanSnoc([], Header("Content-Length", digits));
    LengthSays(NONE_YET, digits);
    assert [] + m.headers == m.headers;
    JoinedIsUtf8(m.headers);
    Utf8Joins(m.line, CRLF);
    Utf8Joins(m.line + CRLF, Joined(m.headers));
    Utf8Joins(m.line + CRLF + Joined(m.headers), CRLF);
  }
}
