/** What each part of a request is read as, exactly: its request line and its
    headers, the first fault of one that is refused, and when it closes the
    connection. */
module RequestLaws {
  import opened Wrappers
  import opened Seqs
  import opened Decimals
  import opened Texts
  import opened Framing
  import opened FramingLaws
  import opened HeadLaws
  import opened SendingLaws

  // ----- the request line

  function LineText(l: Line): string {
    l.httpMethod + " " + l.target + if l.http10 then " HTTP/1.0" else " HTTP/1.1"
  }

  /** Words that a request line can be made of. */
  predicate LineFits(l: Line) {
    && l.httpMethod != "" && ' ' !in l.httpMethod
    && l.target != "" && l.target[0] == '/' && ' ' !in l.target
  }

  function JoinedBy(parts: seq<string>, separator: char): string {
    if parts == [] then ""
    else if |parts| == 1 then parts[0]
    else parts[0] + [separator] + JoinedBy(parts[1..], separator)
  }

  lemma {:induction false} PartsJoin(s: string, separator: char)
    ensures JoinedBy(Parts(s, separator), separator) == s
    ensures forall part <- Parts(s, separator) :: separator !in part
    decreases |s|
  {
    var at := Position(s, separator);
    if at.None? {
    } else {
      PartsJoin(s[at.value + 1..], separator);
      assert s == s[..at.value] + [separator] + s[at.value + 1..];
      assert Parts(s, separator)[1..] == Parts(s[at.value + 1..], separator);
    }
  }

  /** A word of a list: all there is between two separators, or an end. */
  predicate StandsIn(s: string, separator: char, before: string, word: string, after: string) {
    && s == before + word + after && separator !in word
    && (before != "" ==> before[|before| - 1] == separator) && (after != "" ==> after[0] == separator)
  }

  lemma WholeStands(s: string, separator: char)
    requires separator !in s
    ensures StandsIn(s, separator, "", s, "")
  {
    assert s == "" + s + "";
  }

  lemma FirstStands(first: string, separator: char, rest: string)
    requires separator !in first
    ensures StandsIn(first + [separator] + rest, separator, "", first, [separator] + rest)
  {
    assert first + [separator] + rest == "" + first + ([separator] + rest);
  }

  lemma LaterStands(first: string, separator: char, rest: string, before: string, word: string, after: string)
    requires StandsIn(rest, separator, before, word, after)
    ensures StandsIn(first + [separator] + rest, separator, first + [separator] + before, word, after)
  {
    assert first + [separator] + (before + word + after) == (first + [separator] + before) + word + after;
  }

  lemma {:induction false} PartStands(s: string, separator: char, word: string) returns (before: string, after: string)
    requires word in Parts(s, separator)
    ensures StandsIn(s, separator, before, word, after)
    decreases |s|
  {
    hide StandsIn;
    var at := Position(s, separator);
    if at.None? {
      before, after := "", "";
      WholeStands(s, separator);
    } else {
      var first, rest := s[..at.value], s[at.value + 1..];
      assert Parts(s, separator) == [first] + Parts(rest, separator);
      assert s == first + [separator] + rest;
      hide Parts, Position;
      if word == first {
        before, after := "", [separator] + rest;
        FirstStands(first, separator, rest);
      } else {
        before, after := PartStands(rest, separator, word);
        LaterStands(first, separator, rest, before, word, after);
        before := first + [separator] + before;
      }
    }
  }

  lemma {:induction false} StandingIsPart(s: string, separator: char, before: string, word: string, after: string)
    requires StandsIn(s, separator, before, word, after)
    ensures word in Parts(s, separator)
    decreases |s|
  {
    var at := Position(s, separator);
    if before == "" {
      if after == "" {
        assert s == word;
      } else {
        assert s == word + after;
        PositionAfter(word, after, separator);
        assert s[..|word|] == word;
      }
    } else {
      assert s[|before| - 1] == separator;
      assert at.value < |before|;
      var rest := before[at.value + 1..];
      assert s[at.value + 1..] == rest + word + after;
      assert rest != "" ==> rest[|rest| - 1] == before[|before| - 1];
      StandingIsPart(s[at.value + 1..], separator, rest, word, after);
    }
  }

  /** A `Connection` header says a token when one of the words between its
      commas is the token, in any case and with any spaces around it. */
  lemma SaysTokenExactly(value: string, token: string)
    ensures SaysToken(value, token) <==>
            exists before, word, after :: StandsIn(value, ',', before, word, after) && Lower(Ows(word)) == token
  {
    hide StandsIn, Lower, Ows, Parts;
    forall part | part in Parts(value, ',')
      ensures exists before, after :: StandsIn(value, ',', before, part, after)
    {
      var before, after := PartStands(value, ',', part);
    }
    forall before, word, after | StandsIn(value, ',', before, word, after)
      ensures word in Parts(value, ',')
    {
      StandingIsPart(value, ',', before, word, after);
    }
  }

  lemma ThreeJoined(parts: seq<string>, separator: char)
    requires |parts| == 3
    ensures JoinedBy(parts, separator) == parts[0] + [separator] + (parts[1] + [separator] + parts[2])
  {
    assert |parts[1..]| == 2 && parts[1..][1..] == [parts[2]];
    assert JoinedBy([parts[2]], separator) == parts[2];
    assert JoinedBy(parts[1..], separator) == parts[1] + [separator] + parts[2];
  }

  lemma LineIsText(line: string)
    requires RequestLine(line).Some?
    ensures LineFits(RequestLine(line).value) && line == LineText(RequestLine(line).value)
  {
    hide Parts;
    PartsJoin(line, ' ');
    var parts := Parts(line, ' ');
    assert parts[0] in parts && parts[1] in parts;
    ThreeJoined(parts, ' ');
  }

  lemma TextIsLine(l: Line)
    requires LineFits(l)
    ensures RequestLine(LineText(l)) == Some(l)
  {
    hide Parts;
    var version := if l.http10 then "HTTP/1.0" else "HTTP/1.1";
    SplitsAt(l.httpMethod, l.target + " " + version, ' ');
    SplitsAt(l.target, version, ' ');
    SplitsAt(version, "", ' ');
    assert LineText(l) == l.httpMethod + [' '] + (l.target + " " + version);
    assert l.target + " " + version == l.target + [' '] + version;
  }

  /** A line is read as a method, a target and a version if and only if it is
      those words, written with one space between them. */
  lemma RequestLineExactly(line: string, l: Line)
    ensures RequestLine(line) == Some(l) <==> LineFits(l) && line == LineText(l)
  {
    hide RequestLine, LineText;
    if RequestLine(line) == Some(l) {
      LineIsText(line);
    }
    if LineFits(l) {
      TextIsLine(l);
    }
  }

  /** The path and the query are the target, cut at its first `?`. */
  lemma TargetExactly(target: string, path: string, query: string)
    ensures PathAndQuery(target) == (path, query) <==>
            && '?' !in path
            && (target == path + "?" + query || (query == "" && target == path))
  {
    hide Position;
    var at := Position(target, '?');
    if target == path + "?" + query && '?' !in path {
      assert target == path + ("?" + query);
      PositionAfter(path, "?" + query, '?');
      assert target[|path| + 1..] == query;
    }
    if at.Some? {
      assert target == target[..at.value] + "?" + target[at.value + 1..];
    }
  }

  // ----- values

  /** A header's name is of the visible ASCII characters that are not the
      delimiters of section 5.6.2 of RFC 9110. */
  lemma TokenExactly(s: string)
    ensures IsToken(s) <==>
            s != "" && forall c <- s :: '!' <= c <= '~' && c !in "\"(),/:;<=>?@[\\]{}"
  {
    forall c: char
      ensures TokenChar(c) <==> '!' <= c <= '~' && c !in "\"(),/:;<=>?@[\\]{}"
    {
      TokenCharExactly(c);
    }
  }

  lemma TokenCharExactly(c: char)
    ensures TokenChar(c) <==> '!' <= c <= '~' && c !in "\"(),/:;<=>?@[\\]{}"
  {
  }

  /** A value is what is between the spaces and tabs around it. */
  lemma OwsExactly(v: string)
    ensures
      var o := Ows(v);
      && (o == "" || (!Optional(o[0]) && !Optional(o[|o| - 1])))
      && exists before: string, after: string ::
           && (forall c <- before :: Optional(c)) && (forall c <- after :: Optional(c))
           && v == before + o + after
  {
    hide TrimStart, TrimEnd;
    var before := TrimmedBefore(v);
    var rest := TrimStart(v);
    var after := TrimmedAfter(rest);
    assert v == before + Ows(v) + after;
  }

  lemma {:induction false} TrimmedBefore(v: string) returns (before: string)
    ensures v == before + TrimStart(v) && forall c <- before :: Optional(c)
    ensures TrimStart(v) == "" || !Optional(TrimStart(v)[0])
    decreases |v|
  {
    if v == "" || !Optional(v[0]) {
      before := "";
    } else {
      before := TrimmedBefore(v[1..]);
      before := [v[0]] + before;
    }
  }

  lemma {:induction false} TrimmedAfter(v: string) returns (after: string)
    requires v == "" || !Optional(v[0])
    ensures v == TrimEnd(v) + after && forall c <- after :: Optional(c)
    ensures
      var o := TrimEnd(v);
      o == "" || (!Optional(o[0]) && !Optional(o[|o| - 1]))
    decreases |v|
  {
    if v == "" || !Optional(v[|v| - 1]) {
      after := "";
    } else {
      after := TrimmedAfter(v[..|v| - 1]);
      after := after + [v[|v| - 1]];
    }
  }

  /** What the last line to name a header says of it. */
  function LastNamed(lines: seq<string>, name: string): Option<string>
    decreases |lines|
  {
    if lines == [] then None
    else if Names(lines[|lines| - 1], name) then Some(ValueOf(lines[|lines| - 1]))
    else LastNamed(lines[..|lines| - 1], name)
  }

  lemma {:induction false} LastIsKept(lines: seq<string>)
    requires ScanLines(lines).Success?
    ensures ScanLines(lines).value.contentType == LastNamed(lines, "content-type")
    ensures ScanLines(lines).value.agent == LastNamed(lines, "user-agent")
    decreases |lines|
  {
    hide ScanLine, Names, ValueOf;
    if lines == [] {
    } else {
      var init, line := lines[..|lines| - 1], lines[|lines| - 1];
      LastIsKept(init);
      LineSaysType(ScanLines(init).value, line, ScanLines(lines).value);
    }
  }

  lemma LineSaysType(before: Scan, line: string, after: Scan)
    requires ScanLine(before, line) == Success(after)
    ensures after.contentType == if Names(line, "content-type") then Some(ValueOf(line)) else before.contentType
    ensures after.agent == if Names(line, "user-agent") then Some(ValueOf(line)) else before.agent
  {
    hide Ows, Lower, Position, IsToken, ContentLength, SaysToken;
  }

  /** The content type and the agent are those of the last header of the name,
      in any case. */
  lemma LastHeaderCounts(lines: seq<string>, http10: bool)
    requires HeadersOf(lines, http10).Success?
    ensures HeadersOf(lines, http10).value.contentType == LastNamed(lines, "content-type")
    ensures HeadersOf(lines, http10).value.agent == LastNamed(lines, "user-agent")
  {
    hide ScanLines, LastNamed;
    LastIsKept(lines);
  }

  // ----- faults

  /** A name of letters, digits and marks, a colon, and a value. */
  predicate IsHeader(line: string) {
    var colon := Position(line, ':');
    colon.Some? && IsToken(line[..colon.value])
  }

  /** What is wrong with a line, after the lines before it. */
  function Fault(before: seq<string>, line: string): Option<Why> {
    if line == "" then None
    else if !IsHeader(line) then Some(NotHeader)
    else if Names(line, "content-length") then
      var value := ValueOf(line);
      if value == "" || !AllDigits(value) then Some(NotLength)
      else if NumberOf(value) > BODY_LIMIT then Some(BodyTooLong)
      else if exists earlier <- before :: Names(earlier, "content-length") then Some(LengthTwice)
      else None
    else if Names(line, "transfer-encoding") then Some(Encoded)
    else None
  }

  /** The first line with something wrong is line `i`, and it is `why`. */
  predicate FirstFault(lines: seq<string>, i: nat, why: Why) {
    && i < |lines| && Fault(lines[..i], lines[i]) == Some(why)
    && forall j | 0 <= j < i :: Fault(lines[..j], lines[j]).None?
  }

  lemma OneFault(init: seq<string>, scan: Scan, line: string)
    requires scan.length.Some? <==> exists earlier <- init :: Names(earlier, "content-length")
    ensures Fault(init, line).None? <==> ScanLine(scan, line).Success?
    ensures ScanLine(scan, line).Failure? ==> Fault(init, line) == Some(ScanLine(scan, line).error)
  {
    hide Ows, Lower, Position, IsToken, SaysToken, NumberOf, AllDigits;
  }

  /** Header lines are read if and only if no line has a fault; otherwise they
      are refused for the first one that has. */
  lemma {:induction false} FaultsExactly(lines: seq<string>)
    ensures ScanLines(lines).Success? <==> forall i | 0 <= i < |lines| :: Fault(lines[..i], lines[i]).None?
    ensures ScanLines(lines).Failure? ==> exists i: nat :: FirstFault(lines, i, ScanLines(lines).error)
    decreases |lines|
  {
    hide Fault, ScanLine, Names;
    if lines == [] {
    } else {
      var last := |lines| - 1;
      var init := lines[..last];
      FaultsExactly(init);
      assert forall i | 0 <= i < last :: init[..i] == lines[..i] && init[i] == lines[i];
      if ScanLines(init).Success? {
        var at := LengthIsFound(init);
        var scan := ScanLines(init).value;
        if scan.length.Some? {
          NamesLength(init, at, scan.length.value);
          assert init[at] in init;
        }
        OneFault(init, scan, lines[last]);
        if ScanLine(scan, lines[last]).Failure? {
          assert FirstFault(lines, last, ScanLines(lines).error);
        }
      } else {
        var i: nat :| FirstFault(init, i, ScanLines(init).error);
        assert FirstFault(lines, i, ScanLines(lines).error);
      }
    }
  }

  // ----- a whole request

  /** The line is a method, a target and a version. */
  ghost predicate IsLine(line: string, l: Line) {
    LineFits(l) && line == LineText(l)
  }

  lemma HasFirstLine(head: string)
    requires head != ""
    ensures Lines(head) != []
  {
  }

  /** Once its head is there, a request is refused for its bytes, then its
      first line, then the first header with a fault; and if for none of them,
      it is read when its body is there. */
  lemma HeadDecides(blanks: string, head: string, more: string, l: Line)
    requires Blanks(blanks) && IsHead(head)
    ensures
      var lines, read := Lines(head), Read(blanks + (head + more));
      && lines != []
      && (!Utf8(head) ==> read == Bad(NotUtf8))
      && (Utf8(head) && (forall k: Line :: !IsLine(lines[0], k)) ==> read == Bad(NotRequestLine))
      && (Utf8(head) && IsLine(lines[0], l) ==>
            && (forall i: nat, why: Why :: FirstFault(lines[1..], i, why) ==> read == Bad(why))
            && (HeadersOf(lines[1..], l.http10).Success? ==>
                  var headers := HeadersOf(lines[1..], l.http10).value;
                  read == if |more| < headers.length then AtEnd
                          else Got(RequestOf(l, headers, more[..headers.length]), more[headers.length..])))
  {
    hide HeadFrom, Blanks, IsHead, Utf8, Lines, RequestLine, ScanLines, FirstFault, LineFits, LineText, PathAndQuery;
    HeadIsReadExactly(blanks + (head + more), head, more);
    assert head != "" by {
      HeadIsSomething(head);
    }
    HasFirstLine(head);
    var lines := Lines(head);
    var line := RequestLine(lines[0]);
    if line.Some? {
      RequestLineExactly(lines[0], line.value);
      assert IsLine(lines[0], line.value);
    }
    RequestLineExactly(lines[0], l);
    forall i: nat, why: Why | FirstFault(lines[1..], i, why)
      ensures ScanLines(lines[1..]) == Failure(why)
    {
      FirstFaultRefuses(lines[1..], i, why);
    }
  }

  lemma HeadIsSomething(head: string)
    requires IsHead(head)
    ensures head != ""
  {
    var lines: seq<string>, blank: string :|
      && lines != [] && (forall line <- lines :: TextLine(line)) && BlankLine(blank)
      && head == Cat(lines) + blank && Fits(|head|, blank);
  }

  lemma FirstFaultRefuses(lines: seq<string>, i: nat, why: Why)
    requires FirstFault(lines, i, why)
    ensures ScanLines(lines) == Failure(why)
  {
    hide Fault;
    FaultsExactly(lines);
    if ScanLines(lines).Failure? {
      var k: nat :| FirstFault(lines, k, ScanLines(lines).error);
      assert k >= i && i >= k;
    }
  }

  /** The first line says that the version is 1.0. */
  predicate SaysOld(line: string) {
    |line| >= 9 && line[|line| - 9..] == " HTTP/1.0"
  }

  lemma OldIsSaid(l: Line)
    ensures SaysOld(LineText(l)) <==> l.http10
  {
    var line, words := LineText(l), l.httpMethod + " " + l.target;
    var version := if l.http10 then " HTTP/1.0" else " HTTP/1.1";
    assert line == words + version && line[|words|..] == version;
    assert version[8] == if l.http10 then '0' else '1';
  }

  /** By the bytes of a request that is read: it closes its connection if and
      only if a header says `close`, or its first line ends in ` HTTP/1.0` and no
      header says `keep-alive`. */
  lemma ClosesByItsBytes(input: string) returns (blanks: string, head: string)
    requires Read(input).Got?
    ensures
      var request, lines := Read(input).request, Lines(head);
      && Blanks(blanks) && input == blanks + (head + (request.body + Read(input).rest)) && lines != []
      && (request.close <==>
          || (exists line <- lines[1..] :: Says(line, "close"))
          || (SaysOld(lines[0]) && !exists line <- lines[1..] :: Says(line, "keep-alive")))
  {
    hide Read, HeadFrom, Utf8, Lines, HeadersOf, RequestLine, Blanks, SaysOld, PathAndQuery;
    var line: Line, headers: Headers;
    blanks, head, line, headers := RequestTakesItsOwn(input);
    var request := Read(input).request;
    assert input == blanks + (head + (request.body + Read(input).rest));
    NoHeadNoLine();
    if head != "" {
      HasFirstLine(head);
    }
    var lines := Lines(head);
    RequestLineExactly(lines[0], line);
    OldIsSaid(line);
    ClosesExactly(lines[1..], line.http10);
  }

  lemma NoHeadNoLine()
    ensures Parse("").Failure?
  {
    assert RequestLine("").None? by {
      assert Parts("", ' ') == [""];
    }
  }

  /** So a request of version 1.0 with no header is the last of its connection. */
  lemma OldRequestCloses(httpMethod: string, target: string, more: string)
    requires LineFits(Line(httpMethod, target, true))
    requires
      var line := httpMethod + " " + target + " HTTP/1.0";
      '\n' !in line && Utf8(line) && |line| + 4 <= HEAD_LIMIT + 1
    ensures
      var (path, query) := PathAndQuery(target);
      Read(httpMethod + " " + target + " HTTP/1.0" + CRLF + CRLF + more) ==
      Got(Request(httpMethod, path, query, None, "", true, None), more)
  {
    hide Utf8, ScanLines, RequestLine, Read, PathAndQuery;
    var line := httpMethod + " " + target + " HTTP/1.0";
    var m := Message(line, [], "");
    RequestLineExactly(line, Line(httpMethod, target, true));
    NothingSaid();
    MarksAreUtf8();
    Utf8Joins(line, CRLF);
    Utf8Joins(line + CRLF, CRLF);
    assert Joined([]) == "" && line + CRLF + "" == line + CRLF;
    assert Text(m) == line + CRLF + CRLF;
    MessageIsRead(m, more);
  }

  // ----- part of a request

  lemma {:induction false} CutHeadIsTheEnd(head: string, lines: seq<string>, blank: string, n: nat)
    requires (forall line <- lines :: TextLine(line)) && BlankLine(blank)
    requires n < |Cat(lines) + blank| && |head| + n <= HEAD_LIMIT && (head != "" || lines != [])
    ensures HeadFrom(head, (Cat(lines) + blank)[..n]) == NoHead(AtEnd)
    decreases |lines|
  {
    hide HeadFrom;
    if lines == [] {
      assert (Cat(lines) + blank)[..n] == blank[..n];
      CutLineIsTheEnd(head, blank, n);
    } else {
      var line, rest := lines[0], Cat(lines[1..]) + blank;
      assert line in lines && Cat(lines) + blank == line + rest;
      if n < |line| {
        assert (line + rest)[..n] == line[..n];
        CutLineIsTheEnd(head, line, n);
      } else {
        assert (line + rest)[..n] == line + rest[..n - |line|];
        HeadStep(head, line, rest[..n - |line|]);
        CutHeadIsTheEnd(head + line, lines[1..], blank, n - |line|);
      }
    }
  }

  lemma NoLineIsTaken(s: string, left: nat)
    requires '\n' !in s && |s| <= left
    ensures TakeLine(s, left) == s
  {
    hide Position;
  }

  lemma CutLineIsTheEnd(head: string, line: string, n: nat)
    requires EndsLine(line) && '\n' !in line[..|line| - 1] && n < |line| && |head| + n <= HEAD_LIMIT
    ensures HeadFrom(head, line[..n]) == NoHead(AtEnd)
  {
    hide Position;
    var cut := line[..n];
    assert cut == line[..|line| - 1][..n];
    NoLineIsTaken(cut, Left(head));
    hide TakeLine;
    assert cut != "" ==> cut[|cut| - 1] in cut;
  }

  /** Part of a request is never taken for one, nor refused: whatever is cut
      off, it reads as the end. */
  lemma PartIsTheEnd(m: Message, n: nat)
    requires WellFormed(m) && n < |Text(m)|
    ensures Read(Text(m)[..n]) == AtEnd
  {
    hide HeadFrom, TextLine, Utf8, RequestLine, ScanLines, Lines, PathAndQuery;
    var h := HeadText(m);
    if n < |h| {
      var all := [m.line] + m.headers;
      assert all[1..] == m.headers;
      HeadLinesAre(m);
      assert Text(m)[..n] == h[..n];
      CutHeadIsTheEnd("", WithEnds(all), CRLF, n);
    } else {
      var part := m.body[..n - |h|];
      assert Text(m)[..n] == h + part;
      HeadIsRead(m, part);
      HeadParses(m);
    }
  }
}
