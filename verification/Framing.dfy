/** HTTP/1.1 requests read by hand from one connection: the head line by line
    up to a limit, the headers, and a body of the length they declare. A byte
    is a character here, below 256; the input is what is left to read. */
module Framing {
  import opened Wrappers
  import opened Seqs
  import opened Decimals
  import opened Texts

  const HEAD_LIMIT: nat := 64 * 1024
  const BODY_LIMIT: nat := 1024 * 1024

  const CRLF: string := "\r\n"

  /** Why a request cannot be read. */
  datatype Why = HeadTooLong | NotUtf8 | NotRequestLine | NotHeader | NotLength | BodyTooLong | LengthTwice | Encoded

  datatype Headers = Headers(length: nat, contentType: Option<string>, close: bool, agent: Option<string>)

  datatype Request = Request(
    httpMethod: string, path: string, query: string, contentType: Option<string>, body: string, close: bool,
    agent: Option<string>)

  /** What reading gave: a request and what is left after it, the end of the
      input, or a request that cannot be read. */
  datatype Reading = Got(request: Request, rest: string) | AtEnd | Bad(why: Why)

  datatype HeadReading = Head(head: string, rest: string) | NoHead(reading: Reading)

  // ----- the head

  predicate BlankLine(line: string) {
    line == CRLF || line == "\n"
  }

  /** One line, with its end, or the first `left` bytes when there is none. */
  function TakeLine(input: string, left: nat): (line: string)
    ensures line <= input && |line| <= left
    ensures input != "" && left > 0 ==> line != ""
    ensures '\n' !in line[..if line == "" then 0 else |line| - 1]
  {
    var at := Position(input, '\n');
    if at.Some? && at.value < left then input[..at.value + 1]
    else if |input| <= left then input
    else input[..left]
  }

  function Left(head: string): nat {
    (if |head| < HEAD_LIMIT then HEAD_LIMIT - |head| else 0) + 1
  }

  /** Reads the rest of a head of which `head` is read. */
  function HeadFrom(head: string, input: string): (r: HeadReading)
    ensures r.Head? ==> |r.rest| < |input|
    ensures r.NoHead? ==> !r.reading.Got?
    decreases |input|
  {
    var line := TakeLine(input, Left(head));
    if line == "" then NoHead(AtEnd)
    else if !EndsLine(line) then NoHead(if |head| + |line| > HEAD_LIMIT then Bad(HeadTooLong) else AtEnd)
    else
      var rest := input[|line|..];
      if head == "" && BlankLine(line) then HeadFrom(head, rest)
      else if BlankLine(line) then Head(head + line, rest)
      else HeadFrom(head + line, rest)
  }

  /** `read_head`, which builds the head line by line. */
  method ReadHead(input: string) returns (r: HeadReading)
    ensures r == HeadFrom("", input)
  {
    var head, left := "", input;
    while true
      invariant HeadFrom("", input) == HeadFrom(head, left)
      decreases |left|
    {
      var line := TakeLine(left, Left(head));
      if line == "" {
        return NoHead(AtEnd);
      }
      if !EndsLine(line) {
        if |head| + |line| > HEAD_LIMIT {
          return NoHead(Bad(HeadTooLong));
        }
        return NoHead(AtEnd);
      }
      left := left[|line|..];
      if head == "" && BlankLine(line) {
        continue;
      }
      var ends := BlankLine(line);
      head := head + line;
      if ends {
        return Head(head, left);
      }
    }
  }

  // ----- UTF-8

  predicate Between(c: char, lo: int, hi: int) {
    lo <= c as int <= hi
  }

  predicate Continues(c: char) {
    Between(c, 0x80, 0xBF)
  }

  /** How many bytes the first character takes, 0 when they are not one, by
      the table of section 4 of RFC 3629. */
  function FirstWidth(s: string): (k: nat)
    ensures k <= |s|
  {
    if s == "" then 0
    else if Between(s[0], 0, 0x7F) then 1
    else if Between(s[0], 0xC2, 0xDF) then if |s| >= 2 && Continues(s[1]) then 2 else 0
    else if Between(s[0], 0xE0, 0xEF) then
      if && |s| >= 3
         && Between(s[1], if s[0] as int == 0xE0 then 0xA0 else 0x80, if s[0] as int == 0xED then 0x9F else 0xBF)
         && Continues(s[2])
      then 3 else 0
    else if Between(s[0], 0xF0, 0xF4) then
      if && |s| >= 4
         && Between(s[1], if s[0] as int == 0xF0 then 0x90 else 0x80, if s[0] as int == 0xF4 then 0x8F else 0xBF)
         && Continues(s[2]) && Continues(s[3])
      then 4 else 0
    else 0
  }

  predicate Utf8(s: string) {
    s == "" || (FirstWidth(s) > 0 && Utf8(s[FirstWidth(s)..]))
  }

  // ----- lines, words and names

  /** The parts of a text between separators. */
  function Parts(s: string, separator: char): (parts: seq<string>)
    ensures parts != []
  {
    var at := Position(s, separator);
    if at.None? then [s] else [s[..at.value]] + Parts(s[at.value + 1..], separator)
  }

  predicate Optional(c: char) {
    c == ' ' || c == '\t'
  }

  function TrimStart(s: string): string {
    if s != "" && Optional(s[0]) then TrimStart(s[1..]) else s
  }

  function TrimEnd(s: string): string {
    if s != "" && Optional(s[|s| - 1]) then TrimEnd(s[..|s| - 1]) else s
  }

  /** A value without the spaces and tabs around it. */
  function Ows(s: string): string {
    TrimEnd(TrimStart(s))
  }

  function LowerChar(c: char): char {
    if 'A' <= c <= 'Z' then (c as int + 32) as char else c
  }

  function Lower(s: string): string {
    seq(|s|, i requires 0 <= i < |s| => LowerChar(s[i]))
  }

  predicate TokenChar(c: char) {
    'a' <= c <= 'z' || 'A' <= c <= 'Z' || '0' <= c <= '9' || c in "!#$%&'*+-.^_`|~"
  }

  predicate IsToken(s: string) {
    s != "" && forall c <- s :: TokenChar(c)
  }

  // ----- the request line and the headers

  datatype Line = Line(httpMethod: string, target: string, http10: bool)

  /** The request line, when it is one: a method, a target and a version. */
  function RequestLine(line: string): Option<Line> {
    var parts := Parts(line, ' ');
    if |parts| != 3 || parts[0] == "" || parts[1] == "" || parts[1][0] != '/'
       || !(parts[2] == "HTTP/1.0" || parts[2] == "HTTP/1.1")
    then None
    else Some(Line(parts[0], parts[1], parts[2] == "HTTP/1.0"))
  }

  /** What the headers have said so far. */
  datatype Scan = Scan(
    length: Option<nat>, closes: bool, keeps: bool, contentType: Option<string>, agent: Option<string>)

  const NONE_YET: Scan := Scan(None, false, false, None, None)

  function ContentLength(value: string): Result<nat, Why> {
    if value == "" || !AllDigits(value) then Failure(NotLength)
    else if NumberOf(value) <= BODY_LIMIT then Success(NumberOf(value))
    else Failure(BodyTooLong)
  }

  predicate SaysToken(value: string, token: string) {
    exists part <- Parts(value, ',') :: Lower(Ows(part)) == token
  }

  /** What one more header line says. An empty line says nothing. */
  function ScanLine(scan: Scan, line: string): Result<Scan, Why> {
    if line == "" then Success(scan)
    else
      var colon := Position(line, ':');
      if colon.None? || !IsToken(line[..colon.value]) then Failure(NotHeader)
      else
        var name, value := Lower(line[..colon.value]), Ows(line[colon.value + 1..]);
        if name == "content-length" then
          var length :- ContentLength(value);
          if scan.length.Some? then Failure(LengthTwice) else Success(scan.(length := Some(length)))
        else if name == "transfer-encoding" then Failure(Encoded)
        else if name == "content-type" then Success(scan.(contentType := Some(value)))
        else if name == "user-agent" then Success(scan.(agent := Some(value)))
        else if name == "connection" then
          Success(scan.(
            closes := scan.closes || SaysToken(value, "close"),
            keeps := scan.keeps || SaysToken(value, "keep-alive")))
        else Success(scan)
  }

  function ScanLines(lines: seq<string>): Result<Scan, Why>
    decreases |lines|
  {
    if lines == [] then Success(NONE_YET)
    else
      var before :- ScanLines(lines[..|lines| - 1]);
      ScanLine(before, lines[|lines| - 1])
  }

  function HeadersOf(lines: seq<string>, http10: bool): Result<Headers, Why> {
    var scan :- ScanLines(lines);
    Success(Headers(
      if scan.length.Some? then scan.length.value else 0, scan.contentType,
      scan.closes || (http10 && !scan.keeps), scan.agent))
  }

  /** The tokens of one `Connection` header. */
  method ReadConnection(value: string, closed: bool, kept: bool) returns (closes: bool, keeps: bool)
    ensures closes == (closed || SaysToken(value, "close"))
    ensures keeps == (kept || SaysToken(value, "keep-alive"))
  {
    hide Parts, Ows, Lower;
    closes, keeps := closed, kept;
    var parts := Parts(value, ',');
    for k := 0 to |parts|
      invariant closes == (closed || exists part <- parts[..k] :: Lower(Ows(part)) == "close")
      invariant keeps == (kept || exists part <- parts[..k] :: Lower(Ows(part)) == "keep-alive")
    {
      var token := Lower(Ows(parts[k]));
      assert parts[..k + 1] == parts[..k] + [parts[k]];
      closes := closes || token == "close";
      keeps := keeps || token == "keep-alive";
    }
    assert parts[..|parts|] == parts;
  }

  /** `headers`, which updates what they say line by line. */
  method ReadHeaders(lines: seq<string>, http10: bool) returns (r: Result<Headers, Why>)
    ensures r == HeadersOf(lines, http10)
  {
    hide SaysToken, Ows, Lower, ContentLength, IsToken;
    var length: Option<nat>, closes, keeps := None, false, false;
    var contentType: Option<string>, agent: Option<string> := None, None;
    for i := 0 to |lines|
      invariant ScanLines(lines[..i]) == Success(Scan(length, closes, keeps, contentType, agent))
    {
      var line := lines[i];
      ghost var scan := Scan(length, closes, keeps, contentType, agent);
      assert lines[..i + 1][..i] == lines[..i];
      if line == "" {
        continue;
      }
      var colon := Position(line, ':');
      if colon.None? || !IsToken(line[..colon.value]) {
        FailureSticks(lines, i + 1);
        return Failure(NotHeader);
      }
      var name, value := Lower(line[..colon.value]), Ows(line[colon.value + 1..]);
      if name == "content-length" {
        var given := ContentLength(value);
        if given.Failure? {
          FailureSticks(lines, i + 1);
          return Failure(given.error);
        }
        if length.Some? {
          FailureSticks(lines, i + 1);
          return Failure(LengthTwice);
        }
        length := Some(given.value);
      } else if name == "transfer-encoding" {
        FailureSticks(lines, i + 1);
        return Failure(Encoded);
      } else if name == "content-type" {
        contentType := Some(value);
      } else if name == "user-agent" {
        agent := Some(value);
      } else if name == "connection" {
        closes, keeps := ReadConnection(value, closes, keeps);
      }
      assert ScanLine(scan, line) == Success(Scan(length, closes, keeps, contentType, agent));
    }
    assert lines[..|lines|] == lines;
    return Success(Headers(if length.Some? then length.value else 0, contentType, closes || (http10 && !keeps), agent));
  }

  /** Once the headers cannot be read, they cannot be read. */
  lemma {:induction false} FailureSticks(lines: seq<string>, k: nat)
    requires k <= |lines| && ScanLines(lines[..k]).Failure?
    ensures ScanLines(lines) == ScanLines(lines[..k])
    decreases |lines|
  {
    if k < |lines| {
      var init := lines[..|lines| - 1];
      assert init[..k] == lines[..k];
      FailureSticks(init, k);
    } else {
      assert lines[..k] == lines;
    }
  }

  // ----- a request

  function PathAndQuery(target: string): (string, string) {
    var at := Position(target, '?');
    if at.None? then (target, "") else (target[..at.value], target[at.value + 1..])
  }

  /** What a head says, before its body. */
  function Parse(head: string): Result<(Line, Headers), Why> {
    if !Utf8(head) then Failure(NotUtf8)
    else
      var lines := Lines(head);
      var line := RequestLine(if lines == [] then "" else lines[0]);
      if line.None? then Failure(NotRequestLine)
      else
        var headers :- HeadersOf(if lines == [] then [] else lines[1..], line.value.http10);
        Success((line.value, headers))
  }

  function RequestOf(line: Line, headers: Headers, body: string): Request {
    var (path, query) := PathAndQuery(line.target);
    Request(line.httpMethod, path, query, headers.contentType, body, headers.close, headers.agent)
  }

  /** Reads one request. */
  function Read(input: string): (r: Reading)
    ensures r.Got? ==> |r.rest| < |input|
  {
    match HeadFrom("", input)
    case NoHead(reading) => reading
    case Head(head, rest) =>
      match Parse(head)
      case Failure(why) => Bad(why)
      case Success((line, headers)) =>
        if |rest| < headers.length then AtEnd
        else Got(RequestOf(line, headers, rest[..headers.length]), rest[headers.length..])
  }

  /** `read`, from its parts. */
  method ReadRequest(input: string) returns (r: Reading)
    ensures r == Read(input)
  {
    hide Utf8, HeadFrom, HeadersOf, RequestLine, Lines;
    var reading := ReadHead(input);
    if reading.NoHead? {
      return reading.reading;
    }
    var head, rest := reading.head, reading.rest;
    if !Utf8(head) {
      return Bad(NotUtf8);
    }
    var lines := Lines(head);
    var line := RequestLine(if lines == [] then "" else lines[0]);
    if line.None? {
      return Bad(NotRequestLine);
    }
    var headers := ReadHeaders(if lines == [] then [] else lines[1..], line.value.http10);
    if headers.Failure? {
      return Bad(headers.error);
    }
    if |rest| < headers.value.length {
      return AtEnd;
    }
    var body := rest[..headers.value.length];
    return Got(RequestOf(line.value, headers.value, body), rest[headers.value.length..]);
  }

  // ----- a connection

  /** How serving a connection ended: the input did, or a request could not be
      read, or one asked to close, with what was left unread. */
  datatype Ending = InputEnded | Refused(why: Why) | Closed(rest: string)

  datatype Served = Served(requests: seq<Request>, ending: Ending)

  /** The requests a connection is served, one at a time. */
  function Serve(input: string): Served
    decreases |input|
  {
    match Read(input)
    case AtEnd => Served([], InputEnded)
    case Bad(why) => Served([], Refused(why))
    case Got(request, rest) =>
      if request.close then Served([request], Closed(rest))
      else
        var more := Serve(rest);
        more.(requests := [request] + more.requests)
  }

  /** `serve_on`, which answers each request as it is read. */
  method ServeOn(input: string) returns (requests: seq<Request>, ending: Ending)
    ensures Served(requests, ending) == Serve(input)
  {
    hide Read;
    var left := input;
    requests := [];
    while true
      invariant Serve(input) == Serve(left).(requests := requests + Serve(left).requests)
      decreases |left|
    {
      var reading := ReadRequest(left);
      match reading {
        case AtEnd =>
          return requests, InputEnded;
        case Bad(why) =>
          return requests, Refused(why);
        case Got(request, rest) =>
          ghost var before := requests;
          requests := requests + [request];
          if request.close {
            return requests, Closed(rest);
          }
          assert before + ([request] + Serve(rest).requests) == requests + Serve(rest).requests;
          left := rest;
      }
    }
  }
}
