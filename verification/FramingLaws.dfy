/** Request framing never desynchronises: a request takes exactly its own bytes,
    whatever follows them, and requests sent are the requests read. */
module FramingLaws {
  import opened Wrappers
  import opened Seqs
  import opened Texts
  import opened Framing

  // ----- what reading takes

  /** Blank lines, and nothing else. */
  predicate Blanks(s: string) {
    s == "" || (s[0] == '\n' && Blanks(s[1..])) || (|s| >= 2 && s[..2] == CRLF && Blanks(s[2..]))
  }

  lemma TakeLineIsLocal(line: string, more: string, left: nat)
    requires EndsLine(line) && '\n' !in line[..|line| - 1] && |line| <= left
    ensures TakeLine(line + more, left) == line
  {
    var input := line + more;
    PositionAfter(line[..|line| - 1], ['\n'] + more, '\n');
    assert input == line[..|line| - 1] + (['\n'] + more);
  }

  /** A whole line that fits. */
  predicate WholeLine(line: string, left: nat) {
    EndsLine(line) && '\n' !in line[..|line| - 1] && |line| <= left
  }

  /** Reading a head, one line of it. */
  lemma HeadStep(head: string, line: string, rest: string)
    requires WholeLine(line, Left(head))
    ensures HeadFrom(head, line + rest) ==
            if head == "" && BlankLine(line) then HeadFrom("", rest)
            else if BlankLine(line) then Head(head + line, rest)
            else HeadFrom(head + line, rest)
  {
    TakeLineIsLocal(line, rest, Left(head));
    assert (line + rest)[|line|..] == rest;
  }

  /** A head that is read starts with a whole line. */
  lemma HeadStartsWithLine(head: string, input: string) returns (line: string, rest: string)
    requires HeadFrom(head, input).Head?
    ensures WholeLine(line, Left(head)) && input == line + rest && |rest| < |input|
  {
    hide Position;
    line := TakeLine(input, Left(head));
    rest := input[|line|..];
  }

  /** What reading the rest of a head took: `taken`, after which it reads the
      same whatever follows. */
  ghost predicate HeadTook(head: string, taken: string, h: string) {
    && (forall more: string :: HeadFrom(head, taken + more) == Head(h, more))
    && |h| <= HEAD_LIMIT + 2
    && if head != "" then h == head + taken
       else exists b: string :: Blanks(b) && taken == b + h
  }

  lemma {:induction false} HeadTakes(head: string, input: string)
    requires HeadFrom(head, input).Head? && |head| <= HEAD_LIMIT + 1
    ensures
      var r := HeadFrom(head, input);
      && |r.rest| <= |input| && input[|input| - |r.rest|..] == r.rest
      && HeadTook(head, input[..|input| - |r.rest|], r.head)
    decreases |input|
  {
    hide HeadFrom, HeadTook;
    var r := HeadFrom(head, input);
    var line, rest := HeadStartsWithLine(head, input);
    HeadStep(head, line, rest);
    if BlankLine(line) && head != "" {
      assert input[..|input| - |r.rest|] == line;
      LastLineTook(head, line);
    } else {
      HeadTakes(if BlankLine(line) then "" else head + line, rest);
      var taken := rest[..|rest| - |r.rest|];
      assert input[..|input| - |r.rest|] == line + taken;
      if BlankLine(line) {
        BlankTook(line, taken, r.head);
      } else {
        LineTook(head, line, taken, r.head);
      }
    }
  }

  lemma BlankTook(line: string, taken: string, h: string)
    requires HeadTook("", taken, h) && BlankLine(line)
    ensures HeadTook("", line + taken, h)
  {
    hide HeadFrom;
    forall more: string
      ensures HeadFrom("", line + taken + more) == Head(h, more)
    {
      assert line + taken + more == line + (taken + more);
      HeadStep("", line, taken + more);
    }
    var b: string :| Blanks(b) && taken == b + h;
    assert (line + b)[|line|..] == b;
    assert Blanks(line + b);
    assert line + taken == (line + b) + h;
  }

  lemma LastLineTook(head: string, line: string)
    requires head != "" && BlankLine(line) && |line| <= Left(head) && |head| <= HEAD_LIMIT + 1
    ensures HeadTook(head, line, head + line)
  {
    hide HeadFrom;
    forall more: string
      ensures HeadFrom(head, line + more) == Head(head + line, more)
    {
      HeadStep(head, line, more);
    }
  }

  lemma LineTook(head: string, line: string, taken: string, h: string)
    requires WholeLine(line, Left(head)) && !BlankLine(line)
    requires HeadTook(head + line, taken, h)
    ensures HeadTook(head, line + taken, h)
  {
    hide HeadFrom;
    forall more: string
      ensures HeadFrom(head, line + taken + more) == Head(h, more)
    {
      assert line + taken + more == line + (taken + more);
      HeadStep(head, line, taken + more);
    }
    assert head + line + taken == head + (line + taken);
    if head == "" {
      assert Blanks("") && line + taken == "" + h;
    }
  }

  /** A request takes blank lines, its head and the body its head declares,
      and no more; its head is at most two bytes over the limit. */
  lemma RequestTakesItsOwn(input: string)
    returns (blanks: string, head: string, line: Line, headers: Headers)
    requires Read(input).Got?
    ensures
      var r := Read(input);
      && Blanks(blanks) && Parse(head) == Success((line, headers))
      && input == blanks + head + r.request.body + r.rest
      && |r.request.body| == headers.length
      && r.request == RequestOf(line, headers, r.request.body)
      && |head| <= HEAD_LIMIT + 2
  {
    hide Parse, HeadFrom;
    var r := Read(input);
    var read := HeadFrom("", input);
    HeadTakes("", input);
    var taken := input[..|input| - |read.rest|];
    head := read.head;
    blanks :| Blanks(blanks) && taken == blanks + head;
    line, headers := Parse(head).value.0, Parse(head).value.1;
    assert input == taken + read.rest;
    assert read.rest == r.request.body + r.rest;
  }

  /** What follows a request changes nothing about it: its bytes alone, before
      anything else at all, read to the same request and leave the rest. */
  lemma ReadingIsLocal(input: string, more: string)
    requires Read(input).Got?
    ensures
      var r := Read(input);
      Read(input[..|input| - |r.rest|] + more) == Got(r.request, more)
  {
    hide Parse, HeadFrom, Blanks;
    var r, read := Read(input), HeadFrom("", input);
    HeadTakes("", input);
    var taken := input[..|input| - |read.rest|];
    var body := r.request.body;
    assert read.rest == body + r.rest;
    assert input[..|input| - |r.rest|] + more == taken + (body + more);
    assert (body + more)[..|body|] == body && (body + more)[|body|..] == more;
  }

  lemma {:induction false} TooLongIsFinal(head: string, input: string, more: string)
    requires HeadFrom(head, input) == NoHead(Bad(HeadTooLong))
    ensures HeadFrom(head, input + more) == NoHead(Bad(HeadTooLong))
    decreases |input|
  {
    hide HeadFrom, BlankLine;
    var line, rest := TooLongStarts(head, input);
    if EndsLine(line) {
      HeadStep(head, line, rest);
      HeadStep(head, line, rest + more);
      assert input + more == line + (rest + more);
      TooLongIsFinal(if head == "" && BlankLine(line) then "" else head + line, rest, more);
    } else {
      FullLineStays(input, more, Left(head));
      NoLineIsTooLong(head, input + more);
    }
  }

  lemma TooLongStarts(head: string, input: string) returns (line: string, rest: string)
    requires HeadFrom(head, input) == NoHead(Bad(HeadTooLong))
    ensures line == TakeLine(input, Left(head)) && input == line + rest && line != ""
    ensures if EndsLine(line) then WholeLine(line, Left(head)) else |line| == Left(head)
  {
    hide Position;
    line := TakeLine(input, Left(head));
    rest := input[|line|..];
  }

  lemma NoLineIsTooLong(head: string, input: string)
    requires !EndsLine(TakeLine(input, Left(head))) && |TakeLine(input, Left(head))| == Left(head)
    ensures HeadFrom(head, input) == NoHead(Bad(HeadTooLong))
  {
  }

  lemma FullLineStays(input: string, more: string, left: nat)
    requires |TakeLine(input, left)| == left > 0
    ensures TakeLine(input + more, left) == TakeLine(input, left)
  {
    hide Position;
    var both := input + more;
    assert both[..left] == input[..left];
    var at := Position(input, '\n');
    if at.Some? {
      PositionAfter(input[..at.value], input[at.value..] + more, '\n');
      assert both == input[..at.value] + (input[at.value..] + more);
    } else {
      assert '\n' !in both[..left];
    }
  }

  /** A refusal is final too: whatever else arrives, it is refused for the
      same reason. So what has been decided never depends on what follows. */
  lemma RefusalIsFinal(input: string, more: string)
    requires Read(input).Bad?
    ensures Read(input + more) == Read(input)
  {
    hide Parse, HeadTook, Blanks;
    var read := HeadFrom("", input);
    if read.NoHead? {
      OnlyTooLong("", input);
      TooLongIsFinal("", input, more);
    } else {
      HeadTakesLocally(input, more);
    }
  }

  lemma HeadTakesLocally(input: string, more: string)
    requires HeadFrom("", input).Head?
    ensures HeadFrom("", input + more) == HeadFrom("", input).(rest := HeadFrom("", input).rest + more)
  {
    hide HeadFrom, Blanks;
    var r := HeadFrom("", input);
    HeadTakes("", input);
    var taken := input[..|input| - |r.rest|];
    assert input + more == taken + (r.rest + more);
  }

  lemma {:induction false} OnlyTooLong(head: string, input: string)
    requires HeadFrom(head, input).NoHead? && HeadFrom(head, input).reading.Bad?
    ensures HeadFrom(head, input) == NoHead(Bad(HeadTooLong))
    decreases |input|
  {
    var line := TakeLine(input, Left(head));
    if !EndsLine(line) {
    } else {
      OnlyTooLong(if head == "" && BlankLine(line) then "" else head + line, input[|line|..]);
    }
  }

  // ----- the length a head declares

  /** The line is a header of that name. */
  predicate Names(line: string, name: string) {
    var colon := Position(line, ':');
    colon.Some? && Lower(line[..colon.value]) == name
  }

  function ValueOf(line: string): string
    requires Position(line, ':').Some?
  {
    Ows(line[Position(line, ':').value + 1..])
  }

  /** The one line that declares a length is line `i`, and it declares `n`. */
  predicate OnlyLength(lines: seq<string>, i: nat, n: nat) {
    && i < |lines| && Names(lines[i], "content-length")
    && ContentLength(ValueOf(lines[i])) == Success(n)
    && forall j | 0 <= j < |lines| && Names(lines[j], "content-length") :: j == i
  }

  /** Headers that are read leave no doubt where the body ends: none declares
      another framing, and at most one line declares a length, which is the
      body's. (Section 6.3 of RFC 9112.) */
  lemma LengthIsDeclaredOnce(lines: seq<string>, http10: bool)
    requires HeadersOf(lines, http10).Success?
    ensures forall line <- lines :: !Names(line, "transfer-encoding")
    ensures
      var length := HeadersOf(lines, http10).value.length;
      if exists line <- lines :: Names(line, "content-length") then exists i :: OnlyLength(lines, i, length)
      else length == 0
  {
    hide Names, ScanLines, OnlyLength;
    var at := LengthIsFound(lines);
    var scan := ScanLines(lines).value;
    if scan.length.Some? {
      assert OnlyLength(lines, at, scan.length.value);
      assert Names(lines[at], "content-length") by {
        NamesLength(lines, at, scan.length.value);
      }
    }
  }

  lemma NamesLength(lines: seq<string>, i: nat, n: nat)
    requires OnlyLength(lines, i, n)
    ensures i < |lines| && Names(lines[i], "content-length")
  {
  }

  lemma {:induction false} LengthIsFound(lines: seq<string>) returns (at: nat)
    requires ScanLines(lines).Success?
    ensures forall line <- lines :: !Names(line, "transfer-encoding")
    ensures
      var length := ScanLines(lines).value.length;
      if length.Some? then OnlyLength(lines, at, length.value)
      else forall line <- lines :: !Names(line, "content-length")
    decreases |lines|
  {
    at := 0;
    if lines == [] {
    } else {
      var init, line := lines[..|lines| - 1], lines[|lines| - 1];
      assert lines == init + [line];
      at := LengthIsFound(init);
      var before, after := ScanLines(init).value, ScanLines(lines).value;
      LineSaysLength(before, line, after);
      if Names(line, "content-length") {
        at := |init|;
      }
    }
  }

  /** What one line does to the length. */
  lemma LineSaysLength(before: Scan, line: string, after: Scan)
    requires ScanLine(before, line) == Success(after)
    ensures !Names(line, "transfer-encoding")
    ensures
      if Names(line, "content-length") then
        before.length.None? && after.length.Some? && ContentLength(ValueOf(line)) == Success(after.length.value)
      else after.length == before.length
  {
    hide Ows, Lower, Position, IsToken, ContentLength, SaysToken;
  }

  /** The line is a `Connection` header that says the token. */
  predicate Says(line: string, token: string) {
    Names(line, "connection") && SaysToken(ValueOf(line), token)
  }

  /** A request closes its connection if a header says to, or if its version is
      1.0 and none says not to. */
  lemma ClosesExactly(lines: seq<string>, http10: bool)
    requires HeadersOf(lines, http10).Success?
    ensures
      HeadersOf(lines, http10).value.close <==>
      || (exists line <- lines :: Says(line, "close"))
      || (http10 && !exists line <- lines :: Says(line, "keep-alive"))
  {
    hide Says, ScanLines;
    TokensAreFound(lines);
  }

  lemma {:induction false} TokensAreFound(lines: seq<string>)
    requires ScanLines(lines).Success?
    ensures ScanLines(lines).value.closes <==> exists line <- lines :: Says(line, "close")
    ensures ScanLines(lines).value.keeps <==> exists line <- lines :: Says(line, "keep-alive")
    decreases |lines|
  {
    hide Says, ScanLine;
    if lines == [] {
    } else {
      var init, line := lines[..|lines| - 1], lines[|lines| - 1];
      assert lines == init + [line];
      TokensAreFound(init);
      LineSaysTokens(ScanLines(init).value, line, ScanLines(lines).value);
    }
  }

  lemma LineSaysTokens(before: Scan, line: string, after: Scan)
    requires ScanLine(before, line) == Success(after)
    ensures after.closes <==> before.closes || Says(line, "close")
    ensures after.keeps <==> before.keeps || Says(line, "keep-alive")
  {
    hide Ows, Lower, Position, IsToken, ContentLength, SaysToken;
  }
}
