/** Which heads are read: exactly those whose lines end within a limit, two
    bytes looser than the one it is refused by. */
module HeadLaws {
  import opened Texts
  import opened Framing
  import opened FramingLaws

  /** Text, and the end of its line: `\n`, or `\r\n`. */
  predicate TextLine(line: string) {
    EndsLine(line) && '\n' !in line[..|line| - 1] && !BlankLine(line)
  }

  function Cat(lines: seq<string>): string {
    if lines == [] then "" else lines[0] + Cat(lines[1..])
  }

  /** Whether a head of `n` bytes that `blank` ends is read. */
  predicate Fits(n: nat, blank: string) {
    n <= HEAD_LIMIT + 1 || (blank == "\n" && n == HEAD_LIMIT + 2)
  }

  /** Lines of text and a blank line are read as a head if they fit, and are
      refused as too long if they do not: there is no third answer. */
  lemma {:induction false} HeadReadsExactly(head: string, lines: seq<string>, blank: string, more: string)
    requires |head| <= HEAD_LIMIT + 1 && (head != "" || lines != [])
    requires (forall line <- lines :: TextLine(line)) && BlankLine(blank)
    ensures
      HeadFrom(head, Cat(lines) + blank + more) ==
      if Fits(|head| + |Cat(lines)| + |blank|, blank) then Head(head + Cat(lines) + blank, more)
      else NoHead(Bad(HeadTooLong))
    decreases |lines|
  {
    hide HeadFrom, TakeLine;
    if lines == [] {
      assert Cat(lines) + blank + more == blank + more && head + Cat(lines) + blank == head + blank;
      if |blank| <= Left(head) {
        HeadStep(head, blank, more);
      } else {
        LineIsCut(blank, more, Left(head));
        NoLineIsTooLong(head, blank + more);
      }
    } else {
      var line, rest := lines[0], Cat(lines[1..]) + blank + more;
      assert line in lines && Cat(lines) + blank + more == line + rest;
      assert line != "\n" && |line| >= 2;
      if |line| <= Left(head) {
        HeadStep(head, line, rest);
        HeadReadsExactly(head + line, lines[1..], blank, more);
        assert head + line + Cat(lines[1..]) + blank == head + Cat(lines) + blank;
      } else {
        LineIsCut(line, rest, Left(head));
        NoLineIsTooLong(head, line + rest);
      }
    }
  }

  /** A line longer than what is left of the limit is cut before its end. */
  lemma LineIsCut(line: string, rest: string, left: nat)
    requires EndsLine(line) && '\n' !in line[..|line| - 1] && 0 < left < |line|
    ensures |TakeLine(line + rest, left)| == left && !EndsLine(TakeLine(line + rest, left))
  {
    var input := line + rest;
    var cut := input[..left];
    assert cut == line[..|line| - 1][..left];
    assert cut[left - 1] in line[..|line| - 1];
    assert TakeLine(input, left) == cut;
  }

  // ----- any input

  lemma {:induction false} BlanksAreSkipped(blanks: string, rest: string)
    requires Blanks(blanks)
    ensures HeadFrom("", blanks + rest) == HeadFrom("", rest)
    decreases |blanks|
  {
    hide HeadFrom;
    if blanks == "" {
      assert blanks + rest == rest;
    } else {
      var k := if blanks[0] == '\n' then 1 else 2;
      assert blanks + rest == blanks[..k] + (blanks[k..] + rest);
      HeadStep("", blanks[..k], blanks[k..] + rest);
      BlanksAreSkipped(blanks[k..], rest);
    }
  }

  /** A head: lines of text, then a blank line, that fit. */
  ghost predicate IsHead(h: string) {
    exists lines: seq<string>, blank: string ::
      && lines != [] && (forall line <- lines :: TextLine(line)) && BlankLine(blank)
      && h == Cat(lines) + blank && Fits(|h|, blank)
  }

  /** The lines of a head that was read. */
  lemma {:induction false} LinesOfHead(head: string, input: string) returns (lines: seq<string>, blank: string)
    requires HeadFrom(head, input).Head?
    ensures HeadFrom(head, input).head == head + Cat(lines) + blank
    ensures (forall line <- lines :: TextLine(line)) && BlankLine(blank) && (head == "" ==> lines != [])
    decreases |input|
  {
    hide HeadFrom;
    var line, rest := HeadStartsWithLine(head, input);
    HeadStep(head, line, rest);
    if BlankLine(line) && head != "" {
      lines, blank := [], line;
      assert head + Cat(lines) + blank == head + line;
    } else if BlankLine(line) {
      lines, blank := LinesOfHead("", rest);
    } else {
      lines, blank := LinesOfHead(head + line, rest);
      assert head + line + Cat(lines) + blank == head + Cat([line] + lines) + blank by {
        assert ([line] + lines)[1..] == lines;
      }
      lines := [line] + lines;
    }
  }

  /** An input reads to a head, and leaves `more`, if and only if it is blank
      lines, then that head, then `more`. */
  lemma HeadIsReadExactly(input: string, h: string, more: string)
    ensures HeadFrom("", input) == Head(h, more) <==>
            IsHead(h) && exists blanks: string :: Blanks(blanks) && input == blanks + (h + more)
  {
    hide HeadFrom, Blanks, TextLine, Fits;
    if HeadFrom("", input) == Head(h, more) {
      HeadTakes("", input);
      var blanks: string :| Blanks(blanks) && input[..|input| - |more|] == blanks + h;
      assert input == blanks + (h + more);
      BlanksAreSkipped(blanks, h + more);
      var lines, blank := LinesOfHead("", input);
      assert "" + Cat(lines) + blank == Cat(lines) + blank;
      HeadReadsExactly("", lines, blank, more);
    }
    if IsHead(h) {
      var lines: seq<string>, blank: string :|
        && lines != [] && (forall line <- lines :: TextLine(line)) && BlankLine(blank)
        && h == Cat(lines) + blank && Fits(|h|, blank);
      HeadReadsExactly("", lines, blank, more);
      assert "" + Cat(lines) + blank == h;
      forall blanks: string | Blanks(blanks) && input == blanks + (h + more)
        ensures HeadFrom("", input) == Head(h, more)
      {
        BlanksAreSkipped(blanks, h + more);
      }
    }
  }

  /** The limit is two bytes looser than it says: a head can hold that many
      bytes more, and (see `RequestTakesItsOwn`) never more than that. */
  lemma HeadsCanPassTheLimit(line: string)
    requires |line| == HEAD_LIMIT && '\n' !in line
    ensures
      var head := line + "\n" + "\n";
      HeadFrom("", head) == Head(head, "") && |head| == HEAD_LIMIT + 2
  {
    hide HeadFrom;
    var first := line + "\n";
    assert first[..|first| - 1] == line;
    HeadStep("", first, "\n");
    HeadStep(first, "\n", "");
    assert "\n" + "" == "\n" && "" + first == first;
  }
}
