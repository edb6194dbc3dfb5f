/** Texts: white space, lines, and finding one text in another. */
module Texts {
  import opened Wrappers
  import opened Seqs

  /** The characters with the Unicode White_Space property. */
  predicate White(c: char) {
    || '\U{9}' <= c <= '\U{D}' || c == ' ' || c == '\U{85}' || c == '\U{A0}' || c == '\U{1680}'
    || '\U{2000}' <= c <= '\U{200A}' || c == '\U{2028}' || c == '\U{2029}' || c == '\U{202F}'
    || c == '\U{205F}' || c == '\U{3000}'
  }

  function TrimLeft(s: string): (r: string)
    ensures |r| <= |s|
    ensures r != "" ==> !White(r[0])
  {
    if s != "" && White(s[0]) then TrimLeft(s[1..]) else s
  }

  function TrimRight(s: string): (r: string)
    ensures |r| <= |s|
  {
    if s != "" && White(s[|s| - 1]) then TrimRight(s[..|s| - 1]) else s
  }

  function Trim(s: string): string {
    TrimRight(TrimLeft(s))
  }

  lemma {:induction false} TrimPast(space: string, s: string)
    requires (forall c <- space :: White(c)) && (s == "" || !White(s[0]))
    ensures TrimLeft(space + s) == s
    decreases |space|
  {
    if space == "" {
      assert space + s == s;
    } else {
      TrimPast(space[1..], s);
      assert (space + s)[1..] == space[1..] + s;
    }
  }

  lemma {:induction false} TrimMore(space: string, s: string)
    requires forall c <- space :: White(c)
    ensures TrimLeft(space + s) == TrimLeft(s)
    decreases |space|
  {
    if space == "" {
      assert space + s == s;
    } else {
      TrimMore(space[1..], s);
      assert (space + s)[1..] == space[1..] + s;
    }
  }

  lemma TrimNothing(s: string)
    requires s == "" || (!White(s[0]) && !White(s[|s| - 1]))
    ensures Trim(s) == s
  {
  }

  // ----- lines

  predicate EndsLine(line: string) {
    line != "" && line[|line| - 1] == '\n'
  }

  /** A line without its end: `\n`, or `\r\n`. */
  function Chomp(line: string): string {
    if !EndsLine(line) then line
    else
      var s := line[..|line| - 1];
      if s != "" && s[|s| - 1] == '\r' then s[..|s| - 1] else s
  }

  /** The lines of a text, without their ends. */
  function Lines(s: string): seq<string> {
    if s == "" then []
    else
      var at := Position(s, '\n');
      if at.None? then [s] else [Chomp(s[..at.value + 1])] + Lines(s[at.value + 1..])
  }

  /** The lines of a text whose first line ends in `\n`. */
  lemma LinesFirst(line: string, rest: string)
    requires '\n' !in line
    ensures Lines(line + "\n" + rest) == [Chomp(line + "\n")] + Lines(rest)
  {
    var s := line + "\n" + rest;
    assert s == line + (['\n'] + rest);
    PositionAfter(line, ['\n'] + rest, '\n');
    assert s[..|line| + 1] == line + "\n" && s[|line| + 1..] == rest;
  }

  // ----- finding

  function Shifted(n: nat, found: Option<nat>): Option<nat> {
    if found.None? then None else Some(n + found.value)
  }

  /** The first place `what` is at. */
  function Find(s: string, what: string): (at: Option<nat>)
    ensures at.Some? ==> at.value + |what| <= |s|
  {
    if what <= s then Some(0) else if s == "" then None else Shifted(1, Find(s[1..], what))
  }

  /** What is before and after the first `what`. */
  function SplitOnce(s: string, what: string): (parts: Option<(string, string)>)
    ensures parts.Some? ==> |parts.value.0| + |what| + |parts.value.1| == |s|
  {
    var at := Find(s, what);
    if at.None? then None else Some((s[..at.value], s[at.value + |what|..]))
  }

  /** Nothing `what` could start with is found before the rest. */
  lemma {:induction false} FindPast(a: string, b: string, what: string)
    requires what != "" && what[0] !in a
    ensures Find(a + b, what) == Shifted(|a|, Find(b, what))
    decreases |a|
  {
    if a == "" {
      assert a + b == b;
    } else {
      FindPast(a[1..], b, what);
      assert (a + b)[1..] == a[1..] + b;
      assert (a + b)[0] == a[0];
    }
  }

  lemma SplitAt(a: string, what: string, b: string)
    requires what != "" && what[0] !in a
    ensures SplitOnce(a + what + b, what) == Some((a, b))
  {
    assert a + what + b == a + (what + b);
    FindPast(a, what + b, what);
    assert what <= what + b;
  }
}
