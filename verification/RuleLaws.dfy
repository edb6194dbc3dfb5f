/** What the rules come to: which answers there are, which amends, which opens,
    and for what each record that is not one of them is refused. */
module RuleLaws {
  import opened Wrappers
  import opened Seqs
  import opened Names
  import opened Times
  import opened Records
  import opened Rules
  import opened Texts
  import opened Cases
  import opened Words
  import opened CaseLaws

  // ----- text

  lemma {:induction false} BlankFromLeft(s: string)
    ensures TrimLeft(s) == "" <==> Blank(s)
    decreases |s|
  {
    if s == "" || !White(s[0]) {
    } else {
      BlankFromLeft(s[1..]);
      assert s == [s[0]] + s[1..];
    }
  }

  lemma {:induction false} BlankFromRight(s: string)
    ensures TrimRight(s) == "" <==> Blank(s)
    decreases |s|
  {
    if s == "" || !White(s[|s| - 1]) {
    } else {
      BlankFromRight(s[..|s| - 1]);
      assert s == s[..|s| - 1] + [s[|s| - 1]];
    }
  }

  /** A text is blank when trimming leaves nothing of it. */
  lemma BlankExactly(s: string)
    ensures Blank(s) <==> Trim(s) == ""
  {
    BlankFromLeft(s);
    BlankFromRight(TrimLeft(s));
  }

  // ----- ids

  const LETTERS: string := "abcdefghijklmnopqrstuvwxyz"
  const CAPITALS: string := "ABCDEFGHIJKLMNOPQRSTUVWXYZ"
  const FIGURES: string := "0123456789"

  /** The characters of base64url, section 5 of RFC 4648. */
  predicate Base64Url(c: char) {
    c in LETTERS || c in CAPITALS || c in FIGURES || c in "-_"
  }

  lemma LetterIs(c: char)
    ensures c in LETTERS <==> 'a' <= c <= 'z'
  {
    assert forall i | 0 <= i < 26 :: LETTERS[i] as int == 97 + i;
    assert 'a' <= c <= 'z' ==> LETTERS[c as int - 97] == c;
  }

  lemma CapitalIs(c: char)
    ensures c in CAPITALS <==> 'A' <= c <= 'Z'
  {
    assert forall i | 0 <= i < 26 :: CAPITALS[i] as int == 65 + i;
    assert 'A' <= c <= 'Z' ==> CAPITALS[c as int - 65] == c;
  }

  lemma FigureIs(c: char)
    ensures c in FIGURES <==> '0' <= c <= '9'
  {
    assert forall i | 0 <= i < 10 :: FIGURES[i] as int == 48 + i;
    assert '0' <= c <= '9' ==> FIGURES[c as int - 48] == c;
  }

  lemma CharacterIs(c: char)
    ensures AsciiAlphanumeric(c) <==> c in LETTERS || c in CAPITALS || c in FIGURES
  {
    hide LETTERS, CAPITALS, FIGURES;
    LetterIs(c);
    CapitalIs(c);
    FigureIs(c);
  }

  /** An actor's id is 128 bits of base64url, unpadded: 22 characters of it. */
  lemma ActorExactly(actor: Option<Actor>)
    ensures ActorFits(actor) <==>
            actor.None? || (|actor.value.id| == (128 + 5) / 6 && forall c <- actor.value.id :: Base64Url(c))
  {
    hide LETTERS, CAPITALS, FIGURES, AsciiAlphanumeric;
    forall c: char
      ensures AsciiAlphanumeric(c) <==> c in LETTERS || c in CAPITALS || c in FIGURES
    {
      CharacterIs(c);
    }
  }

  /** A row's id is one word of letters, figures, dots, dashes and underscores. */
  lemma RowIdExactly(id: string)
    ensures RowIdFits(id) <==> id != "" && forall c <- id :: Base64Url(c) || c == '.'
  {
    hide LETTERS, CAPITALS, FIGURES, AsciiAlphanumeric;
    forall c: char
      ensures AsciiAlphanumeric(c) <==> c in LETTERS || c in CAPITALS || c in FIGURES
    {
      CharacterIs(c);
    }
  }

  // ----- answers

  /** The one thing an answer can be. */
  datatype Response =
    | Choosing(n: int)
    | ChoosingOther
    | Judging(verdicts: seq<RowVerdict>)
    | SigningOff(accepts: bool)
    | Briefed(accepts: bool, file: seq<int>)
    | Saying(text: string)
    | Acknowledging
    | Dropping

  function Silent(note: string, amendSeq: int, actor: Option<Actor>, at: Option<Time>): AnswerRecord {
    AnswerRecord(0, false, [], "", "", [], "", false, false, note, amendSeq, actor, at)
  }

  function Written(r: Response, note: string, amendSeq: int, actor: Option<Actor>, at: Option<Time>): AnswerRecord {
    var silent := Silent(note, amendSeq, actor, at);
    match r
    case Choosing(n) => silent.(choice := n)
    case ChoosingOther => silent.(other := true)
    case Judging(verdicts) => silent.(rows := verdicts)
    case SigningOff(accepts) => silent.(signoff := if accepts then "accept" else "changes")
    case Briefed(accepts, file) => silent.(briefing := if accepts then "accept" else "send_back", file := file)
    case Saying(text) => silent.(text := text)
    case Acknowledging => silent.(ack := true)
    case Dropping => silent.(drop := true)
  }

  predicate IsVerdict(verdict: string) {
    verdict == "approve" || verdict == "hold" || verdict == "reject"
  }

  /** Whether a response, with its note, answers a question of a kind. */
  ghost predicate Suits(r: Response, note: string, kind: Kind, q: OpenRecord) {
    match r
    case Choosing(n) => kind == Decision && 1 <= n <= |q.options|
    case ChoosingOther => kind == Decision && !Blank(note)
    case Judging(verdicts) =>
      && kind == Approval && verdicts != [] && Distinct(VerdictIds(verdicts))
      && (forall v <- verdicts :: IsVerdict(v.verdict))
      && forall id :: id in VerdictIds(verdicts) <==> id in RowIds(q.rows)
    case SigningOff(accepts) => kind == Signoff && (accepts || !Blank(note))
    case Briefed(accepts, file) =>
      && kind == Briefing && (accepts || !Blank(note))
      && Distinct(file) && forall n <- file :: 1 <= n <= |q.leftOut|
    case Saying(text) => (kind == Stuck || kind == Question) && !Blank(text)
    case Acknowledging => kind == Fyi
    case Dropping => kind != Message
  }

  /** The response an answer gives, when it gives one. */
  function ResponseIn(a: AnswerRecord): Response {
    if a.drop then Dropping
    else if a.choice != 0 then Choosing(a.choice)
    else if a.other then ChoosingOther
    else if a.rows != [] then Judging(a.rows)
    else if a.signoff != "" then SigningOff(a.signoff == "accept")
    else if a.briefing != "" then Briefed(a.briefing == "accept", a.file)
    else if a.text != "" then Saying(a.text)
    else Acknowledging
  }

  lemma VerdictsExactly(verdicts: seq<RowVerdict>, rows: seq<ApprovalRow>)
    ensures VerdictsFit(verdicts, rows) <==>
            && Distinct(VerdictIds(verdicts))
            && (forall v <- verdicts :: IsVerdict(v.verdict))
            && forall id :: id in VerdictIds(verdicts) <==> id in RowIds(rows)
  {
    VerdictIdsAre(verdicts, rows);
    RowIdsAre(rows);
    var ids := VerdictIds(verdicts);
    if Distinct(ids) && (forall v <- verdicts :: IsVerdict(v.verdict))
       && forall id :: id in ids <==> id in RowIds(rows)
    {
      forall i | 0 <= i < |verdicts|
        ensures HasRow(rows, verdicts[i].id) && !HasVerdict(verdicts[..i], verdicts[i].id)
        ensures IsVerdict(verdicts[i].verdict)
      {
        assert ids[i] == verdicts[i].id && ids[i] in ids && verdicts[i] in verdicts;
        forall v | v in verdicts[..i]
          ensures v.id != verdicts[i].id
        {
          var j :| 0 <= j < i && verdicts[j] == v;
          assert ids[j] == v.id;
        }
      }
      forall row | row in rows
        ensures HasVerdict(verdicts, row.id)
      {
        assert HasRow(rows, row.id);
      }
    }
  }

  lemma FilesExactly(file: seq<int>, leftOut: nat)
    ensures FilesFit(file, leftOut) <==> Distinct(file) && forall n <- file :: 1 <= n <= leftOut
  {
    if FilesFit(file, leftOut) {
      forall i, j | 0 <= i < j < |file|
        ensures file[i] != file[j]
      {
        assert file[i] in file[..j];
      }
      assert forall i | 0 <= i < |file| :: file[i] in file && NamesOption(file[i], leftOut);
    }
    if Distinct(file) && forall n <- file :: 1 <= n <= leftOut {
      assert forall i | 0 <= i < |file| :: file[i] in file;
    }
  }

  /** An answer fits if and only if it is one response that suits the question,
      written as such and nothing more, and it saw no amend that is not there. */
  lemma AnswersExactly(a: AnswerRecord, kind: Kind, q: OpenRecord, amendSeq: nat)
    ensures AnswerFits(a, kind, q, amendSeq) <==>
            && a.amendSeq <= amendSeq
            && exists r: Response :: a == Written(r, a.note, a.amendSeq, a.actor, a.at) && Suits(r, a.note, kind, q)
  {
    if AnswerFits(a, kind, q, amendSeq) {
      FitIsResponse(a, kind, q, amendSeq);
    }
    forall r: Response | a == Written(r, a.note, a.amendSeq, a.actor, a.at) && Suits(r, a.note, kind, q)
      ensures a.amendSeq <= amendSeq ==> AnswerFits(a, kind, q, amendSeq)
    {
      if a.amendSeq <= amendSeq {
        ResponseIsFit(r, a, kind, q, amendSeq);
      }
    }
  }

  lemma FitIsResponse(a: AnswerRecord, kind: Kind, q: OpenRecord, amendSeq: nat)
    requires AnswerFits(a, kind, q, amendSeq)
    ensures a == Written(ResponseIn(a), a.note, a.amendSeq, a.actor, a.at) && Suits(ResponseIn(a), a.note, kind, q)
  {
    hide VerdictsFit, FilesFit, Blank;
    VerdictsExactly(a.rows, q.rows);
    FilesExactly(a.file, |q.leftOut|);
  }

  lemma ResponseIsFit(r: Response, a: AnswerRecord, kind: Kind, q: OpenRecord, amendSeq: nat)
    requires a == Written(r, a.note, a.amendSeq, a.actor, a.at) && Suits(r, a.note, kind, q) && a.amendSeq <= amendSeq
    ensures AnswerFits(a, kind, q, amendSeq)
  {
    hide VerdictsFit, FilesFit;
    VerdictsExactly(a.rows, q.rows);
    FilesExactly(a.file, |q.leftOut|);
  }

  // ----- opens

  lemma NewIsDistinct(values: seq<string>)
    ensures AllNew(values, []) <==> Distinct(values)
  {
    if AllNew(values, []) {
      forall i, j | 0 <= i < j < |values|
        ensures values[i] != values[j]
      {
        assert values[i] in values[..j];
      }
    }
  }

  lemma RowsExactly(rows: seq<ApprovalRow>)
    ensures RowsFit(rows, []) <==>
            && Distinct(RowIds(rows))
            && forall row <- rows ::
                 && RowIdFits(row.id) && !Blank(row.title) && !Blank(row.script) && !Blank(row.link)
                 && (row.by_ == "" || row.by_ == "human")
  {
    RowIdsAre(rows);
    var ids := RowIds(rows);
    if RowsFit(rows, []) {
      assert forall i | 0 <= i < |rows| :: RowIdFits(rows[i].id);
    } else if Distinct(ids) {
      forall i | 0 <= i < |rows|
        ensures !HasRow(rows[..i], rows[i].id) && rows[i] in rows
      {
        forall row | row in rows[..i]
          ensures row.id != rows[i].id
        {
          var j :| 0 <= j < i && rows[j] == row;
          assert ids[j] == row.id && ids[i] == rows[i].id;
        }
      }
    }
  }

  /** What a case can be opened with: text that says something, the lists of its
      kind and no other's, each distinct, and what its kind cannot do without. */
  lemma OpensExactly(open: OpenRecord, kind: Kind)
    ensures OpenFits(open, kind) <==>
            && !Blank(open.title) && (open.for_ == "" || !Blank(open.for_)) && (open.re == "" || !Blank(open.re))
            && (open.options != [] <==> kind == Decision) && (forall o <- open.options :: !Blank(o))
            && (open.recommend == 0 || (kind == Decision && 1 <= open.recommend <= |open.options|))
            && (open.rows != [] <==> kind == Approval) && RowsFit(open.rows, [])
            && Distinct(open.labels) && (forall l <- open.labels :: !Blank(l))
            && (kind == Message && open.labels == [] ==> !Blank(open.worker))
            && (kind == Briefing ==> !Blank(open.body))
            && (open.landed ==> kind == Briefing) && (open.leftOut != [] ==> kind == Briefing)
            && |open.leftOut| <= 10 && Distinct(open.leftOut)
            && forall item <- open.leftOut :: !Blank(item) && |item| <= 300
  {
    hide Blank, RowsFit;
    NewIsDistinct(open.labels);
    NewIsDistinct(open.leftOut);
    hide AllNew, Distinct;
    if kind != Briefing && open.leftOut == [] {
      NoneDistinct();
    }
  }

  lemma NoneDistinct()
    ensures Distinct<string>([])
  {
  }

  // ----- amends

  lemma RowsJoinExactly(have: seq<ApprovalRow>, added: seq<ApprovalRow>)
    requires RowsFit(have, [])
    ensures RowsFit(added, have) <==> RowsFit(have + added, [])
  {
    if RowsFit(added, have) {
      RowsFitJoins(have, added);
    }
    if RowsFit(have + added, []) {
      forall i | 0 <= i < |added|
        ensures !HasRow(added[..i], added[i].id) && !HasRow(have, added[i].id)
      {
        var k := |have| + i;
        assert (have + added)[k] == added[i] && (have + added)[..k] == have + added[..i];
        HasRowJoins(have, added[..i], added[i].id);
      }
      assert forall i | 0 <= i < |added| :: added[i] == (have + added)[|have| + i];
    }
  }

  lemma NewJoinExactly(have: seq<string>, added: seq<string>)
    requires AllNew(have, [])
    ensures AllNew(added, have) <==> AllNew(have + added, [])
  {
    if AllNew(added, have) {
      AllNewJoins(have, added);
    }
    if AllNew(have + added, []) {
      forall i | 0 <= i < |added|
        ensures added[i] !in added[..i] && added[i] !in have
      {
        var k := |have| + i;
        assert (have + added)[k] == added[i] && (have + added)[..k] == have + added[..i];
      }
    }
  }

  /** What an amend may add and drop: nothing that is there, or not there. */
  predicate Fresh(amend: AmendRecord, q: OpenRecord) {
    && AllNew(amend.options, q.options) && AllNew(amend.links, q.links) && NoneBlank(amend.links)
    && Distinct(amend.dropLinks)
    && forall link <- amend.dropLinks :: link in q.links && link !in amend.links
  }

  lemma DropsExactly(amend: AmendRecord, have: seq<string>)
    ensures DroppedLinksFit(amend, have) <==>
            Distinct(amend.dropLinks) && forall link <- amend.dropLinks :: link in have && link !in amend.links
  {
    if DroppedLinksFit(amend, have) {
      forall i, j | 0 <= i < j < |amend.dropLinks|
        ensures amend.dropLinks[i] != amend.dropLinks[j]
      {
        assert amend.dropLinks[i] in amend.dropLinks[..j];
      }
      assert forall i | 0 <= i < |amend.dropLinks| :: amend.dropLinks[i] in amend.dropLinks;
    } else {
      assert forall i | 0 <= i < |amend.dropLinks| :: amend.dropLinks[i] in amend.dropLinks;
    }
  }

  /** An amend of a question that could have been opened fits if and only if the
      question after it could have been opened too and is another one, and the
      amend adds nothing that is there, drops nothing that is not, and sets
      nothing to white space; only a briefing's `landed` is ever set. */
  lemma AmendsExactly(amend: AmendRecord, kind: Kind, q: OpenRecord)
    requires OpenFits(q, kind)
    ensures AmendFits(amend, kind, q) <==>
            && Amended(q, amend) != q && OpenFits(Amended(q, amend), kind)
            && Fresh(amend, q) && !SetBlank(amend.body) && !SetBlank(amend.context)
            && (amend.landed.Some? ==> kind == Briefing)
  {
    hide Blank, RowsFit, AllNew;
    RowsJoinExactly(q.rows, amend.rows);
    NewJoinExactly(q.labels, amend.labels);
    DropsExactly(amend, q.links);
    hide DroppedLinksFit, Distinct;
    if Fresh(amend, q) {
      AmendIsChange(amend, q);
    }
  }

  lemma AmendIsChange(amend: AmendRecord, q: OpenRecord)
    requires Fresh(amend, q)
    ensures Amended(q, amend) != q <==>
            ChangesQuestion(amend, q) || ChangesLists(amend) || ChangesRest(amend, q)
  {
    LinksChange(q.links, amend);
  }

  lemma LinksChange(links: seq<string>, amend: AmendRecord)
    requires AllNew(amend.links, links) && forall link <- amend.dropLinks :: link in links && link !in amend.links
    ensures Without(links, amend.dropLinks) + amend.links == links <==> amend.links == [] && amend.dropLinks == []
  {
    var kept := Without(links, amend.dropLinks);
    WithoutIsSubset(links, amend.dropLinks);
    if amend.links != [] {
      assert amend.links[0] in kept + amend.links;
    } else if amend.dropLinks != [] {
      assert amend.dropLinks[0] !in kept + amend.links;
    } else {
      DropNone(links);
    }
  }

  lemma {:induction false} DropNone(links: seq<string>)
    ensures Without(links, []) == links
    decreases |links|
  {
    if links == [] {
    } else {
      DropNone(links[1..]);
    }
  }

  // ----- what each refusal is for

  /** Whether the state lets the author do this at all: a move of the machine,
      that says it reopens where that has to be said. */
  ghost predicate StateAllows(s: Standing, author: Author, record: Record, write: bool) {
    && (exists to: State :: Moves(s.kind, Some(s.state), record.Event(), author, to))
    && (record.Amending? && Reopens(s.state) ==> record.amend.reopen)
    && (record.Noting? && write && Reopens(s.state) ==> record.note.reopen)
  }

  /** An event a case refuses is refused for its author, if that is wrong for an
      amend; else as stale, if it answers a question that has changed; else for
      the state; and only then for what it says. */
  lemma RefusedInOrder(s: Standing, seqNo: U64, author: Author, record: Record, data: string, write: bool)
    requires record.Event().WrittenBy(author)
    requires Take(s, seqNo, author, record, data, write).Failure?
    ensures
      Take(s, seqNo, author, record, data, write).error ==
      if record.Amending? && author != s.kind.Opener() then WrongAuthor
      else if record.Answering? && record.answer.amendSeq < s.amendSeq then Stale
      else if !StateAllows(s, author, record, write) then Transition
      else Invalid
  {
    hide AmendFits, AnswerFits, Blank, ChangesQuestion, Amended;
    TakesExactlyTheMoves(s, seqNo, author, record, data, write);
    var error := Take(s, seqNo, author, record, data, write).error;
    if error == Transition {
      assert !StateAllows(s, author, record, write);
    } else {
      var to: State := if record.Amending? && s.state != State.Open && s.state != Sent then State.Open
                       else if record.Answering? then Answered
                       else if record.Noting? then State.Open
                       else if record.Closing? then Closed
                       else s.state;
      assert error == Invalid ==> Moves(s.kind, Some(s.state), record.Event(), author, to);
    }
  }

  /** A row is refused before the case sees it for an event no one knows, else
      for an author who does not write it, else for a record that does not read,
      else for an actor that cannot be one; and for nothing else. */
  lemma ReadInOrder(codec: Codec, author: string, event: string, data: string)
    ensures
      var r := Read(codec, author, event, data);
      && ((forall e: EventType :: event != EventName(e)) <==> r == Failure(UnknownName))
      && forall e: EventType | event == EventName(e) ::
           && ((forall a: Author :: author == AuthorName(a) ==> !e.WrittenBy(a)) <==> r == Failure(WrongAuthor))
           && forall a: Author | author == AuthorName(a) && e.WrittenBy(a) ::
                match codec.read(e, data)
                case None => r == Failure(Malformed)
                case Some(record) => r == if ActorFits(record.Actor()) then Success((a, record)) else Failure(Invalid)
  {
    hide ActorFits;
    forall a: Author, e: EventType
      ensures ParseAuthor(author) == Some(a) <==> author == AuthorName(a)
      ensures ParseEvent(event) == Some(e) <==> event == EventName(e)
    {
      AuthorAndEventExactly(author, a, e);
      AuthorAndEventExactly(event, a, e);
    }
    hide ParseAuthor, ParseEvent, AuthorName, EventName;
    if ParseEvent(event).Some? {
      assert event == EventName(ParseEvent(event).value);
    }
    if ParseAuthor(author).Some? {
      assert author == AuthorName(ParseAuthor(author).value);
    }
  }

  lemma NamesAreRead(text: string)
    ensures forall k: Kind :: (ParseKind(text) == Some(k) <==> text == KindName(k)) && KindName(k) != ""
    ensures forall u: Urgency :: (ParseUrgency(text) == Some(u) <==> text == UrgencyName(u)) && UrgencyName(u) != ""
  {
    hide ParseKind, ParseUrgency;
    forall k: Kind
      ensures ParseKind(text) == Some(k) <==> text == KindName(k)
    {
      KindAndUrgencyExactly(text, k, Blocking);
    }
    forall u: Urgency
      ensures ParseUrgency(text) == Some(u) <==> text == UrgencyName(u)
    {
      KindAndUrgencyExactly(text, Decision, u);
    }
  }

  /** An open is refused for its kind, else for its author, else for its urgency,
      else for what it says; and a kind or urgency left out is invalid, while one
      no one knows is unknown. */
  lemma OpenInOrder(open: OpenRecord, author: Author, write: bool)
    ensures
      var r := CheckOpen(open, author, write);
      && (open.kind == "" ==> r == Failure(Invalid))
      && (open.kind != "" && (forall k: Kind :: open.kind != KindName(k)) ==> r == Failure(UnknownName))
      && forall k: Kind | open.kind == KindName(k) ::
           && (author != k.Opener() ==> r == Failure(WrongAuthor))
           && (author == k.Opener() && open.urgency == "" ==> r == Failure(Invalid))
           && (author == k.Opener() && open.urgency != "" && (forall u: Urgency :: open.urgency != UrgencyName(u)) ==>
                 r == Failure(UnknownName))
           && forall u: Urgency | author == k.Opener() && open.urgency == UrgencyName(u) ::
                r == if OpenFits(open, k) && (write ==> OpenWriteFits(open)) then Success((k, u)) else Failure(Invalid)
  {
    hide OpenFits, OpenWriteFits, ParseKind, ParseUrgency, KindName, UrgencyName;
    NamesAreRead(open.kind);
    NamesAreRead(open.urgency);
    if ParseKind(open.kind).Some? {
      assert open.kind == KindName(ParseKind(open.kind).value);
    }
    if ParseUrgency(open.urgency).Some? {
      assert open.urgency == UrgencyName(ParseUrgency(open.urgency).value);
    }
  }

  /** The rules only a write adds to an open. */
  lemma WritesExactly(open: OpenRecord)
    ensures OpenWriteFits(open) <==>
            && Distinct(open.options) && Distinct(open.links) && (forall link <- open.links :: !Blank(link))
            && forall s <- [open.worker, open.brief, open.context] :: s == "" || !Blank(s)
  {
    hide Blank;
    NewIsDistinct(open.options);
    NewIsDistinct(open.links);
    hide AllNew, Distinct;
    assert [open.worker, open.brief, open.context][0] == open.worker;
    assert [open.worker, open.brief, open.context][1] == open.brief;
    assert [open.worker, open.brief, open.context][2] == open.context;
  }
}
