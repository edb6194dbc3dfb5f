/** What a record that reads may say. A record that breaks a rule is `Invalid`,
    but where a category is given here. */
module Rules {
  import opened Wrappers
  import opened Names
  import opened Records
  import opened Texts

  /** White space and nothing else. */
  predicate Blank(s: string) {
    forall c <- s :: White(c)
  }

  predicate SetBlank(s: string) {
    s != "" && Blank(s)
  }

  predicate AsciiAlphanumeric(c: char) {
    'a' <= c <= 'z' || 'A' <= c <= 'Z' || '0' <= c <= '9'
  }

  /** An id is as long as 128 bits are in base64url, and holds only its characters. */
  predicate ActorFits(actor: Option<Actor>) {
    actor.Some? ==>
      && |actor.value.id| == 22
      && forall c <- actor.value.id :: AsciiAlphanumeric(c) || c == '-' || c == '_'
  }

  predicate NoneBlank(values: seq<string>) {
    forall v <- values :: !Blank(v)
  }

  /** No value is given twice in `added`, and none is one the case has. */
  predicate AllNew(added: seq<string>, have: seq<string>) {
    forall i | 0 <= i < |added| :: added[i] !in added[..i] && added[i] !in have
  }

  /** Options are counted from 1. */
  predicate NamesOption(n: int, options: nat) {
    1 <= n <= options
  }

  predicate RowIdFits(id: string) {
    id != "" && forall c <- id :: AsciiAlphanumeric(c) || c == '.' || c == '-' || c == '_'
  }

  predicate HasRow(rows: seq<ApprovalRow>, id: string) {
    exists row <- rows :: row.id == id
  }

  predicate RowsFit(rows: seq<ApprovalRow>, have: seq<ApprovalRow>) {
    forall i | 0 <= i < |rows| ::
      var row := rows[i];
      && RowIdFits(row.id)
      && !HasRow(rows[..i], row.id) && !HasRow(have, row.id)
      && !Blank(row.title) && !Blank(row.script) && !Blank(row.link)
      && (row.by_ == "" || row.by_ == "human")
  }

  /** The lists that belong to one kind of case. */
  predicate KindFieldsFit(kind: Kind, options: seq<string>, rows: seq<ApprovalRow>) {
    (options != [] ==> kind == Decision) && (rows != [] ==> kind == Approval)
  }

  const LEFT_OUT_ITEMS: nat := 10
  const LEFT_OUT_CHARS: nat := 300

  predicate BriefingFieldsFit(kind: Kind, landed: bool, leftOut: seq<string>) {
    if kind != Briefing then
      !landed && leftOut == []
    else
      && |leftOut| <= LEFT_OUT_ITEMS
      && NoneBlank(leftOut)
      && (forall item <- leftOut :: |item| <= LEFT_OUT_CHARS)
      && AllNew(leftOut, [])
  }

  predicate RecommendFits(kind: Kind, recommend: int, options: nat) {
    recommend == 0 || (kind == Decision && NamesOption(recommend, options))
  }

  predicate LabelsFit(added: seq<string>, have: seq<string>) {
    NoneBlank(added) && AllNew(added, have)
  }

  // ----- open

  predicate OpenNeedsMet(open: OpenRecord, kind: Kind) {
    match kind
    case Decision => open.options != []
    case Approval => open.rows != []
    case Message => !Blank(open.worker) || open.labels != []
    case _ => true
  }

  predicate OpenFits(open: OpenRecord, kind: Kind) {
    && !Blank(open.title)
    && (kind == Briefing ==> !Blank(open.body))
    && KindFieldsFit(kind, open.options, open.rows)
    && BriefingFieldsFit(kind, open.landed, open.leftOut)
    && OpenNeedsMet(open, kind)
    && NoneBlank(open.options)
    && RecommendFits(kind, open.recommend, |open.options|)
    && RowsFit(open.rows, [])
    && !SetBlank(open.for_) && !SetBlank(open.re)
    && LabelsFit(open.labels, [])
  }

  /** What the writer asks of an open beyond what a replay does. */
  predicate OpenWriteFits(open: OpenRecord) {
    && AllNew(open.options, [])
    && NoneBlank(open.links) && AllNew(open.links, [])
    && !SetBlank(open.worker) && !SetBlank(open.brief) && !SetBlank(open.context)
  }

  /** Reads a kind or an urgency: one left out is invalid, one not known is
      unknown. */
  function Known<T>(text: string, parsed: Option<T>): Result<T, Category> {
    if text == "" then Failure(Invalid)
    else if parsed.None? then Failure(UnknownName)
    else Success(parsed.value)
  }

  /** An open's kind and urgency, or its first fault: in its kind, then its
      author, then its urgency, then the rest. */
  function CheckOpen(open: OpenRecord, author: Author, write: bool): Result<(Kind, Urgency), Category> {
    var kind :- Known(open.kind, ParseKind(open.kind));
    :- Need(author == kind.Opener(), WrongAuthor);
    var urgency :- Known(open.urgency, ParseUrgency(open.urgency));
    :- Need(OpenFits(open, kind), Invalid);
    :- Need(write ==> OpenWriteFits(open), Invalid);
    Success((kind, urgency))
  }

  // ----- amend

  /** An answer drawn before such an amend is stale. */
  predicate ChangesQuestion(amend: AmendRecord, question: OpenRecord) {
    || amend.options != []
    || amend.rows != []
    || (amend.body != "" && amend.body != question.body)
    || (amend.leftOut != [] && amend.leftOut != question.leftOut)
  }

  predicate ChangesLists(amend: AmendRecord) {
    amend.links != [] || amend.dropLinks != [] || amend.labels != []
  }

  predicate ChangesRest(amend: AmendRecord, question: OpenRecord) {
    || (amend.title != "" && amend.title != question.title)
    || (amend.context != "" && amend.context != question.context)
    || (amend.recommend != 0 && amend.recommend != question.recommend)
    || (amend.landed.Some? && amend.landed.value != question.landed)
  }

  predicate DroppedLinksFit(amend: AmendRecord, have: seq<string>) {
    forall i | 0 <= i < |amend.dropLinks| ::
      var link := amend.dropLinks[i];
      link !in amend.dropLinks[..i] && link in have && link !in amend.links
  }

  predicate AmendFits(amend: AmendRecord, kind: Kind, question: OpenRecord) {
    && KindFieldsFit(kind, amend.options, amend.rows)
    && BriefingFieldsFit(kind, amend.landed.Some?, amend.leftOut)
    && !SetBlank(amend.title) && !SetBlank(amend.body) && !SetBlank(amend.context)
    && NoneBlank(amend.options)
    && RowsFit(amend.rows, question.rows)
    && NoneBlank(amend.links)
    && AllNew(amend.options, question.options)
    && RecommendFits(kind, amend.recommend, |question.options| + |amend.options|)
    && AllNew(amend.links, question.links)
    && DroppedLinksFit(amend, question.links)
    && LabelsFit(amend.labels, question.labels)
    && (ChangesQuestion(amend, question) || ChangesLists(amend) || ChangesRest(amend, question))
  }

  // ----- answer

  /** The responses an answer gives are ones its kind takes. */
  predicate TakesResponses(answer: AnswerRecord, kind: Kind) {
    && (answer.choice != 0 ==> kind == Decision)
    && (answer.other ==> kind == Decision)
    && (answer.rows != [] ==> kind == Approval)
    && (answer.signoff != "" ==> kind == Signoff)
    && (answer.briefing != "" ==> kind == Briefing)
    && (answer.text != "" ==> kind == Stuck || kind == Question)
    && (answer.drop ==> kind != Message)
    && (answer.ack ==> kind == Fyi)
  }

  function Count(b: bool): nat {
    if b then 1 else 0
  }

  /** How many responses an answer gives. */
  function Given(answer: AnswerRecord): nat {
    Count(answer.choice != 0) + Count(answer.other) + Count(answer.rows != []) + Count(answer.signoff != "")
    + Count(answer.briefing != "") + Count(answer.text != "") + Count(answer.drop) + Count(answer.ack)
  }

  predicate ChoiceFits(answer: AnswerRecord, options: nat) {
    && Given(answer) <= 1
    && if answer.other then !Blank(answer.note) else NamesOption(answer.choice, options)
  }

  predicate HasVerdict(verdicts: seq<RowVerdict>, id: string) {
    exists v <- verdicts :: v.id == id
  }

  /** Every verdict is on a row of the case, no row has two, and each has one. */
  predicate VerdictsFit(verdicts: seq<RowVerdict>, rows: seq<ApprovalRow>) {
    && (forall i | 0 <= i < |verdicts| ::
          && HasRow(rows, verdicts[i].id)
          && !HasVerdict(verdicts[..i], verdicts[i].id)
          && (verdicts[i].verdict == "approve" || verdicts[i].verdict == "hold" || verdicts[i].verdict == "reject"))
    && (forall row <- rows :: HasVerdict(verdicts, row.id))
  }

  predicate SignoffFits(answer: AnswerRecord) {
    answer.signoff == "accept" || (answer.signoff == "changes" && !Blank(answer.note))
  }

  predicate FilesFit(file: seq<int>, leftOut: nat) {
    forall i | 0 <= i < |file| :: NamesOption(file[i], leftOut) && file[i] !in file[..i]
  }

  predicate BriefingAnswerFits(answer: AnswerRecord, leftOut: nat) {
    && (answer.briefing == "accept" || (answer.briefing == "send_back" && !Blank(answer.note)))
    && FilesFit(answer.file, leftOut)
  }

  predicate ResponseFits(answer: AnswerRecord, kind: Kind, question: OpenRecord) {
    match kind
    case Decision => ChoiceFits(answer, |question.options|)
    case Approval => VerdictsFit(answer.rows, question.rows)
    case Signoff => SignoffFits(answer)
    case Briefing => BriefingAnswerFits(answer, |question.leftOut|)
    case Stuck | Question => !Blank(answer.text)
    case Fyi | Message => true
  }

  /** An answer fits the question as it stands, amended last at `amendSeq`. */
  predicate AnswerFits(answer: AnswerRecord, kind: Kind, question: OpenRecord, amendSeq: nat) {
    && TakesResponses(answer, kind)
    && Given(answer) > 0
    && (answer.file != [] ==> kind == Briefing && !answer.drop)
    && answer.amendSeq <= amendSeq
    && if answer.drop then Given(answer) <= 1 else ResponseFits(answer, kind, question)
  }
}
