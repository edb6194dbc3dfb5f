/** The case as a value: what its rows fold to, what one more event makes of
    it, and what the writer makes of an append. The class of `CaseMachine`
    computes these in place. */
module Cases {
  import opened Wrappers
  import opened Names
  import opened Times
  import opened Records
  import opened Rules
  import opened Words

  /** A stored row: its number in its case, its author, event and record as
      stored. */
  datatype Row = Row(seqNo: U64, author: string, event: string, data: string)

  /** An event for the writer, as text. */
  datatype Append = Append(author: string, event: string, data: string)

  /** An event the case took, and the state before it. */
  datatype Event = Event(seqNo: U64, author: Author, from: Option<State>, record: Record, data: string)

  /** A row that made no event, with the category of its refusal. */
  datatype Problem = Problem(seqNo: U64, author: string, event: string, error: Category)

  /** Where a case stands: everything its taken events give. */
  datatype Standing = Standing(
    state: State, amendSeq: U64, updatedAt: Option<Time>, kind: Kind, urgency: Urgency, question: OpenRecord,
    answer: Option<AnswerRecord>, pickup: Option<PickupRecord>, park: Option<ParkRecord>,
    close: Option<CloseRecord>, events: seq<Event>)

  /** A folded case: where it stands, and what its rows count to, skipped
      ones included. */
  datatype Folded = Folded(now: Standing, revision: nat, lastSeq: U64, problems: seq<Problem>)

  // ----- one event

  /** The later of two times, where no time is before every time. */
  function Latest(a: Option<Time>, b: Option<Time>): Option<Time> {
    if b.None? then a
    else if a.None? || a.value.Before(b.value) then b
    else a
  }

  function Start(seqNo: U64, author: Author, record: Record, data: string, write: bool): Result<Standing, Category> {
    if !record.Opening? then Failure(Transition)
    else
      var (kind, urgency) :- CheckOpen(record.open, author, write);
      Success(Standing(
        if kind.Opener() == Human then Sent else State.Open,
        0, record.open.at, kind, urgency, record.open, None, None, None, None,
        [Event(seqNo, author, None, record, data)]))
  }

  function Reopened(s: Standing): Standing {
    s.(answer := None, pickup := None, state := State.Open)
  }

  /** The links not in `drop`, in their order. */
  function Without(links: seq<string>, drop: seq<string>): seq<string> {
    if links == [] then []
    else (if links[0] in drop then [] else [links[0]]) + Without(links[1..], drop)
  }

  function Amended(q: OpenRecord, amend: AmendRecord): OpenRecord {
    q.(
    options := q.options + amend.options,
    rows := q.rows + amend.rows,
    links := Without(q.links, amend.dropLinks) + amend.links,
    labels := q.labels + amend.labels,
    title := if amend.title == "" then q.title else amend.title,
    body := if amend.body == "" then q.body else amend.body,
    context := if amend.context == "" then q.context else amend.context,
    recommend := if amend.recommend == 0 then q.recommend else amend.recommend,
    landed := if amend.landed.None? then q.landed else amend.landed.value,
    leftOut := if amend.leftOut == [] then q.leftOut else amend.leftOut)
  }

  predicate Reopens(state: State) {
    state == Answered || state == PickedUp
  }

  function TakeAmend(s: Standing, seqNo: U64, author: Author, amend: AmendRecord): Result<Standing, Category> {
    if author != s.kind.Opener() then Failure(WrongAuthor)
    else if
      !(s.state == State.Open || s.state == Sent || (amend.reopen && Reopens(s.state) && s.kind.Opener() == Agent))
    then Failure(Transition)
    else if amend.reopen && !Reopens(s.state) then Failure(Invalid)
    else if !AmendFits(amend, s.kind, s.question) then Failure(Invalid)
    else
      var amended := s.(
        amendSeq := if ChangesQuestion(amend, s.question) then seqNo else s.amendSeq,
        question := Amended(s.question, amend));
      Success(if amend.reopen then Reopened(amended) else amended)
  }

  function TakeAnswer(s: Standing, answer: AnswerRecord): Result<Standing, Category> {
    if answer.amendSeq < s.amendSeq then Failure(Stale)
    else if s.state != State.Open then Failure(Transition)
    else if !AnswerFits(answer, s.kind, s.question, s.amendSeq) then Failure(Invalid)
    else Success(s.(answer := Some(answer), state := Answered))
  }

  function TakePickup(s: Standing, pickup: PickupRecord): Result<Standing, Category> {
    if !(s.state == Answered || s.state == Sent) then Failure(Transition)
    else Success(s.(pickup := Some(pickup), state := PickedUp))
  }

  function TakeNote(s: Standing, note: NoteRecord, write: bool): Result<Standing, Category> {
    if !(s.state == State.Open || Reopens(s.state)) then Failure(Transition)
    else if s.kind.Opener() == Human then Failure(Transition)
    else if write && s.state != State.Open && !note.reopen then Failure(Transition)
    else if Blank(note.body) then Failure(Invalid)
    else if note.reopen && s.state == State.Open then Failure(Invalid)
    else Success(if s.state != State.Open then Reopened(s) else s)
  }

  function TakeClose(s: Standing, close: CloseRecord): Result<Standing, Category> {
    if s.state != PickedUp then Failure(Transition)
    else if Blank(close.outcome) then Failure(Invalid)
    else if close.expired && s.kind != Briefing then Failure(Invalid)
    else Success(s.(close := Some(close), state := Closed))
  }

  function TakeWithdraw(s: Standing, author: Author): Result<Standing, Category> {
    if !(s.state == State.Open || (author == Human && (s.state == Sent || Reopens(s.state))))
    then Failure(Transition)
    else Success(s.(state := Withdrawn))
  }

  function TakePark(s: Standing, park: ParkRecord): Result<Standing, Category> {
    if s.state != State.Open then Failure(Transition)
    else if s.kind != Stuck then Failure(Transition)
    else Success(s.(park := Some(park), state := Parked))
  }

  function TakeResume(s: Standing): Result<Standing, Category> {
    if s.state != Parked then Failure(Transition)
    else Success(s.(park := None, state := State.Open))
  }

  /** What the record alone makes of the case, before the event is listed. */
  function Apply(s: Standing, seqNo: U64, author: Author, record: Record, write: bool): Result<Standing, Category> {
    match record
    case Opening(_) => Failure(Transition)
    case Amending(amend) => TakeAmend(s, seqNo, author, amend)
    case Answering(answer) => TakeAnswer(s, answer)
    case PickingUp(pickup) => TakePickup(s, pickup)
    case Noting(note) => TakeNote(s, note, write)
    case Closing(close) => TakeClose(s, close)
    case Withdrawing(_) => TakeWithdraw(s, author)
    case Parking(park) => TakePark(s, park)
    case Resuming(_) => TakeResume(s)
  }

  function Take(s: Standing, seqNo: U64, author: Author, record: Record, data: string, write: bool)
    : Result<Standing, Category>
  {
    var applied :- Apply(s, seqNo, author, record, write);
    Success(applied.(
      updatedAt := Latest(s.updatedAt, record.At()),
      events := s.events + [Event(seqNo, author, Some(s.state), record, data)]))
  }

  // ----- the fold

  /** The checks before the case: the event is known, its author may write
      it, the record reads, and its actor has an id of the right shape. */
  function Read(codec: Codec, author: string, event: string, data: string): Result<(Author, Record), Category> {
    var e := ParseEvent(event);
    :- Need(e.Some?, UnknownName);
    var a := ParseAuthor(author);
    :- Need(a.Some? && e.value.WrittenBy(a.value), WrongAuthor);
    var record := codec.read(e.value, data);
    :- Need(record.Some?, Malformed);
    :- Need(ActorFits(record.value.Actor()), Invalid);
    Success((a.value, record.value))
  }

  /** The case after one more stored row, or why the row is skipped. */
  function Step(codec: Codec, case_: Option<Standing>, row: Row): Result<Standing, Category> {
    var (author, record) :- Read(codec, row.author, row.event, row.data);
    if case_.None? then Start(row.seqNo, author, record, row.data, false)
    else Take(case_.value, row.seqNo, author, record, row.data, false)
  }

  function ProblemOf(row: Row, error: Category): Problem {
    Problem(row.seqNo, row.author, row.event, error)
  }

  /** Where a case's rows leave it, and the rows they skip. */
  datatype Progress = Progress(case_: Option<Standing>, problems: seq<Problem>)

  function Replay(codec: Codec, rows: seq<Row>): Progress
    decreases |rows|
  {
    if rows == [] then Progress(None, [])
    else
      var before := Replay(codec, rows[..|rows| - 1]);
      var row := rows[|rows| - 1];
      match Step(codec, before.case_, row)
      case Success(s) => Progress(Some(s), before.problems)
      case Failure(error) => Progress(before.case_, before.problems + [ProblemOf(row, error)])
  }

  function Max(a: U64, b: U64): U64 {
    if a < b then b else a
  }

  /** The highest seq among the rows, 0 when there are none. */
  function LastSeq(rows: seq<Row>): U64
    decreases |rows|
  {
    if rows == [] then 0 else Max(LastSeq(rows[..|rows| - 1]), rows[|rows| - 1].seqNo)
  }

  function Fold(codec: Codec, rows: seq<Row>): Result<Folded, Category> {
    var done := Replay(codec, rows);
    :- Need(done.case_.Some?, NoOpen);
    Success(Folded(done.case_.value, |rows|, LastSeq(rows), done.problems))
  }

  // ----- the writer

  function Stamp(codec: Codec, append: Append, now: Time, actor: Option<Actor>): Result<(Author, Record), Category> {
    var (author, record) :- Read(codec, append.author, append.event, append.data);
    :- Need(ActorFits(actor), Invalid);
    var signed := if actor.Some? then record.WithActor(actor) else record;
    Success((author, if signed.At().None? then signed.WithAt(Some(now)) else signed))
  }

  function NewRow(codec: Codec, seqNo: U64, author: Author, record: Record): Row {
    Row(seqNo, AuthorName(author), EventName(record.Event()), codec.toJson(record))
  }

  /** What the writer makes of an open: row 1, and the case that row makes. */
  function OpenCase(codec: Codec, append: Append, now: Time, actor: Option<Actor>): Result<(Folded, Row), Category> {
    var (author, record) :- Stamp(codec, append, now, actor);
    var row := NewRow(codec, 1, author, record);
    var s :- Start(1, author, record, row.data, true);
    Success((Folded(s, 1, 1, []), row))
  }

  /** The writer's append: the case after it, and the row to store. */
  function AppendTo(
    codec: Codec, c: Folded, append: Append, now: Time, actor: Option<Actor>, atRevision: Option<nat>)
    : Result<(Folded, Row), Category>
  {
    if atRevision.Some? && atRevision.value != c.revision then Failure(Stale)
    else
      var (author, record) :- Stamp(codec, append, now, actor);
      Store(codec, c, author, record)
  }

  /** Numbers a stamped record one above the case's rows, and takes it. */
  function Store(codec: Codec, c: Folded, author: Author, record: Record): Result<(Folded, Row), Category> {
    if c.lastSeq >= U64_MAX then Failure(Transition)
    else
      var seqNo: U64 := c.lastSeq + 1;
      var row := NewRow(codec, seqNo, author, record);
      var s :- Take(c.now, seqNo, author, record, row.data, true);
      Success((Folded(s, c.revision + 1, seqNo, c.problems), row))
  }
}
