/** The case as the program keeps it: one object whose methods check an event
    and then change its fields in place. Each method is proved against the
    value it should leave, given by `Cases`. */
module CaseMachine {
  import opened Wrappers
  import opened Names
  import opened Times
  import opened Records
  import opened Rules
  import opened Cases
  import opened Words

  class Case {
    var state: State
    var revision: nat
    var lastSeq: U64
    var amendSeq: U64
    var updatedAt: Option<Time>
    var kind: Kind
    var urgency: Urgency
    var question: OpenRecord
    var answer: Option<AnswerRecord>
    var pickup: Option<PickupRecord>
    var park: Option<ParkRecord>
    var close: Option<CloseRecord>
    var events: seq<Event>
    var problems: seq<Problem>

    function Now(): Standing
      reads this
    {
      Standing(state, amendSeq, updatedAt, kind, urgency, question, answer, pickup, park, close, events)
    }

    function View(): Folded
      reads this
    {
      Folded(Now(), revision, lastSeq, problems)
    }

    constructor (s: Standing)
      ensures View() == Folded(s, 0, 0, [])
    {
      state, revision, lastSeq, amendSeq, updatedAt := s.state, 0, 0, s.amendSeq, s.updatedAt;
      kind, urgency, question := s.kind, s.urgency, s.question;
      answer, pickup, park, close := s.answer, s.pickup, s.park, s.close;
      events, problems := s.events, [];
    }

    /** A new object, when the record is an open that keeps its rules. */
    static method StartCase(seqNo: U64, author: Author, record: Record, data: string, write: bool)
      returns (r: Result<Case, Category>)
      ensures r.Failure? ==> Start(seqNo, author, record, data, write) == Failure(r.error)
      ensures r.Success? ==> fresh(r.value)
      ensures r.Success? ==> Start(seqNo, author, record, data, write) == Success(r.value.Now())
      ensures r.Success? ==> r.value.View() == Folded(r.value.Now(), 0, 0, [])
    {
      if !record.Opening? {
        return Failure(Transition);
      }
      var checked := CheckOpen(record.open, author, write);
      if checked.Failure? {
        return Failure(checked.error);
      }
      var (kind, urgency) := checked.value;
      var state := match kind.Opener() case Human => Sent case Agent => State.Open;
      var begun := new Case(Standing(
                               state, 0, record.open.at, kind, urgency, record.open, None, None, None, None,
                               [Event(seqNo, author, None, record, data)]));
      return Success(begun);
    }

    /** What both ways of asking again do. */
    method Reopen()
      modifies `answer, `pickup, `state
      ensures Now() == Reopened(old(Now()))
    {
      answer := None;
      pickup := None;
      state := State.Open;
    }

    /** Assigns one field of the question after another. */
    method AmendQuestion(amend: AmendRecord)
      modifies `question
      ensures question == Amended(old(question), amend)
    {
      question := question.(options := question.options + amend.options);
      question := question.(rows := question.rows + amend.rows);
      question := question.(links := Without(question.links, amend.dropLinks));
      question := question.(links := question.links + amend.links);
      question := question.(labels := question.labels + amend.labels);
      if amend.title != "" {
        question := question.(title := amend.title);
      }
      if amend.body != "" {
        question := question.(body := amend.body);
      }
      if amend.context != "" {
        question := question.(context := amend.context);
      }
      if amend.recommend != 0 {
        question := question.(recommend := amend.recommend);
      }
      if amend.landed.Some? {
        question := question.(landed := amend.landed.value);
      }
      if amend.leftOut != [] {
        question := question.(leftOut := amend.leftOut);
      }
    }

    method DoAmend(seqNo: U64, author: Author, amend: AmendRecord) returns (r: Outcome<Category>)
      modifies `amendSeq, `question, `answer, `pickup, `state
      ensures r.Pass? ==> TakeAmend(old(Now()), seqNo, author, amend) == Success(Now())
      ensures r.Fail? ==> TakeAmend(old(Now()), seqNo, author, amend) == Failure(r.error) && Now() == old(Now())
    {
      var from := state;
      if author != kind.Opener() {
        return Fail(WrongAuthor);
      }
      var reopens := from == Answered || from == PickedUp;
      if !(from == State.Open || from == Sent || (amend.reopen && reopens && kind.Opener() == Agent)) {
        return Fail(Transition);
      }
      if amend.reopen && !reopens {
        return Fail(Invalid);
      }
      if !AmendFits(amend, kind, question) {
        return Fail(Invalid);
      }
      if ChangesQuestion(amend, question) {
        amendSeq := seqNo;
      }
      AmendQuestion(amend);
      if amend.reopen {
        Reopen();
      }
      return Pass;
    }

    method DoAnswer(given: AnswerRecord) returns (r: Outcome<Category>)
      modifies `answer, `state
      ensures r.Pass? ==> TakeAnswer(old(Now()), given) == Success(Now())
      ensures r.Fail? ==> TakeAnswer(old(Now()), given) == Failure(r.error) && Now() == old(Now())
    {
      if given.amendSeq < amendSeq {
        return Fail(Stale);
      }
      if state != State.Open {
        return Fail(Transition);
      }
      if !AnswerFits(given, kind, question, amendSeq) {
        return Fail(Invalid);
      }
      answer := Some(given);
      state := Answered;
      return Pass;
    }

    method DoPickup(taken: PickupRecord) returns (r: Outcome<Category>)
      modifies `pickup, `state
      ensures r.Pass? ==> TakePickup(old(Now()), taken) == Success(Now())
      ensures r.Fail? ==> TakePickup(old(Now()), taken) == Failure(r.error) && Now() == old(Now())
    {
      if !(state == Answered || state == Sent) {
        return Fail(Transition);
      }
      pickup := Some(taken);
      state := PickedUp;
      return Pass;
    }

    method DoNote(note: NoteRecord, write: bool) returns (r: Outcome<Category>)
      modifies `answer, `pickup, `state
      ensures r.Pass? ==> TakeNote(old(Now()), note, write) == Success(Now())
      ensures r.Fail? ==> TakeNote(old(Now()), note, write) == Failure(r.error) && Now() == old(Now())
    {
      var from := state;
      if !(from == State.Open || from == Answered || from == PickedUp) {
        return Fail(Transition);
      }
      if kind.Opener() == Human {
        return Fail(Transition);
      }
      var reopens := from != State.Open;
      if write && reopens && !note.reopen {
        return Fail(Transition);
      }
      if Blank(note.body) {
        return Fail(Invalid);
      }
      if note.reopen && !reopens {
        return Fail(Invalid);
      }
      if reopens {
        Reopen();
      }
      return Pass;
    }

    method DoClose(closing: CloseRecord) returns (r: Outcome<Category>)
      modifies `close, `state
      ensures r.Pass? ==> TakeClose(old(Now()), closing) == Success(Now())
      ensures r.Fail? ==> TakeClose(old(Now()), closing) == Failure(r.error) && Now() == old(Now())
    {
      if state != PickedUp {
        return Fail(Transition);
      }
      if Blank(closing.outcome) {
        return Fail(Invalid);
      }
      if closing.expired && kind != Briefing {
        return Fail(Invalid);
      }
      close := Some(closing);
      state := Closed;
      return Pass;
    }

    method DoWithdraw(author: Author) returns (r: Outcome<Category>)
      modifies `state
      ensures r.Pass? ==> TakeWithdraw(old(Now()), author) == Success(Now())
      ensures r.Fail? ==> TakeWithdraw(old(Now()), author) == Failure(r.error) && Now() == old(Now())
    {
      var from := state;
      if !(from == State.Open || (author == Human && (from == Sent || from == Answered || from == PickedUp))) {
        return Fail(Transition);
      }
      state := Withdrawn;
      return Pass;
    }

    method DoPark(parking: ParkRecord) returns (r: Outcome<Category>)
      modifies `park, `state
      ensures r.Pass? ==> TakePark(old(Now()), parking) == Success(Now())
      ensures r.Fail? ==> TakePark(old(Now()), parking) == Failure(r.error) && Now() == old(Now())
    {
      if state != State.Open {
        return Fail(Transition);
      }
      if kind != Stuck {
        return Fail(Transition);
      }
      park := Some(parking);
      state := Parked;
      return Pass;
    }

    method DoResume() returns (r: Outcome<Category>)
      modifies `park, `state
      ensures r.Pass? ==> TakeResume(old(Now())) == Success(Now())
      ensures r.Fail? ==> TakeResume(old(Now())) == Failure(r.error) && Now() == old(Now())
    {
      if state != Parked {
        return Fail(Transition);
      }
      park := None;
      state := State.Open;
      return Pass;
    }

    /** Hands the record to its own event's checks and changes. */
    method Dispatch(seqNo: U64, author: Author, record: Record, write: bool) returns (r: Outcome<Category>)
      modifies `amendSeq, `question, `answer, `pickup, `park, `close, `state
      ensures r.Pass? ==> Apply(old(Now()), seqNo, author, record, write) == Success(Now())
      ensures r.Fail? ==> Apply(old(Now()), seqNo, author, record, write) == Failure(r.error) && Now() == old(Now())
    {
      match record {
        case Opening(_) => r := Fail(Transition);
        case Amending(amend) => r := DoAmend(seqNo, author, amend);
        case Answering(given) => r := DoAnswer(given);
        case PickingUp(taken) => r := DoPickup(taken);
        case Noting(note) => r := DoNote(note, write);
        case Closing(closing) => r := DoClose(closing);
        case Withdrawing(_) => r := DoWithdraw(author);
        case Parking(parking) => r := DoPark(parking);
        case Resuming(_) => r := DoResume();
      }
    }

    /** Writes to the object only once nothing can refuse the event. */
    method TakeEvent(seqNo: U64, author: Author, record: Record, data: string, write: bool)
      returns (r: Outcome<Category>)
      modifies this
      ensures r.Pass? ==> Take(old(Now()), seqNo, author, record, data, write) == Success(Now())
      ensures r.Fail? ==> Take(old(Now()), seqNo, author, record, data, write) == Failure(r.error)
      ensures r.Fail? ==> Now() == old(Now())
      ensures unchanged(`revision, `lastSeq, `problems)
    {
      hide Apply;
      var from := state;
      r := Dispatch(seqNo, author, record, write);
      if r.Fail? {
        return;
      }
      ghost var applied := Now();
      var at := record.At();
      if at.Some? && (updatedAt.None? || updatedAt.value.Before(at.value)) {
        updatedAt := at;
      }
      events := events + [Event(seqNo, author, Some(from), record, data)];
      assert Now() == applied.(updatedAt := updatedAt, events := events);
    }

    /** One row of a replay: the first that opens a case makes the object, and
        each one taken after it updates that object. */
    static method TakeRow(codec: Codec, folded: Case?, row: Row) returns (next: Case?, r: Outcome<Category>)
      modifies if folded == null then {} else {folded}
      ensures next == folded || (next != null && fresh(next))
      ensures
        var before := if folded == null then None else Some(old(folded.Now()));
        match r
        case Pass => next != null && Step(codec, before, row) == Success(next.Now())
        case Fail(error) =>
          && Step(codec, before, row) == Failure(error)
          && next == folded && (folded != null ==> folded.Now() == old(folded.Now()))
    {
      hide Take, Start;
      next := folded;
      var read := Read(codec, row.author, row.event, row.data);
      if read.Failure? {
        return folded, Fail(read.error);
      }
      var (author, record) := read.value;
      if folded != null {
        r := folded.TakeEvent(row.seqNo, author, record, row.data, false);
      } else {
        var started := StartCase(row.seqNo, author, record, row.data, false);
        if started.Failure? {
          return null, Fail(started.error);
        }
        next, r := started.value, Pass;
      }
    }

    /** One pass over the rows, with one object that each row taken updates. */
    static method FoldRows(codec: Codec, rows: seq<Row>) returns (r: Result<Case, Category>)
      ensures r.Failure? ==> Fold(codec, rows) == Failure(r.error)
      ensures r.Success? ==> fresh(r.value) && Fold(codec, rows) == Success(r.value.View())
    {
      hide Step;
      var folded: Case? := null;
      var problems: seq<Problem> := [];
      var lastSeq: U64 := 0;
      for i := 0 to |rows|
        invariant folded != null ==> fresh(folded)
        invariant Replay(codec, rows[..i]) ==
                  Progress(if folded == null then None else Some(folded.Now()), problems)
        invariant lastSeq == LastSeq(rows[..i])
      {
        var row := rows[i];
        assert rows[..i + 1][..i] == rows[..i];
        var taken: Outcome<Category>;
        folded, taken := TakeRow(codec, folded, row);
        if taken.Fail? {
          problems := problems + [ProblemOf(row, taken.error)];
        }
        if lastSeq < row.seqNo {
          lastSeq := row.seqNo;
        }
      }
      assert rows[..|rows|] == rows;
      if folded == null {
        return Failure(NoOpen);
      }
      folded.problems := problems;
      folded.revision := |rows|;
      folded.lastSeq := lastSeq;
      return Success(folded);
    }

    /** The writer's open: a new case, and its first row for the store. */
    static method Open(codec: Codec, append: Append, now: Time, actor: Option<Actor>)
      returns (r: Result<(Case, Row), Category>)
      ensures r.Failure? ==> OpenCase(codec, append, now, actor) == Failure(r.error)
      ensures r.Success? ==>
                && fresh(r.value.0)
                && OpenCase(codec, append, now, actor) == Success((r.value.0.View(), r.value.1))
    {
      var stamped := Stamp(codec, append, now, actor);
      if stamped.Failure? {
        return Failure(stamped.error);
      }
      var (author, record) := stamped.value;
      var row := NewRow(codec, 1, author, record);
      var started := StartCase(1, author, record, row.data, true);
      if started.Failure? {
        return Failure(started.error);
      }
      var begun := started.value;
      begun.revision := 1;
      begun.lastSeq := 1;
      return Success((begun, row));
    }

    /** The writer: on this object, with the row to keep when all goes well. */
    method AppendEvent(codec: Codec, append: Append, now: Time, actor: Option<Actor>, atRevision: Option<nat>)
      returns (r: Result<Row, Category>)
      modifies this
      ensures r.Success? ==> AppendTo(codec, old(View()), append, now, actor, atRevision) == Success((View(), r.value))
      ensures r.Failure? ==> AppendTo(codec, old(View()), append, now, actor, atRevision) == Failure(r.error)
      ensures r.Failure? ==> View() == old(View())
      ensures atRevision.Some? && atRevision.value != old(revision) ==> r == Failure(Stale)
    {
      hide Take;
      if atRevision.Some? && atRevision.value != revision {
        return Failure(Stale);
      }
      var stamped := Stamp(codec, append, now, actor);
      if stamped.Failure? {
        return Failure(stamped.error);
      }
      var (author, record) := stamped.value;
      if lastSeq == U64_MAX {
        return Failure(Transition);
      }
      var seqNo: U64 := lastSeq + 1;
      var row := NewRow(codec, seqNo, author, record);
      ghost var after := Take(Now(), seqNo, author, record, row.data, true);
      var taken := TakeEvent(seqNo, author, record, row.data, true);
      assert if taken.Pass? then after == Success(Now()) else after == Failure(taken.error) && Now() == old(Now());
      if taken.Fail? {
        return Failure(taken.error);
      }
      revision := revision + 1;
      lastSeq := seqNo;
      return Success(row);
    }
  }
}
