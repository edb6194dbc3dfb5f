/** What every reachable case keeps: its slots agree with its state, its
    question is one that could have been opened, its answer fits the question
    as it stands, and its events are a run of the machine. */
module CaseLaws {
  import opened Wrappers
  import opened Seqs
  import opened Names
  import opened Times
  import opened Records
  import opened Rules
  import opened Cases
  import opened Words
  import opened WriterLaws

  // ----- the invariants

  /** What a case holds in each state. */
  predicate SlotsFit(s: Standing) {
    match s.state
    case Open => s.kind != Message && s.answer.None? && s.pickup.None? && s.park.None? && s.close.None?
    case Sent => s.kind == Message && s.answer.None? && s.pickup.None? && s.park.None? && s.close.None?
    case Answered => s.kind != Message && s.answer.Some? && s.pickup.None? && s.park.None? && s.close.None?
    case PickedUp => (s.answer.Some? <==> s.kind != Message) && s.pickup.Some? && s.park.None? && s.close.None?
    case Parked => s.kind == Stuck && s.answer.None? && s.pickup.None? && s.park.Some? && s.close.None?
    case Closed => (s.answer.Some? <==> s.kind != Message) && s.pickup.Some? && s.park.None? && s.close.Some?
    case Withdrawn =>
      && s.park.None? && s.close.None?
      && (s.pickup.Some? ==> (s.answer.Some? <==> s.kind != Message))
      && (s.answer.Some? ==> s.kind != Message)
  }

  /** The standing answer saw the last change to the question, and the
      question as it is now still accepts it. */
  predicate AnswerStands(s: Standing) {
    s.answer.Some? ==>
      && s.answer.value.amendSeq == s.amendSeq
      && AnswerFits(s.answer.value, s.kind, s.question, s.amendSeq)
  }

  /** The moves of the machine: which event, by whom, takes a case of a kind
      from one state to another. No state before is the open's. */
  predicate Moves(kind: Kind, from: Option<State>, event: EventType, author: Author, to: State) {
    if from.None? then
      event == OpenEvent && author == kind.Opener() && to == (if kind == Message then Sent else State.Open)
    else
      match event
      case OpenEvent => false
      case AmendEvent =>
        && author == kind.Opener()
        && ((from.value in {State.Open, Sent} && to == from.value)
            || (kind != Message && from.value in {Answered, PickedUp} && to == State.Open))
      case AnswerEvent => author == Human && from.value == State.Open && to == Answered
      case PickupEvent => author == Agent && from.value in {Answered, Sent} && to == PickedUp
      case NoteEvent =>
        author == Agent && kind != Message && from.value in {State.Open, Answered, PickedUp} && to == State.Open
      case CloseEvent => author == Agent && from.value == PickedUp && to == Closed
      case WithdrawEvent =>
        && (from.value == State.Open || (author == Human && from.value in {Sent, Answered, PickedUp}))
        && to == Withdrawn
      case ParkEvent => author == Human && kind == Stuck && from.value == State.Open && to == Parked
      case ResumeEvent => author == Human && from.value == Parked && to == State.Open
  }

  /** The state after event `i`: the one before the next, or the case's. */
  function StateAfter(events: seq<Event>, state: State, i: nat): Option<State>
    requires i < |events|
  {
    if i + 1 < |events| then events[i + 1].from else Some(state)
  }

  /** The events chain as a run of the machine from the open to the state. */
  predicate Chains(kind: Kind, events: seq<Event>, state: State) {
    && events != [] && events[0].from.None?
    && (forall i | 0 < i < |events| :: events[i].from.Some?)
    && forall i | 0 <= i < |events| ::
         var to := StateAfter(events, state, i);
         to.Some? && Moves(kind, events[i].from, events[i].record.Event(), events[i].author, to.value)
  }

  /** No event has a time after `at`, and one has it, unless no event has any. */
  predicate IsLatest(at: Option<Time>, events: seq<Event>) {
    && (forall e <- events :: e.record.At().Some? ==> at.Some? && !at.value.Before(e.record.At().value))
    && (at.Some? ==> exists e <- events :: e.record.At() == at)
  }

  ghost predicate Sound(s: Standing) {
    && SlotsFit(s)
    && OpenFits(s.question, s.kind)
    && AnswerStands(s)
    && Chains(s.kind, s.events, s.state)
    && IsLatest(s.updatedAt, s.events)
  }

  // ----- what a case takes

  /** Whether a record keeps its own event's rules on a case as it stands: an
      amend or a note says it reopens exactly when it does, but for a note
      stored before notes said so, and an answer saw the last amend. */
  predicate RecordFits(s: Standing, record: Record, write: bool) {
    match record
    case Amending(amend) => AmendFits(amend, s.kind, s.question) && (amend.reopen <==> Reopens(s.state))
    case Answering(answer) =>
      answer.amendSeq >= s.amendSeq && AnswerFits(answer, s.kind, s.question, s.amendSeq)
    case Noting(note) =>
      && !Blank(note.body) && (note.reopen ==> Reopens(s.state))
      && (write && Reopens(s.state) ==> note.reopen)
    case Closing(close) => !Blank(close.outcome) && (close.expired ==> s.kind == Briefing)
    case _ => true
  }

  /** A case takes an event if and only if the event is a move of the machine
      for its author in the case's state, and its record keeps its rules; and
      then the case moves to where the machine says. */
  lemma TakesExactlyTheMoves(s: Standing, seqNo: U64, author: Author, record: Record, data: string, write: bool)
    requires record.Event().WrittenBy(author)
    ensures
      var taken := Take(s, seqNo, author, record, data, write);
      && (taken.Success? <==>
            && (exists to: State :: Moves(s.kind, Some(s.state), record.Event(), author, to))
            && RecordFits(s, record, write))
      && (taken.Success? ==> Moves(s.kind, Some(s.state), record.Event(), author, taken.value.state))
  {
    hide AmendFits, AnswerFits, Blank, ChangesQuestion, Amended;
    var taken := Take(s, seqNo, author, record, data, write);
    if taken.Success? {
      assert Moves(s.kind, Some(s.state), record.Event(), author, taken.value.state);
    }
  }

  /** An answer that fits gives exactly one response: a drop, or the one its
      kind takes. So a message has none that fits. */
  lemma AnswersOnce(answer: AnswerRecord, kind: Kind, question: OpenRecord, amendSeq: nat)
    requires AnswerFits(answer, kind, question, amendSeq)
    ensures kind != Message && Given(answer) == 1
    ensures
      || answer.drop
      || match kind
         case Decision => answer.other || answer.choice != 0
         case Approval => answer.rows != []
         case Signoff => answer.signoff != ""
         case Briefing => answer.briefing != ""
         case Stuck | Question => answer.text != ""
         case Fyi => answer.ack
         case Message => false
  {
    hide VerdictsFit, FilesFit, Blank;
  }

  // ----- the question through amends

  lemma AllNewJoins(a: seq<string>, b: seq<string>)
    requires AllNew(a, []) && AllNew(b, a)
    ensures AllNew(a + b, [])
  {
    forall i | 0 <= i < |a + b|
      ensures (a + b)[i] !in (a + b)[..i]
    {
      if i < |a| {
        assert (a + b)[..i] == a[..i];
      } else {
        assert (a + b)[..i] == a + b[..i - |a|];
      }
    }
  }

  lemma HasRowJoins(a: seq<ApprovalRow>, b: seq<ApprovalRow>, id: string)
    ensures HasRow(a + b, id) <==> HasRow(a, id) || HasRow(b, id)
  {
    if HasRow(a, id) {
      var row :| row in a && row.id == id;
      assert row in a + b;
    }
    if HasRow(b, id) {
      var row :| row in b && row.id == id;
      assert row in a + b;
    }
  }

  lemma RowsFitJoins(a: seq<ApprovalRow>, b: seq<ApprovalRow>)
    requires RowsFit(a, []) && RowsFit(b, a)
    ensures RowsFit(a + b, [])
  {
    forall i | 0 <= i < |a + b|
      ensures !HasRow((a + b)[..i], (a + b)[i].id)
    {
      if i < |a| {
        assert (a + b)[..i] == a[..i];
      } else {
        assert (a + b)[..i] == a + b[..i - |a|];
        HasRowJoins(a, b[..i - |a|], b[i - |a|].id);
      }
    }
  }

  lemma WithoutIsSubset(links: seq<string>, drop: seq<string>)
    ensures forall l :: l in Without(links, drop) <==> l in links && l !in drop
  {
  }

  lemma {:induction false} WithoutKeepsNew(links: seq<string>, drop: seq<string>)
    requires AllNew(links, [])
    ensures AllNew(Without(links, drop), [])
    decreases |links|
  {
    if links == [] {
    } else {
      var rest := links[1..];
      assert forall i | 0 <= i < |rest| :: rest[i] == links[i + 1] && rest[..i] == links[..i + 1][1..];
      WithoutKeepsNew(rest, drop);
      WithoutIsSubset(rest, drop);
      if links[0] !in drop {
        assert links[0] !in rest by {
          forall i | 0 <= i < |rest|
            ensures rest[i] != links[0]
          {
            assert links[0] in links[..i + 1];
          }
        }
        AllNewHead(links[0], Without(rest, drop));
      }
    }
  }

  lemma AllNewHead(head: string, rest: seq<string>)
    requires AllNew(rest, []) && head !in rest
    ensures AllNew([head] + rest, [])
  {
    var all := [head] + rest;
    forall i | 0 <= i < |all|
      ensures all[i] !in all[..i]
    {
      if i > 0 {
        assert all[..i] == [head] + rest[..i - 1];
      }
    }
  }

  /** A question that could have been opened is, after any amend it accepts,
      again one that could have been opened: row ids, labels and left-out
      items distinct, at most ten items left out, a recommend that names an
      option of a decision, and what its kind needs. */
  lemma AmendKeepsOpenFits(q: OpenRecord, kind: Kind, amend: AmendRecord)
    requires OpenFits(q, kind) && AmendFits(amend, kind, q)
    ensures OpenFits(Amended(q, amend), kind)
  {
    RowsFitJoins(q.rows, amend.rows);
    AllNewJoins(q.labels, amend.labels);
  }

  /** And one that keeps the writer's rules keeps them: options and links stay
      distinct, through links dropped and added. */
  lemma AmendKeepsWriteFits(q: OpenRecord, kind: Kind, amend: AmendRecord)
    requires OpenWriteFits(q) && AmendFits(amend, kind, q)
    ensures OpenWriteFits(Amended(q, amend))
  {
    AllNewJoins(q.options, amend.options);
    WithoutIsSubset(q.links, amend.dropLinks);
    WithoutKeepsNew(q.links, amend.dropLinks);
    AllNewJoins(Without(q.links, amend.dropLinks), amend.links);
  }

  // ----- one event keeps them all

  lemma StartIsSound(seqNo: U64, author: Author, record: Record, data: string, write: bool)
    requires Start(seqNo, author, record, data, write).Success?
    ensures Sound(Start(seqNo, author, record, data, write).value)
  {
    var s := Start(seqNo, author, record, data, write).value;
    assert s.events[0].record.At() == s.updatedAt;
    assert s.events[0] in s.events;
  }

  lemma AmendKeepsSlots(s: Standing, seqNo: U64, author: Author, amend: AmendRecord)
    requires SlotsFit(s) && OpenFits(s.question, s.kind) && AnswerStands(s)
    requires TakeAmend(s, seqNo, author, amend).Success?
    ensures
      var t := TakeAmend(s, seqNo, author, amend).value;
      && SlotsFit(t) && OpenFits(t.question, t.kind) && AnswerStands(t)
      && Moves(s.kind, Some(s.state), AmendEvent, author, t.state)
      && (OpenWriteFits(s.question) ==> OpenWriteFits(t.question))
  {
    hide OpenFits, OpenWriteFits, AmendFits, Amended, AnswerFits;
    AmendKeepsOpenFits(s.question, s.kind, amend);
    if OpenWriteFits(s.question) {
      AmendKeepsWriteFits(s.question, s.kind, amend);
    }
  }

  lemma ApplyKeepsSlots(s: Standing, seqNo: U64, author: Author, record: Record, write: bool)
    requires SlotsFit(s) && OpenFits(s.question, s.kind) && AnswerStands(s)
    requires record.Event().WrittenBy(author)
    requires Apply(s, seqNo, author, record, write).Success?
    ensures
      var t := Apply(s, seqNo, author, record, write).value;
      && SlotsFit(t) && OpenFits(t.question, t.kind) && AnswerStands(t)
      && t.kind == s.kind && t.events == s.events && t.updatedAt == s.updatedAt
      && Moves(s.kind, Some(s.state), record.Event(), author, t.state)
      && (OpenWriteFits(s.question) ==> OpenWriteFits(t.question))
  {
    hide OpenFits, OpenWriteFits, AmendFits, Amended, TakesResponses, Given, ResponseFits;
    if record.Amending? {
      AmendKeepsSlots(s, seqNo, author, record.amend);
    } else {
      assert Apply(s, seqNo, author, record, write).value.question == s.question;
    }
  }

  lemma ChainsGrow(kind: Kind, events: seq<Event>, state: State, e: Event, to: State)
    requires Chains(kind, events, state)
    requires e.from == Some(state) && Moves(kind, e.from, e.record.Event(), e.author, to)
    ensures Chains(kind, events + [e], to)
  {
    var all := events + [e];
    forall i | 0 <= i < |all|
      ensures StateAfter(all, to, i).Some?
      ensures Moves(kind, all[i].from, all[i].record.Event(), all[i].author, StateAfter(all, to, i).value)
    {
      if i < |events| {
        assert StateAfter(all, to, i) == StateAfter(events, state, i);
      }
    }
  }

  lemma LatestGrows(at: Option<Time>, events: seq<Event>, e: Event)
    requires IsLatest(at, events)
    ensures IsLatest(Latest(at, e.record.At()), events + [e])
  {
    var all, latest := events + [e], Latest(at, e.record.At());
    assert forall x <- all :: x in events || x == e;
    if latest.Some? {
      if latest == at {
        var x :| x in events && x.record.At() == at;
        assert x in all;
      } else {
        assert e in all;
      }
    }
  }

  lemma TakeKeepsSound(s: Standing, seqNo: U64, author: Author, record: Record, data: string, write: bool)
    requires Sound(s) && record.Event().WrittenBy(author)
    requires Take(s, seqNo, author, record, data, write).Success?
    ensures Sound(Take(s, seqNo, author, record, data, write).value)
    ensures OpenWriteFits(s.question) ==> OpenWriteFits(Take(s, seqNo, author, record, data, write).value.question)
  {
    var applied := Apply(s, seqNo, author, record, write).value;
    var e := Event(seqNo, author, Some(s.state), record, data);
    ApplyKeepsSlots(s, seqNo, author, record, write);
    ChainsGrow(s.kind, s.events, s.state, e, applied.state);
    LatestGrows(s.updatedAt, s.events, e);
  }

  // ----- every reachable case

  lemma StepKeepsSound(codec: Codec, before: Option<Standing>, row: Row)
    requires codec.Faithful() && (before.Some? ==> Sound(before.value))
    requires Step(codec, before, row).Success?
    ensures Sound(Step(codec, before, row).value)
  {
    hide Read, Start, Take, Sound, Codec.Faithful;
    var (author, record) := Read(codec, row.author, row.event, row.data).value;
    ReadFacts(codec, row.author, row.event, row.data);
    if before.None? {
      StartIsSound(row.seqNo, author, record, row.data, false);
    } else {
      TakeKeepsSound(before.value, row.seqNo, author, record, row.data, false);
    }
  }

  lemma {:induction false} ReplayIsSound(codec: Codec, rows: seq<Row>)
    requires codec.Faithful()
    ensures Replay(codec, rows).case_.Some? ==> Sound(Replay(codec, rows).case_.value)
    decreases |rows|
  {
    hide Step, Sound, Codec.Faithful;
    if rows == [] {
    } else {
      var init, row := rows[..|rows| - 1], rows[|rows| - 1];
      ReplayIsSound(codec, init);
      if Step(codec, Replay(codec, init).case_, row).Success? {
        StepKeepsSound(codec, Replay(codec, init).case_, row);
      }
    }
  }

  /** Every case any rows fold to is sound, whatever rows were skipped. */
  lemma EveryCaseIsSound(codec: Codec, rows: seq<Row>)
    requires codec.Faithful()
    requires Fold(codec, rows).Success?
    ensures Sound(Fold(codec, rows).value.now)
  {
    ReplayIsSound(codec, rows);
  }

  lemma StoreKeepsSound(codec: Codec, c: Folded, author: Author, record: Record)
    requires Sound(c.now) && OpenWriteFits(c.now.question) && record.Event().WrittenBy(author)
    requires Store(codec, c, author, record).Success?
    ensures
      var now := Store(codec, c, author, record).value.0.now;
      Sound(now) && OpenWriteFits(now.question)
  {
    hide Apply, Sound, OpenWriteFits;
    var row := Store(codec, c, author, record).value.1;
    TakeKeepsSound(c.now, row.seqNo, author, record, row.data, true);
  }

  lemma AppendKeepsSound(codec: Codec, c: Folded, a: Attempt)
    requires codec.Faithful()
    requires Sound(c.now) && OpenWriteFits(c.now.question)
    ensures
      var next := AppendTo(codec, c, a.append, a.now, a.actor, a.atRevision);
      next.Success? ==> Sound(next.value.0.now) && OpenWriteFits(next.value.0.now.question)
  {
    var next := AppendTo(codec, c, a.append, a.now, a.actor, a.atRevision);
    if next.Success? {
      StampedFacts(codec, a.append, a.now, a.actor);
      var (author, record) := Stamp(codec, a.append, a.now, a.actor).value;
      StoreKeepsSound(codec, c, author, record);
    }
  }

  lemma OpenKeepsWriteRules(codec: Codec, append: Append, now: Time, actor: Option<Actor>)
    requires OpenCase(codec, append, now, actor).Success?
    ensures
      var s := OpenCase(codec, append, now, actor).value.0.now;
      Sound(s) && OpenWriteFits(s.question)
  {
    hide Stamp, Sound, OpenFits, OpenWriteFits;
    var (author, record) := Stamp(codec, append, now, actor).value;
    StartIsSound(1, author, record, OpenCase(codec, append, now, actor).value.1.data, true);
  }

  /** A case the writer alone made keeps the writer's rules as well: no option
      and no link is ever there twice, and no link is blank. */
  lemma {:induction false} WrittenCaseKeepsWriteRules(
    codec: Codec, append: Append, now: Time, actor: Option<Actor>, attempts: seq<Attempt>)
    requires codec.Faithful()
    requires OpenCase(codec, append, now, actor).Success?
    ensures
      var c := Run(codec, OpenCase(codec, append, now, actor).value.0, attempts).0;
      Sound(c.now) && OpenWriteFits(c.now.question)
    decreases |attempts|
  {
    hide OpenCase, AppendTo, Sound, OpenWriteFits;
    var (case0, first) := OpenCase(codec, append, now, actor).value;
    if attempts == [] {
      OpenKeepsWriteRules(codec, append, now, actor);
    } else {
      var init, a := attempts[..|attempts| - 1], attempts[|attempts| - 1];
      WrittenCaseKeepsWriteRules(codec, append, now, actor, init);
      var before := Run(codec, case0, init).0;
      AppendKeepsSound(codec, before, a);
    }
  }

  // ----- what it means for an answer to fit

  function RowIds(rows: seq<ApprovalRow>): seq<string> {
    seq(|rows|, i requires 0 <= i < |rows| => rows[i].id)
  }

  function VerdictIds(verdicts: seq<RowVerdict>): seq<string> {
    seq(|verdicts|, i requires 0 <= i < |verdicts| => verdicts[i].id)
  }

  lemma RowIdsAre(rows: seq<ApprovalRow>)
    ensures forall x :: x in RowIds(rows) <==> HasRow(rows, x)
    ensures RowsFit(rows, []) ==> Distinct(RowIds(rows))
  {
    forall x | HasRow(rows, x)
      ensures x in RowIds(rows)
    {
      var i :| 0 <= i < |rows| && rows[i].id == x;
      assert RowIds(rows)[i] == x;
    }
    if RowsFit(rows, []) {
      forall i, j | 0 <= i < j < |rows|
        ensures RowIds(rows)[i] != RowIds(rows)[j]
      {
        assert rows[i] in rows[..j];
      }
    }
  }

  lemma VerdictIdsAre(verdicts: seq<RowVerdict>, rows: seq<ApprovalRow>)
    ensures forall x :: x in VerdictIds(verdicts) <==> HasVerdict(verdicts, x)
    ensures VerdictsFit(verdicts, rows) ==> Distinct(VerdictIds(verdicts))
  {
    forall x | HasVerdict(verdicts, x)
      ensures x in VerdictIds(verdicts)
    {
      var i :| 0 <= i < |verdicts| && verdicts[i].id == x;
      assert VerdictIds(verdicts)[i] == x;
    }
    if VerdictsFit(verdicts, rows) {
      forall i, j | 0 <= i < j < |verdicts|
        ensures VerdictIds(verdicts)[i] != VerdictIds(verdicts)[j]
      {
        assert verdicts[i] in verdicts[..j];
      }
    }
  }

  /** An approval's standing answer gives each row of the question, as amended,
      exactly one verdict, and no verdict on anything else. */
  lemma VerdictsMatchRows(s: Standing)
    requires Sound(s) && s.kind == Approval && s.answer.Some? && !s.answer.value.drop
    ensures multiset(VerdictIds(s.answer.value.rows)) == multiset(RowIds(s.question.rows))
    ensures Distinct(RowIds(s.question.rows)) && |s.answer.value.rows| == |s.question.rows|
  {
    var verdicts, rows := s.answer.value.rows, s.question.rows;
    VerdictIdsAre(verdicts, rows);
    RowIdsAre(rows);
    SameMembersSameMultiset(VerdictIds(verdicts), RowIds(rows));
  }

  /** What a standing answer says to each other kind of case. */
  lemma StandingAnswerNamesTheQuestion(s: Standing)
    requires Sound(s) && s.answer.Some?
    ensures
      var a := s.answer.value;
      && (a.choice != 0 ==> s.kind == Decision && NamesOption(a.choice, |s.question.options|))
      && (a.file != [] ==> s.kind == Briefing && !a.drop)
      && Distinct(a.file) && |a.file| <= LEFT_OUT_ITEMS
      && (forall n <- a.file :: 1 <= n <= |s.question.leftOut|)
  {
    var a := s.answer.value;
    if a.file != [] {
      forall i, j | 0 <= i < j < |a.file|
        ensures a.file[i] != a.file[j]
      {
        assert a.file[i] in a.file[..j];
      }
      DistinctInRange(a.file, |s.question.leftOut|);
    }
  }

  /** Distinct numbers from 1 to `n` number at most `n`. */
  lemma {:induction false} DistinctInRange(file: seq<int>, n: nat)
    requires Distinct(file) && forall x <- file :: 1 <= x <= n
    ensures |file| <= n
    decreases n
  {
    if file == [] {
    } else if n !in file {
      var first := file[0];
      assert first in file;
      DistinctInRange(file, n - 1);
    } else {
      var k :| 0 <= k < |file| && file[k] == n;
      var rest := file[..k] + file[k + 1..];
      forall x | x in rest
        ensures 1 <= x <= n - 1
      {
        var i :| 0 <= i < |rest| && rest[i] == x;
        var j := if i < k then i else i + 1;
        assert x == file[j] && file[j] in file && file[j] != file[k];
      }
      DistinctInRange(rest, n - 1);
    }
  }

  // ----- the end of a case

  predicate Ended(state: State) {
    state == Closed || state == Withdrawn
  }

  /** A closed or withdrawn case takes no event, whoever writes it. */
  lemma EndedTakesNothing(s: Standing, seqNo: U64, author: Author, record: Record, data: string, write: bool)
    requires Ended(s.state)
    ensures Take(s, seqNo, author, record, data, write).Failure?
  {
  }

  lemma EndedStep(codec: Codec, p: Progress, row: Row)
    requires p.case_.Some? && Ended(p.case_.value.state)
    ensures Step(codec, p.case_, row).Failure?
  {
  }

  /** However many rows follow, a case that has ended stays as it ended, and
      every one of them is a problem. */
  lemma EndedForGood(codec: Codec, rows: seq<Row>, more: seq<Row>)
    requires Fold(codec, rows).Success? && Ended(Fold(codec, rows).value.now.state)
    ensures
      var c, c' := Fold(codec, rows).value, Fold(codec, rows + more);
      && c'.Success? && c'.value.now == c.now
      && |c'.value.problems| == |c.problems| + |more| && c.problems <= c'.value.problems
  {
    hide Replay, LastSeq;
    EndedReplay(codec, rows, more);
  }

  lemma EndedReplayStep(codec: Codec, rows: seq<Row>, row: Row)
    requires Replay(codec, rows).case_.Some? && Ended(Replay(codec, rows).case_.value.state)
    ensures
      var p, p' := Replay(codec, rows), Replay(codec, rows + [row]);
      p'.case_ == p.case_ && |p'.problems| == |p.problems| + 1 && p.problems <= p'.problems
  {
    hide Step, Replay, LastSeq;
    EndedStep(codec, Replay(codec, rows), row);
    FoldSnoc(codec, rows, row);
  }

  lemma {:induction false} EndedReplay(codec: Codec, rows: seq<Row>, more: seq<Row>)
    requires Replay(codec, rows).case_.Some? && Ended(Replay(codec, rows).case_.value.state)
    ensures
      var p, p' := Replay(codec, rows), Replay(codec, rows + more);
      p'.case_ == p.case_ && |p'.problems| == |p.problems| + |more| && p.problems <= p'.problems
    decreases |more|
  {
    if more == [] {
      assert rows + more == rows;
    } else {
      var init, row := more[..|more| - 1], more[|more| - 1];
      assert rows + more == rows + init + [row];
      hide *;
      EndedReplay(codec, rows, init);
      EndedReplayStep(codec, rows + init, row);
    }
  }
}
