/** The writer and the replay agree, over one append and over whole runs; and
    rows the fold skips leave nothing behind but a problem. */
module WriterLaws {
  import opened Wrappers
  import opened Names
  import opened Times
  import opened Records
  import opened Rules
  import opened Cases
  import opened Words

  lemma FoldSnoc(codec: Codec, rows: seq<Row>, row: Row)
    ensures Replay(codec, rows + [row]) ==
            var before := Replay(codec, rows);
            match Step(codec, before.case_, row)
            case Success(s) => Progress(Some(s), before.problems)
            case Failure(error) => Progress(before.case_, before.problems + [ProblemOf(row, error)])
    ensures LastSeq(rows + [row]) == Max(LastSeq(rows), row.seqNo)
  {
    assert (rows + [row])[..|rows|] == rows;
  }

  /** A stamped record is one that can be stored: its author may write it,
      its actor fits, it has a time, and JSON can give it. */
  lemma StampedFacts(codec: Codec, append: Append, now: Time, actor: Option<Actor>)
    requires codec.Faithful()
    requires Stamp(codec, append, now, actor).Success?
    ensures
      var (author, record) := Stamp(codec, append, now, actor).value;
      Readable(record) && record.Event().WrittenBy(author) && ActorFits(record.Actor()) && record.At().Some?
  {
    hide Read, Readable, ActorFits;
    var (_, record) := Read(codec, append.author, append.event, append.data).value;
    ReadFacts(codec, append.author, append.event, append.data);
    if actor.Some? {
      SignedIsReadable(record, actor);
    }
    TimedIsReadable(if actor.Some? then record.WithActor(actor) else record, Some(now));
  }

  lemma ReadFacts(codec: Codec, author: string, event: string, data: string)
    requires codec.Faithful() && Read(codec, author, event, data).Success?
    ensures
      var (a, record) := Read(codec, author, event, data).value;
      Readable(record) && record.Event().WrittenBy(a) && ActorFits(record.Actor())
  {
    hide ActorFits, Readable;
  }

  lemma SignedIsReadable(record: Record, actor: Option<Actor>)
    requires Readable(record)
    ensures Readable(record.WithActor(actor))
  {
  }

  lemma TimedIsReadable(record: Record, at: Option<Time>)
    requires Readable(record)
    ensures Readable(record.WithAt(at))
  {
  }

  /** The same record, but for who wrote it and when. */
  predicate SameBesides(a: Record, b: Record) {
    match (a, b)
    case (Opening(r), Opening(q)) => q == r.(actor := q.actor, at := q.at)
    case (Amending(r), Amending(q)) => q == r.(actor := q.actor, at := q.at)
    case (Answering(r), Answering(q)) => q == r.(actor := q.actor, at := q.at)
    case (PickingUp(r), PickingUp(q)) => q == r.(actor := q.actor, at := q.at)
    case (Noting(r), Noting(q)) => q == r.(actor := q.actor, at := q.at)
    case (Closing(r), Closing(q)) => q == r.(actor := q.actor, at := q.at)
    case (Withdrawing(r), Withdrawing(q)) => q == r.(actor := q.actor, at := q.at)
    case (Parking(r), Parking(q)) => q == r.(actor := q.actor, at := q.at)
    case (Resuming(r), Resuming(q)) => q == r.(actor := q.actor, at := q.at)
    case _ => false
  }

  /** What is stamped is what was read, with the actor given in place of any of
      its own and, only if it has no time of its own, the time now; an append
      that does not read is refused as it is without an actor, and an actor that
      cannot be one is invalid. */
  lemma StampExactly(codec: Codec, append: Append, now: Time, actor: Option<Actor>)
    ensures
      var read := Read(codec, append.author, append.event, append.data);
      var stamped := Stamp(codec, append, now, actor);
      && (read.Failure? ==> stamped == Failure(read.error))
      && (read.Success? && !ActorFits(actor) ==> stamped == Failure(Invalid))
      && (read.Success? && ActorFits(actor) ==>
            && stamped.Success? && stamped.value.0 == read.value.0
            && SameBesides(read.value.1, stamped.value.1)
            && stamped.value.1.Actor() == (if actor.Some? then actor else read.value.1.Actor())
            && stamped.value.1.At() == (if read.value.1.At().Some? then read.value.1.At() else Some(now)))
  {
    hide Read, ActorFits;
    var read := Read(codec, append.author, append.event, append.data);
    if read.Success? {
      SignedIsSame(read.value.1, actor);
      TimedIsSame(read.value.1, Some(now));
      if actor.Some? {
        TimedIsSame(read.value.1.WithActor(actor), Some(now));
      }
    }
  }

  lemma SignedIsSame(record: Record, actor: Option<Actor>)
    ensures SameBesides(record, record.WithActor(actor)) && SameBesides(record, record)
  {
  }

  lemma TimedIsSame(record: Record, at: Option<Time>)
    ensures SameBesides(record, record.WithAt(at))
    ensures forall r: Record :: SameBesides(r, record) ==> SameBesides(r, record.WithAt(at))
  {
  }

  /** The row the writer stores reads back as the author and the record it
      was made from. */
  lemma RowReadsBack(codec: Codec, seqNo: U64, author: Author, record: Record)
    requires codec.Faithful()
    requires Readable(record) && record.Event().WrittenBy(author) && ActorFits(record.Actor())
    ensures
      var row := NewRow(codec, seqNo, author, record);
      Read(codec, row.author, row.event, row.data) == Success((author, record))
  {
    NamesReadBack(author, record.Event());
  }

  /** What a write takes, a replay takes to the same case. */
  lemma WriteIsStricter(s: Standing, seqNo: U64, author: Author, record: Record, data: string)
    ensures Take(s, seqNo, author, record, data, true).Success? ==>
              Take(s, seqNo, author, record, data, false) == Take(s, seqNo, author, record, data, true)
    ensures Start(seqNo, author, record, data, true).Success? ==>
              Start(seqNo, author, record, data, false) == Start(seqNo, author, record, data, true)
  {
  }

  /** An opened case is the fold of the row the writer gives. */
  lemma OpenIsFold(codec: Codec, append: Append, now: Time, actor: Option<Actor>)
    requires codec.Faithful()
    requires OpenCase(codec, append, now, actor).Success?
    ensures
      var (c, row) := OpenCase(codec, append, now, actor).value;
      Fold(codec, [row]) == Success(c) && c.problems == [] && row.seqNo == 1
  {
    var (c, row) := OpenCase(codec, append, now, actor).value;
    StampedFacts(codec, append, now, actor);
    var (author, record) := Stamp(codec, append, now, actor).value;
    RowReadsBack(codec, 1, author, record);
    WriteIsStricter(c.now, 1, author, record, row.data);
    FoldSnoc(codec, [], row);
    assert [] + [row] == [row];
  }

  /** A record stored is the fold with its row added. */
  lemma StoreIsFold(codec: Codec, rows: seq<Row>, author: Author, record: Record)
    requires codec.Faithful()
    requires Readable(record) && record.Event().WrittenBy(author) && ActorFits(record.Actor())
    requires Fold(codec, rows).Success?
    requires Store(codec, Fold(codec, rows).value, author, record).Success?
    ensures
      var c := Fold(codec, rows).value;
      var (c', row) := Store(codec, c, author, record).value;
      Fold(codec, rows + [row]) == Success(c') && c'.problems == c.problems && row.seqNo == c.lastSeq + 1
  {
    hide Take, Start, Read, Replay, LastSeq;
    var c := Fold(codec, rows).value;
    var (c', row) := Store(codec, c, author, record).value;
    RowReadsBack(codec, row.seqNo, author, record);
    WriteIsStricter(c.now, row.seqNo, author, record, row.data);
    assert Step(codec, Some(c.now), row) == Success(c'.now);
    FoldSnoc(codec, rows, row);
  }

  /** From any folded case, skipped rows included, an accepted append is the
      fold with the new row added: every field, the same problems, and a row
      numbered one above every row before it. */
  lemma AppendIsFold(
    codec: Codec, rows: seq<Row>, append: Append, now: Time, actor: Option<Actor>, atRevision: Option<nat>)
    requires codec.Faithful()
    requires Fold(codec, rows).Success?
    requires AppendTo(codec, Fold(codec, rows).value, append, now, actor, atRevision).Success?
    ensures
      var c := Fold(codec, rows).value;
      var (c', row) := AppendTo(codec, c, append, now, actor, atRevision).value;
      && Fold(codec, rows + [row]) == Success(c')
      && c'.problems == c.problems
      && row.seqNo == c.lastSeq + 1
  {
    StampedFacts(codec, append, now, actor);
    var (author, record) := Stamp(codec, append, now, actor).value;
    StoreIsFold(codec, rows, author, record);
  }

  // ----- whole runs of the writer

  datatype Attempt = Attempt(append: Append, now: Time, actor: Option<Actor>, atRevision: Option<nat>)

  /** The case and the rows stored after some attempts, accepted or refused. */
  function Run(codec: Codec, c: Folded, attempts: seq<Attempt>): (Folded, seq<Row>)
    decreases |attempts|
  {
    if attempts == [] then (c, [])
    else
      var (before, rows) := Run(codec, c, attempts[..|attempts| - 1]);
      var a := attempts[|attempts| - 1];
      match AppendTo(codec, before, a.append, a.now, a.actor, a.atRevision)
      case Success((after, row)) => (after, rows + [row])
      case Failure(_) => (before, rows)
  }

  /** After an open and any run of accepted and refused appends, the case kept
      in memory is the fold of the rows stored, with no problems, and the rows
      are numbered from 1 with no gap. */
  lemma {:induction false} RunIsFold(
    codec: Codec, append: Append, now: Time, actor: Option<Actor>, attempts: seq<Attempt>)
    requires codec.Faithful()
    requires OpenCase(codec, append, now, actor).Success?
    ensures
      var (case0, first) := OpenCase(codec, append, now, actor).value;
      var (c, rows) := Run(codec, case0, attempts);
      && Fold(codec, [first] + rows) == Success(c)
      && c.problems == []
      && c.revision == c.lastSeq == 1 + |rows|
      && forall i | 0 <= i < |rows| :: rows[i].seqNo == i + 2
    decreases |attempts|
  {
    var (case0, first) := OpenCase(codec, append, now, actor).value;
    if attempts == [] {
      OpenIsFold(codec, append, now, actor);
      assert [first] + [] == [first];
    } else {
      hide AppendTo, OpenCase, Fold, Codec.Faithful;
      var init := attempts[..|attempts| - 1];
      RunIsFold(codec, append, now, actor, init);
      var (before, rows) := Run(codec, case0, init);
      var a := attempts[|attempts| - 1];
      if AppendTo(codec, before, a.append, a.now, a.actor, a.atRevision).Success? {
        AppendIsFold(codec, [first] + rows, a.append, a.now, a.actor, a.atRevision);
        var (_, row) := AppendTo(codec, before, a.append, a.now, a.actor, a.atRevision).value;
        assert [first] + rows + [row] == [first] + (rows + [row]);
      }
    }
  }

  // ----- skipped rows

  /** Whether the row after `before` is taken. */
  predicate Takes(codec: Codec, before: seq<Row>, row: Row) {
    Step(codec, Replay(codec, before).case_, row).Success?
  }

  /** The rows the fold took, or those it skipped. */
  function Sifted(codec: Codec, rows: seq<Row>, taken: bool): seq<Row>
    decreases |rows|
  {
    if rows == [] then []
    else
      var init, last := rows[..|rows| - 1], rows[|rows| - 1];
      Sifted(codec, init, taken) + if Takes(codec, init, last) == taken then [last] else []
  }

  /** Skipped rows are inert: the rows taken, alone, fold to the same case
      with no problems. */
  lemma {:induction false} SkippedRowsAreInert(codec: Codec, rows: seq<Row>)
    ensures Replay(codec, Sifted(codec, rows, true)) == Progress(Replay(codec, rows).case_, [])
    decreases |rows|
  {
    if rows == [] {
    } else {
      var init, last := rows[..|rows| - 1], rows[|rows| - 1];
      SkippedRowsAreInert(codec, init);
      if Takes(codec, init, last) {
        FoldSnoc(codec, Sifted(codec, init, true), last);
      } else {
        assert Sifted(codec, rows, true) == Sifted(codec, init, true);
      }
    }
  }

  /** The event is the row, as it was stored and as it reads. */
  predicate IsEventOf(codec: Codec, e: Event, row: Row) {
    && e.seqNo == row.seqNo && e.data == row.data
    && Read(codec, row.author, row.event, row.data) == Success((e.author, e.record))
  }

  function EventsOf(p: Progress): seq<Event> {
    if p.case_.None? then [] else p.case_.value.events
  }

  /** One row more is one event more, that row, or one problem more, that
      row with the error it was refused with. */
  lemma OneRowMore(codec: Codec, rows: seq<Row>, row: Row)
    ensures
      var p, p' := Replay(codec, rows), Replay(codec, rows + [row]);
      if Takes(codec, rows, row) then
        && p'.problems == p.problems && EventsOf(p') != []
        && EventsOf(p')[..|EventsOf(p')| - 1] == EventsOf(p)
        && IsEventOf(codec, EventsOf(p')[|EventsOf(p')| - 1], row)
      else
        && p'.case_ == p.case_
        && p'.problems == p.problems + [ProblemOf(row, Step(codec, p.case_, row).error)]
  {
    hide Step, Read, Replay;
    FoldSnoc(codec, rows, row);
    if Takes(codec, rows, row) {
      StepAddsEvent(codec, Replay(codec, rows).case_, row);
    }
  }

  lemma ApplyKeepsEvents(s: Standing, seqNo: U64, author: Author, record: Record, write: bool)
    requires Apply(s, seqNo, author, record, write).Success?
    ensures Apply(s, seqNo, author, record, write).value.events == s.events
  {
  }

  lemma StepAddsEvent(codec: Codec, before: Option<Standing>, row: Row)
    requires Step(codec, before, row).Success?
    ensures
      var events := Step(codec, before, row).value.events;
      && events != [] && IsEventOf(codec, events[|events| - 1], row)
      && events[|events| - 1].from == (if before.None? then None else Some(before.value.state))
      && events[..|events| - 1] == if before.None? then [] else before.value.events
  {
    hide Read, Apply, CheckOpen, Latest;
    var (author, record) := Read(codec, row.author, row.event, row.data).value;
    if before.Some? {
      ApplyKeepsEvents(before.value, row.seqNo, author, record, false);
    }
  }

  /** The events are the rows taken, in order, and the problems are the rows
      skipped. */
  ghost predicate Accounted(codec: Codec, p: Progress, kept: seq<Row>, skipped: seq<Row>) {
    && |EventsOf(p)| == |kept| && (forall i | 0 <= i < |kept| :: IsEventOf(codec, EventsOf(p)[i], kept[i]))
    && |p.problems| == |skipped|
    && (forall i | 0 <= i < |skipped| :: p.problems[i] == ProblemOf(skipped[i], p.problems[i].error))
  }

  lemma AccountedGrows(codec: Codec, p: Progress, p': Progress, kept: seq<Row>, skipped: seq<Row>, row: Row)
    requires Accounted(codec, p, kept, skipped)
    ensures EventsOf(p') != [] && EventsOf(p')[..|EventsOf(p')| - 1] == EventsOf(p)
            && IsEventOf(codec, EventsOf(p')[|EventsOf(p')| - 1], row) && p'.problems == p.problems ==>
              Accounted(codec, p', kept + [row], skipped)
    ensures p'.case_ == p.case_ && (exists error :: p'.problems == p.problems + [ProblemOf(row, error)]) ==>
              Accounted(codec, p', kept, skipped + [row])
  {
    hide IsEventOf;
    var events, events' := EventsOf(p), EventsOf(p');
    assert forall i | 0 <= i < |events| ::
        events' != [] && events'[..|events'| - 1] == events ==> events'[i] == events[i];
  }

  /** Every row is accounted for, in order: the events are the rows taken,
      the problems the rows skipped, and together they are the revision. */
  lemma {:induction false} EveryRowIsAccountedFor(codec: Codec, rows: seq<Row>)
    ensures Accounted(codec, Replay(codec, rows), Sifted(codec, rows, true), Sifted(codec, rows, false))
    ensures |EventsOf(Replay(codec, rows))| + |Replay(codec, rows).problems| == |rows|
    decreases |rows|
  {
    if rows != [] {
      var init, last := rows[..|rows| - 1], rows[|rows| - 1];
      var kept, skipped := Sifted(codec, init, true), Sifted(codec, init, false);
      assert rows == init + [last];
      hide *;
      EveryRowIsAccountedFor(codec, init);
      OneRowMore(codec, init, last);
      AccountedGrows(codec, Replay(codec, init), Replay(codec, rows), kept, skipped, last);
      SiftedGrows(codec, init, last);
    } else {
      assert Replay(codec, []) == Progress(None, []);
    }
  }

  lemma SiftedGrows(codec: Codec, rows: seq<Row>, row: Row)
    ensures Sifted(codec, rows + [row], Takes(codec, rows, row)) == Sifted(codec, rows, Takes(codec, rows, row)) + [row]
    ensures Sifted(codec, rows + [row], !Takes(codec, rows, row)) == Sifted(codec, rows, !Takes(codec, rows, row))
  {
    hide Takes;
    assert (rows + [row])[..|rows|] == rows;
  }

  /** A problem is the row at place `n`, with what that row is refused with by
      the case the rows before it make. */
  predicate IsProblemOf(codec: Codec, rows: seq<Row>, n: nat, problem: Problem)
    requires n < |rows|
  {
    && problem.seqNo == rows[n].seqNo && problem.author == rows[n].author && problem.event == rows[n].event
    && Step(codec, Replay(codec, rows[..n]).case_, rows[n]) == Failure(problem.error)
  }

  /** The problems are the rows skipped, in order, and no other: each says its
      row's number, author and event as stored, and why it was refused. */
  lemma {:induction false} ProblemsSayWhy(codec: Codec, rows: seq<Row>) returns (at: seq<nat>)
    ensures
      var problems := Replay(codec, rows).problems;
      && |at| == |problems|
      && (forall i | 0 <= i < |at| :: at[i] < |rows| && IsProblemOf(codec, rows, at[i], problems[i]))
      && (forall i, j | 0 <= i < j < |at| :: at[i] < at[j])
      && forall n | 0 <= n < |rows| :: !Takes(codec, rows[..n], rows[n]) ==> n in at
    decreases |rows|
  {
    hide Step, Replay;
    if rows == [] {
      at := [];
      NoRows(codec);
    } else {
      var init, last := rows[..|rows| - 1], rows[|rows| - 1];
      assert rows == init + [last];
      at := ProblemsSayWhy(codec, init);
      assert forall n | 0 <= n < |init| :: rows[..n] == init[..n] && rows[n] == init[n];
      assert rows[..|init|] == init;
      OneRowMore(codec, init, last);
      if !Takes(codec, init, last) {
        at := at + [|init|];
      }
    }
  }

  lemma NoRows(codec: Codec)
    ensures Replay(codec, []) == Progress(None, [])
  {
  }

  /** The last seq is the highest of any row's, taken or not, and 0 when there
      is none. */
  lemma {:induction false} LastSeqIsHighest(rows: seq<Row>)
    ensures forall row <- rows :: row.seqNo <= LastSeq(rows)
    ensures LastSeq(rows) == 0 || exists row <- rows :: row.seqNo == LastSeq(rows)
    decreases |rows|
  {
    if rows == [] {
    } else {
      var init, last := rows[..|rows| - 1], rows[|rows| - 1];
      LastSeqIsHighest(init);
      assert forall row <- rows :: row in init || row == last;
      assert last in rows;
      if LastSeq(rows) != last.seqNo && LastSeq(rows) != 0 {
        var row :| row in init && row.seqNo == LastSeq(init);
        assert row in rows;
      }
    }
  }
}
