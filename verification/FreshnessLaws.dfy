/** What the answers of `since` mean, over any extension of a case's rows: the
    two numbers a form keeps decide it exactly. */
module FreshnessLaws {
  import opened Wrappers
  import opened Names
  import opened Times
  import opened Records
  import opened Rules
  import opened Cases
  import opened Words
  import opened WriterLaws
  import opened CaseLaws
  import opened Freshness

  /** A form drawn from the case the first `n` rows fold to. */
  ghost predicate Drawn(codec: Codec, rows: seq<Row>, n: nat) {
    codec.Faithful() && RisingRows(rows) && n <= |rows| && Replay(codec, rows[..n]).case_.Some?
  }

  /** The state the first `k` rows leave the case in. */
  function StateAt(codec: Codec, rows: seq<Row>, k: nat): Option<State>
    requires k <= |rows|
  {
    var s := Replay(codec, rows[..k]).case_;
    if s.None? then None else Some(s.value.state)
  }

  /** The states from the form's on, row by row. */
  function StatesSince(codec: Codec, rows: seq<Row>, n: nat): seq<Option<State>>
    requires n <= |rows|
  {
    seq(|rows| - n + 1, i requires 0 <= i <= |rows| - n => StateAt(codec, rows, n + i))
  }

  /** Every row added since the form was drawn was taken. */
  predicate AllTaken(codec: Codec, rows: seq<Row>, n: nat)
    requires n <= |rows|
  {
    Replay(codec, rows).problems == Replay(codec, rows[..n]).problems
  }

  /** The question was not amended since, or the case is the human's own. */
  predicate QuestionHeld(codec: Codec, rows: seq<Row>, n: nat)
    requires n <= |rows| && Replay(codec, rows[..n]).case_.Some? && Replay(codec, rows).case_.Some?
  {
    var then_, now := Replay(codec, rows[..n]).case_.value, Replay(codec, rows).case_.value;
    now.kind.Opener() == Human || now.amendSeq == then_.amendSeq
  }

  predicate StateHeld(codec: Codec, rows: seq<Row>, n: nat)
    requires n <= |rows|
  {
    forall k | n <= k <= |rows| :: StateAt(codec, rows, k) == StateAt(codec, rows, n)
  }

  /** The parts of a question an answer is checked against. */
  predicate SameQuestion(a: OpenRecord, b: OpenRecord) {
    a.options == b.options && a.rows == b.rows && a.body == b.body && a.leftOut == b.leftOut
  }

  // ----- one row more

  /** What one event leaves as it was: the kind, and the question unless it
      moves `amend_seq` to its own number. */
  lemma TakeKeepsQuestion(s: Standing, seqNo: U64, author: Author, record: Record, data: string)
    requires Take(s, seqNo, author, record, data, false).Success?
    ensures
      var t := Take(s, seqNo, author, record, data, false).value;
      && t.kind == s.kind
      && (t.amendSeq == seqNo || (t.amendSeq == s.amendSeq && SameQuestion(t.question, s.question)))
  {
  }

  /** How a later progress grows from an earlier one. */
  ghost predicate GrewFrom(p: Progress, p': Progress, last: nat) {
    && p.case_.Some? && p'.case_.Some?
    && p'.case_.value.kind == p.case_.value.kind
    && p.problems <= p'.problems
    && p.case_.value.events <= p'.case_.value.events
    && (forall i | |p.case_.value.events| <= i < |p'.case_.value.events| :: p'.case_.value.events[i].seqNo > last)
    && (p'.case_.value.amendSeq > last
        || (p'.case_.value.amendSeq == p.case_.value.amendSeq
            && SameQuestion(p'.case_.value.question, p.case_.value.question)))
  }

  lemma GrowsByRow(codec: Codec, p: Progress, rows: seq<Row>, row: Row, last: nat)
    requires GrewFrom(p, Replay(codec, rows), last) && row.seqNo > last
    ensures GrewFrom(p, Replay(codec, rows + [row]), last)
  {
    hide Take;
    OneRowMore(codec, rows, row);
    FoldSnoc(codec, rows, row);
    var now := Replay(codec, rows);
    if Takes(codec, rows, row) {
      var (author, record) := Read(codec, row.author, row.event, row.data).value;
      TakeKeepsQuestion(now.case_.value, row.seqNo, author, record, row.data);
      var next := Replay(codec, rows + [row]);
      var events, grown := EventsOf(now), EventsOf(next);
      assert grown == events + [grown[|grown| - 1]];
    }
  }

  lemma NothingIsNoCase(codec: Codec)
    ensures Replay(codec, []) == Progress(None, [])
  {
  }

  lemma {:induction false} Grows(codec: Codec, rows: seq<Row>, n: nat, k: nat)
    requires RisingRows(rows) && n <= k <= |rows| && Replay(codec, rows[..n]).case_.Some?
    ensures GrewFrom(Replay(codec, rows[..n]), Replay(codec, rows[..k]), LastSeq(rows[..n]))
    decreases k
  {
    hide GrewFrom, Replay, LastSeq;
    NothingIsNoCase(codec);
    assert rows[..0] == [];
    var last := LastSeq(rows[..n]);
    if k > n {
      Grows(codec, rows, n, k - 1);
      var init, row := rows[..k - 1], rows[k - 1];
      assert row.seqNo > last by {
        LastSeqIsLast(rows[..n]);
        assert rows[n - 1].seqNo < rows[k - 1].seqNo;
      }
      GrowsByRow(codec, Replay(codec, rows[..n]), init, row, last);
      assert rows[..k] == init + [row];
    } else {
      GrewFromSelf(Replay(codec, rows[..n]), last);
    }
  }

  lemma GrewFromSelf(p: Progress, last: nat)
    requires p.case_.Some?
    ensures GrewFrom(p, p, last)
  {
  }

  lemma {:induction false} LastSeqIsLast(rows: seq<Row>)
    requires RisingRows(rows) && rows != []
    ensures LastSeq(rows) == rows[|rows| - 1].seqNo
    decreases |rows|
  {
    if |rows| == 1 {
    } else {
      LastSeqIsLast(rows[..|rows| - 1]);
    }
  }

  /** The events rise, and neither they nor `amend_seq` pass `last`. */
  ghost predicate Numbered(p: Progress, last: nat) {
    && Rising(EventsOf(p))
    && (forall i | 0 <= i < |EventsOf(p)| :: EventsOf(p)[i].seqNo <= last)
    && (p.case_.Some? ==> p.case_.value.amendSeq <= last)
  }

  lemma NumberedByRow(codec: Codec, rows: seq<Row>, row: Row, last: nat)
    requires Numbered(Replay(codec, rows), last)
    requires row.seqNo > last || rows == []
    ensures Numbered(Replay(codec, rows + [row]), row.seqNo)
  {
    hide Step, IsEventOf, Replay, Rising;
    NothingIsNoCase(codec);
    OneRowMore(codec, rows, row);
    var p, p' := Replay(codec, rows), Replay(codec, rows + [row]);
    if Takes(codec, rows, row) {
      NumberOfRow(codec, rows, row);
      RisingSnoc(EventsOf(p), EventsOf(p'), last);
    } else if rows == [] {
      NothingRises();
    } else {
      assert EventsOf(p') == EventsOf(p);
    }
  }

  lemma NothingRises()
    ensures Rising([])
  {
  }

  lemma RisingSnoc(events: seq<Event>, grown: seq<Event>, last: nat)
    requires Rising(events) && forall i | 0 <= i < |events| :: events[i].seqNo <= last
    requires grown != [] && grown[..|grown| - 1] == events
    requires events == [] || grown[|grown| - 1].seqNo > last
    ensures Rising(grown) && forall i | 0 <= i < |grown| :: grown[i].seqNo <= grown[|grown| - 1].seqNo
  {
    assert forall i | 0 <= i < |events| :: grown[i] == events[i];
  }

  lemma {:induction false} NumbersRise(codec: Codec, rows: seq<Row>)
    requires RisingRows(rows)
    ensures Numbered(Replay(codec, rows), LastSeq(rows))
    decreases |rows|
  {
    if rows == [] {
    } else {
      hide Numbered, Replay;
      var init, row := rows[..|rows| - 1], rows[|rows| - 1];
      NumbersRise(codec, init);
      assert rows == init + [row];
      LastSeqIsLast(rows);
      if init != [] {
        LastSeqIsLast(init);
      }
      NumberedByRow(codec, init, row, LastSeq(init));
    }
  }

  /** So over rows with rising seqs `since` may always be asked. */
  lemma SearchIsSound(codec: Codec, rows: seq<Row>, seqNo: nat)
    requires RisingRows(rows)
    ensures Partitioned(EventsOf(Replay(codec, rows)), seqNo)
  {
    hide Replay;
    NumbersRise(codec, rows);
  }

  lemma NumberOfRow(codec: Codec, rows: seq<Row>, row: Row)
    requires Takes(codec, rows, row)
    ensures
      var p, p' := Replay(codec, rows), Replay(codec, rows + [row]);
      && p'.case_.Some? && EventsOf(p') != [] && EventsOf(p')[|EventsOf(p')| - 1].seqNo == row.seqNo
      && (p'.case_.value.amendSeq == row.seqNo
          || p'.case_.value.amendSeq == if p.case_.None? then 0 else p.case_.value.amendSeq)
  {
    hide Take, CheckOpen;
    OneRowMore(codec, rows, row);
    FoldSnoc(codec, rows, row);
    var p := Replay(codec, rows);
    if p.case_.Some? {
      var (author, record) := Read(codec, row.author, row.event, row.data).value;
      TakeKeepsQuestion(p.case_.value, row.seqNo, author, record, row.data);
    }
  }

  // ----- the events added since the form

  /** The events the case now has, from the one after the form's last. */
  function AddedEvents(codec: Codec, rows: seq<Row>, n: nat): seq<Event>
    requires n <= |rows|
  {
    var events := EventsOf(Replay(codec, rows));
    if |EventsOf(Replay(codec, rows[..n]))| <= |events| then events[|EventsOf(Replay(codec, rows[..n]))|..] else []
  }

  lemma PartitionPointIs(events: seq<Event>, seqNo: nat, n: nat)
    requires n <= |events|
    requires forall i | 0 <= i < n :: events[i].seqNo <= seqNo
    requires n < |events| ==> events[n].seqNo > seqNo
    ensures PartitionPoint(events, seqNo) == n
  {
  }

  /** The numbers a form keeps pick out exactly the events added since, and
      their count tells whether every row since was taken. */
  lemma FormPicksAdded(codec: Codec, rows: seq<Row>, n: nat)
    requires Drawn(codec, rows, n)
    ensures
      var then_, now := Replay(codec, rows[..n]), Replay(codec, rows);
      var last := LastSeq(rows[..n]);
      && now.case_.Some?
      && now.case_.value.kind == then_.case_.value.kind
      && EventsOf(now)[PartitionPoint(EventsOf(now), last)..] == AddedEvents(codec, rows, n)
      && (|AddedEvents(codec, rows, n)| == |rows| - n <==> AllTaken(codec, rows, n))
      && (now.case_.value.amendSeq > last <==> now.case_.value.amendSeq != then_.case_.value.amendSeq)
      && (now.case_.value.amendSeq <= last ==> SameQuestion(now.case_.value.question, then_.case_.value.question))
  {
    hide Replay, LastSeq;
    var then_, now := Replay(codec, rows[..n]), Replay(codec, rows);
    var last := LastSeq(rows[..n]);
    assert rows[..|rows|] == rows;
    Grows(codec, rows, n, |rows|);
    NumbersRise(codec, rows[..n]);
    EveryRowIsAccountedFor(codec, rows);
    EveryRowIsAccountedFor(codec, rows[..n]);
    assert forall i | 0 <= i < |EventsOf(then_)| :: EventsOf(now)[i] == EventsOf(then_)[i];
    PartitionPointIs(EventsOf(now), last, |EventsOf(then_)|);
  }

  /** Between the form and now, every row was taken when none is a problem. */
  lemma EachTaken(codec: Codec, rows: seq<Row>, n: nat, k: nat)
    requires Drawn(codec, rows, n) && AllTaken(codec, rows, n) && n <= k < |rows|
    ensures Takes(codec, rows[..k], rows[k])
    ensures Replay(codec, rows[..k]).case_.Some?
    ensures |EventsOf(Replay(codec, rows[..k]))| == |EventsOf(Replay(codec, rows[..n]))| + k - n
  {
    hide Replay, LastSeq, Step, IsEventOf;
    assert rows[..|rows|] == rows;
    Grows(codec, rows, n, k);
    Grows(codec, rows, n, k + 1);
    assert rows[..k][..n] == rows[..n] && rows[..k + 1][..n] == rows[..n];
    Grows(codec, rows, k + 1, |rows|);
    EveryRowIsAccountedFor(codec, rows[..n]);
    EveryRowIsAccountedFor(codec, rows[..k]);
    assert rows[..k + 1] == rows[..k] + [rows[k]];
    OneRowMore(codec, rows[..k], rows[k]);
  }

  /** Then the added events' states before them are the states row by row. */
  lemma FromIsState(codec: Codec, rows: seq<Row>, n: nat, k: nat)
    requires Drawn(codec, rows, n) && AllTaken(codec, rows, n) && n <= k < |rows|
    ensures |AddedEvents(codec, rows, n)| == |rows| - n
    ensures AddedEvents(codec, rows, n)[k - n].from == StateAt(codec, rows, k)
    ensures StateAt(codec, rows, k).Some?
  {
    hide Replay, LastSeq, Step, IsEventOf, Take, AllTaken, Takes;
    AddedCount(codec, rows, n);
    EachTaken(codec, rows, n, k);
    assert rows[..|rows|] == rows;
    Grows(codec, rows, n, k + 1);
    Grows(codec, rows, k + 1, |rows|);
    assert rows[..k + 1] == rows[..k] + [rows[k]];
    NextEventFrom(codec, rows[..k], rows[k]);
    Grows(codec, rows, n, |rows|);
  }

  lemma NextEventFrom(codec: Codec, rows: seq<Row>, row: Row)
    requires Takes(codec, rows, row) && Replay(codec, rows).case_.Some?
    ensures
      var events, next := EventsOf(Replay(codec, rows)), EventsOf(Replay(codec, rows + [row]));
      |next| == |events| + 1 && next[|events|].from == Some(Replay(codec, rows).case_.value.state)
  {
    hide Step, Replay, IsEventOf;
    FoldSnoc(codec, rows, row);
    StepAddsEvent(codec, Replay(codec, rows).case_, row);
  }

  lemma AddedCount(codec: Codec, rows: seq<Row>, n: nat)
    requires Drawn(codec, rows, n) && AllTaken(codec, rows, n)
    ensures n <= |rows| && |AddedEvents(codec, rows, n)| == |rows| - n
  {
    FormPicksAdded(codec, rows, n);
  }

  /** The path `since` walks is the states row by row. */
  lemma PathIsStates(codec: Codec, rows: seq<Row>, n: nat, state: State)
    requires Drawn(codec, rows, n) && AllTaken(codec, rows, n) && StateAt(codec, rows, |rows|) == Some(state)
    ensures Path(AddedEvents(codec, rows, n), state) == StatesSince(codec, rows, n)
    ensures |AddedEvents(codec, rows, n)| == |rows| - n && AllKnown(StatesSince(codec, rows, n))
  {
    hide Replay, StateAt, AllTaken, Drawn, AddedEvents;
    AddedCount(codec, rows, n);
    var path, states := Path(AddedEvents(codec, rows, n), state), StatesSince(codec, rows, n);
    forall i | 0 <= i < |rows| - n
      ensures path[i] == states[i] && states[i].Some?
    {
      FromIsState(codec, rows, n, n + i);
    }
    assert path[|rows| - n] == states[|rows| - n];
  }

  /** The state is held row by row exactly when notes and amends taken in it
      are all that was added. */
  lemma HeldByNoteOrAmend(codec: Codec, rows: seq<Row>, n: nat, state: State)
    requires Drawn(codec, rows, n) && AllTaken(codec, rows, n) && StateAt(codec, rows, |rows|) == Some(state)
    ensures (forall e <- AddedEvents(codec, rows, n) :: Keeps(e, state)) <==> StateHeld(codec, rows, n)
  {
    hide Replay, StateAt, AllTaken, Drawn, AddedEvents, Keeps, Sound;
    PathIsStates(codec, rows, n, state);
    var added, states := AddedEvents(codec, rows, n), StatesSince(codec, rows, n);
    var path := Path(added, state);
    assert forall i | 0 <= i <= |rows| - n :: states[i] == StateAt(codec, rows, n + i) == path[i];
    if forall e <- added :: Keeps(e, state) {
      forall i | 0 <= i < |rows| - n
        ensures states[i] == Some(state)
      {
        assert added[i] in added;
        assert Keeps(added[i], state);
        KeepsFrom(added[i], state);
      }
      forall k | n <= k <= |rows|
        ensures StateAt(codec, rows, k) == StateAt(codec, rows, n)
      {
        assert StateAt(codec, rows, k) == states[k - n] && states[0] == StateAt(codec, rows, n);
      }
    }
    if StateHeld(codec, rows, n) {
      var s := AddedEndsSound(codec, rows, n, state);
      forall i | 0 <= i < |added|
        ensures Keeps(added[i], state)
      {
        assert path[i] == path[i + 1] == Some(state);
        MovesNowhere(s, |s.events| - |added| + i);
      }
    }
  }

  lemma KeepsFrom(e: Event, state: State)
    requires Keeps(e, state)
    ensures e.from == Some(state)
  {
  }

  /** The events added end the events of a sound case. */
  lemma AddedEndsSound(codec: Codec, rows: seq<Row>, n: nat, state: State) returns (s: Standing)
    requires Drawn(codec, rows, n) && StateAt(codec, rows, |rows|) == Some(state)
    ensures Sound(s) && s.state == state && |AddedEvents(codec, rows, n)| <= |s.events|
    ensures s.events[|s.events| - |AddedEvents(codec, rows, n)|..] == AddedEvents(codec, rows, n)
  {
    hide Sound;
    ReplayIsSound(codec, rows);
    assert rows[..|rows|] == rows;
    s := Replay(codec, rows).case_.value;
  }

  /** An event that leaves the state as it was is a note or an amend. */
  lemma MovesNowhere(s: Standing, i: nat)
    requires Sound(s) && i < |s.events|
    requires s.events[i].from.Some? && StateAfter(s.events, s.state, i) == s.events[i].from
    ensures Keeps(s.events[i], s.events[i].from.value)
  {
    hide SlotsFit, OpenFits, AnswerStands, IsLatest;
  }

  // ----- the answers of `since`

  /** `since` answers unchanged exactly when every row added was taken, the
      case was in the same state all along, and the question stands as the
      form showed it (or the case is a message, the human's own). */
  lemma UnchangedExactly(codec: Codec, rows: seq<Row>, n: nat)
    requires Drawn(codec, rows, n)
    ensures Fold(codec, rows[..n]).Success? && Fold(codec, rows).Success?
    ensures
      var c, c' := Fold(codec, rows[..n]).value, Fold(codec, rows).value;
      SinceOf(c', c.revision, c.lastSeq) == Unchanged <==>
      AllTaken(codec, rows, n) && QuestionHeld(codec, rows, n) && StateHeld(codec, rows, n)
  {
    hide Replay, LastSeq, AllTaken, StateHeld, Keeps, SameQuestion, PartitionPoint, AddedEvents;
    hide AllKnown, NoReturn, Path;
    FormPicksAdded(codec, rows, n);
    assert rows[..|rows|] == rows;
    if n == |rows| {
      NothingAdded(codec, rows);
    } else if AllTaken(codec, rows, n) {
      HeldByNoteOrAmend(codec, rows, n, Replay(codec, rows).case_.value.state);
    }
  }

  lemma NothingAdded(codec: Codec, rows: seq<Row>)
    requires Drawn(codec, rows, |rows|) && Replay(codec, rows).case_.Some?
    ensures AllTaken(codec, rows, |rows|) && QuestionHeld(codec, rows, |rows|) && StateHeld(codec, rows, |rows|)
  {
    hide Replay;
    assert rows[..|rows|] == rows;
  }

  /** `since` answers moved exactly when every row added was taken, the
      question stands, each state was visited in one unbroken stretch, and the
      state now is not the one the form was drawn in. */
  lemma MovedExactly(codec: Codec, rows: seq<Row>, n: nat)
    requires Drawn(codec, rows, n)
    ensures Fold(codec, rows[..n]).Success? && Fold(codec, rows).Success?
    ensures
      var c, c' := Fold(codec, rows[..n]).value, Fold(codec, rows).value;
      SinceOf(c', c.revision, c.lastSeq) == Moved <==>
      && AllTaken(codec, rows, n) && QuestionHeld(codec, rows, n)
      && NoReturn(StatesSince(codec, rows, n))
      && c'.now.state != c.now.state
  {
    hide Replay, LastSeq, AllTaken, StateHeld, Keeps, NoReturn, AllKnown, SameQuestion, PartitionPoint;
    hide AddedEvents, Path;
    FormPicksAdded(codec, rows, n);
    assert rows[..|rows|] == rows;
    if n < |rows| && AllTaken(codec, rows, n) {
      HeldByNoteOrAmend(codec, rows, n, Replay(codec, rows).case_.value.state);
      PathIsStates(codec, rows, n, Replay(codec, rows).case_.value.state);
      ReturningIsHolding(codec, rows, n);
    }
  }

  /** On a path with no return, the ends agree exactly when nothing moved. */
  lemma ReturningIsHolding(codec: Codec, rows: seq<Row>, n: nat)
    requires n <= |rows|
    ensures StateHeld(codec, rows, n) ==> StateAt(codec, rows, n) == StateAt(codec, rows, |rows|)
    ensures NoReturn(StatesSince(codec, rows, n)) && StateAt(codec, rows, n) == StateAt(codec, rows, |rows|) ==>
              StateHeld(codec, rows, n)
  {
    hide Replay, StateAt;
    var states := StatesSince(codec, rows, n);
    if NoReturn(states) && StateAt(codec, rows, n) == StateAt(codec, rows, |rows|) {
      forall k | n <= k <= |rows|
        ensures StateAt(codec, rows, k) == StateAt(codec, rows, n)
      {
        assert states[0] == StateAt(codec, rows, n) && states[|rows| - n] == StateAt(codec, rows, |rows|);
        assert states[k - n] == StateAt(codec, rows, k);
      }
    }
  }

  /** What a drawn form of a case asks for, apart from an edit of a message. */
  predicate OnForm(record: Record) {
    record.Answering? || record.Withdrawing? || record.Parking? || record.Resuming?
  }

  /** When `since` answers unchanged, the case holds what the form showed: the
      state, the answer, pickup, park and close, and on every kind but message
      the question and its `amend_seq`. So whatever the form sends gets the
      verdict it would have got when it was drawn. */
  lemma UnchangedIsSafe(codec: Codec, rows: seq<Row>, n: nat, author: Author, record: Record)
    requires Drawn(codec, rows, n) && Fold(codec, rows[..n]).Success? && Fold(codec, rows).Success?
    requires
      var c, c' := Fold(codec, rows[..n]).value, Fold(codec, rows).value;
      SinceOf(c', c.revision, c.lastSeq) == Unchanged
    requires OnForm(record)
    ensures
      var s, t := Fold(codec, rows[..n]).value.now, Fold(codec, rows).value.now;
      && t.state == s.state && t.kind == s.kind
      && t.answer == s.answer && t.pickup == s.pickup && t.park == s.park && t.close == s.close
      && (s.kind != Message ==> SameQuestion(t.question, s.question) && t.amendSeq == s.amendSeq)
      && (Apply(s, 0, author, record, true).Success? <==> Apply(t, 0, author, record, true).Success?)
      && (s.kind != Message && Apply(s, 0, author, record, true).Failure? ==>
            Apply(s, 0, author, record, true) == Apply(t, 0, author, record, true))
  {
    var s, t := Fold(codec, rows[..n]).value.now, Fold(codec, rows).value.now;
    hide *;
    UnchangedHolds(codec, rows, n);
    SameFormSameVerdict(s, t, author, record);
  }

  lemma UnchangedHolds(codec: Codec, rows: seq<Row>, n: nat)
    requires Drawn(codec, rows, n) && Fold(codec, rows[..n]).Success? && Fold(codec, rows).Success?
    requires
      var c, c' := Fold(codec, rows[..n]).value, Fold(codec, rows).value;
      SinceOf(c', c.revision, c.lastSeq) == Unchanged
    ensures
      var s, t := Fold(codec, rows[..n]).value.now, Fold(codec, rows).value.now;
      && SlotsFit(s) && t.state == s.state && t.kind == s.kind
      && t.answer == s.answer && t.pickup == s.pickup && t.park == s.park && t.close == s.close
      && (s.kind != Message ==> SameQuestion(t.question, s.question) && t.amendSeq == s.amendSeq)
  {
    hide Replay, LastSeq, SinceOf, AllTaken, QuestionHeld, OpenFits, AnswerStands, Chains, IsLatest, SameQuestion;
    hide PartitionPoint, AddedEvents, RisingRows;
    UnchangedExactly(codec, rows, n);
    FormPicksAdded(codec, rows, n);
    ReplayIsSound(codec, rows);
    ReplayIsSound(codec, rows[..n]);
    assert rows[..|rows|] == rows;
    assert StateAt(codec, rows, |rows|) == StateAt(codec, rows, n);
    if n < |rows| {
      FormHeld(codec, rows, n);
    }
  }

  /** After a row is added, an unchanged case is open or sent, holds nothing,
      and asks what it asked. */
  lemma FormHeld(codec: Codec, rows: seq<Row>, n: nat)
    requires Drawn(codec, rows, n) && n < |rows| && Replay(codec, rows).case_.Some?
    requires AllTaken(codec, rows, n) && QuestionHeld(codec, rows, n) && StateHeld(codec, rows, n)
    ensures
      var s, t := Replay(codec, rows[..n]).case_.value, Replay(codec, rows).case_.value;
      && (t.state == State.Open || t.state == Sent)
      && (s.kind != Message ==> SameQuestion(t.question, s.question) && t.amendSeq == s.amendSeq)
  {
    hide Replay, LastSeq, SlotsFit, OpenFits, AnswerStands, IsLatest, AllTaken, StateHeld;
    assert rows[..|rows|] == rows;
    FormPicksAdded(codec, rows, n);
    HeldByNoteOrAmend(codec, rows, n, Replay(codec, rows).case_.value.state);
    AddedCount(codec, rows, n);
    ReplayIsSound(codec, rows);
    var t, added := Replay(codec, rows).case_.value, AddedEvents(codec, rows, n);
    var last := added[|added| - 1];
    assert last in added;
    assert Keeps(last, t.state);
    assert Moves(t.kind, last.from, last.record.Event(), last.author, t.state) by {
      assert StateAfter(t.events, t.state, |t.events| - 1) == Some(t.state);
    }
  }

  lemma SameFormSameVerdict(s: Standing, t: Standing, author: Author, record: Record)
    requires SlotsFit(s) && s.state == t.state && s.kind == t.kind
    requires s.kind != Message ==> SameQuestion(t.question, s.question) && t.amendSeq == s.amendSeq
    requires OnForm(record)
    ensures Apply(s, 0, author, record, true).Success? <==> Apply(t, 0, author, record, true).Success?
    ensures s.kind != Message && Apply(s, 0, author, record, true).Failure? ==>
              Apply(s, 0, author, record, true) == Apply(t, 0, author, record, true)
  {
    hide VerdictsFit, Given, TakesResponses, Blank;
  }

  predicate OnFormEvent(name: string) {
    var event := ParseEvent(name);
    event.Some? && event.value in {AnswerEvent, WithdrawEvent, ParkEvent, ResumeEvent}
  }

  /** So the form is sent as it was drawn: at the revision now, its append is
      accepted exactly when it would have been at the revision then, unless the
      seqs have run out since; and if it is refused, on every kind but message
      it is for the same reason. */
  lemma FormSendsAsDrawn(
    codec: Codec, rows: seq<Row>, n: nat, append: Append, now: Time, actor: Option<Actor>)
    requires Drawn(codec, rows, n) && Fold(codec, rows[..n]).Success? && Fold(codec, rows).Success?
    requires
      var c, c' := Fold(codec, rows[..n]).value, Fold(codec, rows).value;
      SinceOf(c', c.revision, c.lastSeq) == Unchanged
    requires OnFormEvent(append.event)
    ensures
      var c, c' := Fold(codec, rows[..n]).value, Fold(codec, rows).value;
      var drawn := AppendTo(codec, c, append, now, actor, Some(c.revision));
      var sent := AppendTo(codec, c', append, now, actor, Some(c'.revision));
      && (sent.Success? <==> drawn.Success? && c'.lastSeq < U64_MAX)
      && (c.now.kind != Message && drawn.Failure? && c'.lastSeq < U64_MAX ==>
            sent.Failure? && sent.error == drawn.error)
  {
    hide Replay, LastSeq, SinceOf, Stamp, Apply;
    var c, c' := Fold(codec, rows[..n]).value, Fold(codec, rows).value;
    SeqsGrow(codec, rows, n);
    if Stamp(codec, append, now, actor).Success? {
      var (author, record) := Stamp(codec, append, now, actor).value;
      StampedIsRead(codec, append, now, actor);
      UnchangedIsSafe(codec, rows, n, author, record);
      if c'.lastSeq < U64_MAX {
        NumberIsNoMatter(c.now, c.lastSeq + 1, author, record);
        NumberIsNoMatter(c'.now, c'.lastSeq + 1, author, record);
      }
    }
  }

  lemma SeqsGrow(codec: Codec, rows: seq<Row>, n: nat)
    requires Drawn(codec, rows, n)
    ensures LastSeq(rows[..n]) <= LastSeq(rows)
  {
    hide Replay, LastSeq;
    NothingIsNoCase(codec);
    assert rows[..0] == [];
    LastSeqIsLast(rows[..n]);
    LastSeqIsLast(rows);
  }

  /** What a form asks for does not depend on the number it is given. */
  lemma NumberIsNoMatter(s: Standing, seqNo: U64, author: Author, record: Record)
    requires OnForm(record)
    ensures Apply(s, seqNo, author, record, true) == Apply(s, 0, author, record, true)
  {
  }

  /** An amend that gives a body and nothing else. */
  predicate EditsBody(record: Record) {
    record.Amending? &&
    record.amend ==
    AmendRecord("", record.amend.body, [], 0, [], None, [], [], [], [], "", false, record.amend.actor, record.amend.at)
  }

  /** The stamped record is what the append reads to, signed. */
  lemma StampedIsRead(codec: Codec, append: Append, now: Time, actor: Option<Actor>)
    requires codec.Faithful() && Stamp(codec, append, now, actor).Success?
    ensures Read(codec, append.author, append.event, append.data).Success?
    ensures
      var read := Read(codec, append.author, append.event, append.data).value.1;
      var record := Stamp(codec, append, now, actor).value.1;
      && (OnFormEvent(append.event) ==> OnForm(record))
      && (EditsBody(read) ==> EditsBody(record))
  {
    hide ActorFits;
  }

  /** And the edit of a body, drawn from an unchanged case whose `amend_seq`
      has not passed the form's seq, which says no other edit came between. */
  lemma EditSendsAsDrawn(
    codec: Codec, rows: seq<Row>, n: nat, append: Append, now: Time, actor: Option<Actor>)
    requires Drawn(codec, rows, n) && Fold(codec, rows[..n]).Success? && Fold(codec, rows).Success?
    requires
      var c, c' := Fold(codec, rows[..n]).value, Fold(codec, rows).value;
      SinceOf(c', c.revision, c.lastSeq) == Unchanged && c'.now.amendSeq <= c.lastSeq
    requires
      var read := Read(codec, append.author, append.event, append.data);
      read.Success? ==> EditsBody(read.value.1)
    ensures
      var c, c' := Fold(codec, rows[..n]).value, Fold(codec, rows).value;
      var drawn := AppendTo(codec, c, append, now, actor, Some(c.revision));
      var sent := AppendTo(codec, c', append, now, actor, Some(c'.revision));
      && (sent.Success? <==> drawn.Success? && c'.lastSeq < U64_MAX)
      && (drawn.Failure? && c'.lastSeq < U64_MAX ==> sent.Failure? && sent.error == drawn.error)
  {
    hide Replay, LastSeq, SinceOf, Stamp, Apply, Read;
    var c, c' := Fold(codec, rows[..n]).value, Fold(codec, rows).value;
    SeqsGrow(codec, rows, n);
    QuestionGrew(codec, rows, n);
    if Stamp(codec, append, now, actor).Success? {
      var (author, record) := Stamp(codec, append, now, actor).value;
      StampedIsRead(codec, append, now, actor);
      if c'.lastSeq < U64_MAX {
        SameEditSameVerdict(c.now, c.lastSeq + 1, c'.now, c'.lastSeq + 1, author, record);
      }
    }
  }

  /** What an unchanged case whose `amend_seq` stands keeps of its question. */
  lemma QuestionGrew(codec: Codec, rows: seq<Row>, n: nat)
    requires Drawn(codec, rows, n) && Fold(codec, rows[..n]).Success? && Fold(codec, rows).Success?
    requires
      var c, c' := Fold(codec, rows[..n]).value, Fold(codec, rows).value;
      SinceOf(c', c.revision, c.lastSeq) == Unchanged && c'.now.amendSeq <= c.lastSeq
    ensures
      var s, t := Fold(codec, rows[..n]).value.now, Fold(codec, rows).value.now;
      s.state == t.state && s.kind == t.kind && SameQuestion(s.question, t.question)
  {
    hide Replay, LastSeq, SinceOf, SlotsFit;
    UnchangedHolds(codec, rows, n);
    Grows(codec, rows, n, |rows|);
    assert rows[..|rows|] == rows;
  }

  lemma SameEditSameVerdict(s: Standing, m: U64, t: Standing, k: U64, author: Author, record: Record)
    requires s.state == t.state && s.kind == t.kind && SameQuestion(s.question, t.question) && EditsBody(record)
    ensures Apply(s, m, author, record, true).Success? <==> Apply(t, k, author, record, true).Success?
    ensures Apply(s, m, author, record, true).Failure? ==>
              Apply(t, k, author, record, true) == Failure(Apply(s, m, author, record, true).error)
  {
    hide Blank, Amended;
  }
}
