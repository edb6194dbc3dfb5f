/** Options and links given twice: only a write refuses them in an open, so a
    replayed case may hold them. Which it holds, over any rows, is decided by
    its open and the links its amends drop. */
module RepeatLaws {
  import opened Wrappers
  import opened Seqs
  import opened Names
  import opened Times
  import opened Records
  import opened Rules
  import opened Texts
  import opened Cases
  import opened Words
  import opened WriterLaws
  import opened CaseLaws

  predicate Repeats(values: seq<string>, x: string) {
    multiset(values)[x] >= 2
  }

  /** The link is dropped by an amend among the events. */
  predicate Dropped(events: seq<Event>, link: string) {
    exists e <- events :: e.record.Amending? && link in e.record.amend.dropLinks
  }

  // ----- what repeats

  lemma {:induction false} NoneRepeats(values: seq<string>)
    ensures AllNew(values, []) <==> forall x: string :: !Repeats(values, x)
    decreases |values|
  {
    if values == [] {
    } else {
      var init, last := values[..|values| - 1], values[|values| - 1];
      assert values == init + [last];
      NoneRepeats(init);
      AllNewSnoc(init, last);
      forall x: string
        ensures multiset(values)[x] == multiset(init)[x] + if x == last then 1 else 0
        ensures Repeats(values, x) <==> Repeats(init, x) || (x == last && last in init)
      {
      }
      if last in init {
        assert Repeats(values, last);
      } else {
        assert forall x: string :: Repeats(values, x) <==> Repeats(init, x);
      }
    }
  }

  lemma AllNewSnoc(init: seq<string>, last: string)
    ensures AllNew(init + [last], []) <==> AllNew(init, []) && last !in init
  {
    var all := init + [last];
    assert forall i | 0 <= i <= |init| :: all[..i] == init[..i];
    assert all[|init|] == last && init[..|init|] == init;
    assert forall i | 0 <= i < |init| :: all[i] == init[i];
  }

  /** What is added new makes nothing repeat. */
  lemma AddingRepeatsNothing(have: seq<string>, added: seq<string>, x: string)
    requires AllNew(added, have)
    ensures Repeats(have + added, x) <==> Repeats(have, x)
  {
    forall i, j | 0 <= i < j < |added|
      ensures added[i] != added[j]
    {
      assert added[i] in added[..j];
    }
    DistinctCounts(added, x);
  }

  /** And a link dropped is dropped wherever it is. */
  lemma {:induction false} DroppingRepeatsLess(links: seq<string>, drop: seq<string>, x: string)
    ensures multiset(Without(links, drop))[x] == if x in drop then 0 else multiset(links)[x]
    decreases |links|
  {
    if links == [] {
    } else {
      DroppingRepeatsLess(links[1..], drop, x);
      assert links == [links[0]] + links[1..];
    }
  }

  // ----- over any rows

  lemma AmendRepeats(q: OpenRecord, kind: Kind, amend: AmendRecord, x: string)
    requires AmendFits(amend, kind, q)
    ensures
      var q' := Amended(q, amend);
      && (Repeats(q'.options, x) <==> Repeats(q.options, x))
      && (Repeats(q'.links, x) <==> Repeats(q.links, x) && x !in amend.dropLinks)
  {
    hide Repeats;
    var kept := Without(q.links, amend.dropLinks);
    AddingRepeatsNothing(q.options, amend.options, x);
    WithoutIsSubset(q.links, amend.dropLinks);
    AddingRepeatsNothing(kept, amend.links, x);
    assert Repeats(kept, x) <==> Repeats(q.links, x) && x !in amend.dropLinks by {
      KeptRepeats(q.links, amend.dropLinks, x);
    }
  }

  lemma KeptRepeats(links: seq<string>, drop: seq<string>, x: string)
    ensures Repeats(Without(links, drop), x) <==> Repeats(links, x) && x !in drop
  {
    DroppingRepeatsLess(links, drop, x);
  }

  predicate Drops(record: Record, link: string) {
    record.Amending? && link in record.amend.dropLinks
  }

  lemma TakeRepeats(s: Standing, seqNo: U64, author: Author, record: Record, data: string, x: string)
    requires Take(s, seqNo, author, record, data, false).Success?
    ensures
      var t := Take(s, seqNo, author, record, data, false).value;
      && (Repeats(t.question.options, x) <==> Repeats(s.question.options, x))
      && (Repeats(t.question.links, x) <==> Repeats(s.question.links, x) && !Drops(record, x))
  {
    hide Repeats, AmendFits, Amended, AnswerFits, Blank;
    if record.Amending? {
      AmendRepeats(s.question, s.kind, record.amend, x);
    }
  }

  lemma StartRepeats(seqNo: U64, author: Author, record: Record, data: string)
    requires Start(seqNo, author, record, data, false).Success?
    ensures
      var s := Start(seqNo, author, record, data, false).value;
      record.Opening? && s.question == record.open && |s.events| == 1 && s.events[0].record == record
  {
    hide CheckOpen;
  }

  /** How a replay's repeats come from its open and its drops, one value. */
  ghost predicate RepeatsOf(s: Standing, x: string) {
    && s.events != [] && s.events[0].record.Opening?
    && var open := s.events[0].record.open;
       && (Repeats(s.question.options, x) <==> Repeats(open.options, x))
       && (Repeats(s.question.links, x) <==> Repeats(open.links, x) && !Dropped(s.events, x))
  }

  lemma StepKeepsRepeats(codec: Codec, before: Option<Standing>, row: Row, x: string)
    requires Step(codec, before, row).Success?
    requires before.Some? ==> RepeatsOf(before.value, x)
    ensures RepeatsOf(Step(codec, before, row).value, x)
  {
    hide Read, Start, Take, Repeats;
    var (author, record) := Read(codec, row.author, row.event, row.data).value;
    var t := Step(codec, before, row).value;
    StepAddsEvent(codec, before, row);
    if before.None? {
      StartRepeats(row.seqNo, author, record, row.data);
    } else {
      TakeRepeats(before.value, row.seqNo, author, record, row.data, x);
      var e := t.events[|t.events| - 1];
      assert t.events == before.value.events + [e];
      assert Dropped(t.events, x) <==> Dropped(before.value.events, x) || Drops(record, x) by {
        DroppedSnoc(before.value.events, e, x);
      }
    }
  }

  lemma DroppedSnoc(events: seq<Event>, e: Event, x: string)
    ensures Dropped(events + [e], x) <==> Dropped(events, x) || Drops(e.record, x)
  {
    assert e in events + [e];
    assert forall d <- events :: d in events + [e];
  }

  lemma {:induction false} ReplayRepeats(codec: Codec, rows: seq<Row>, x: string)
    ensures Replay(codec, rows).case_.Some? ==> RepeatsOf(Replay(codec, rows).case_.value, x)
    decreases |rows|
  {
    hide Step, RepeatsOf;
    if rows == [] {
    } else {
      var init, row := rows[..|rows| - 1], rows[|rows| - 1];
      ReplayRepeats(codec, init, x);
      if Step(codec, Replay(codec, init).case_, row).Success? {
        StepKeepsRepeats(codec, Replay(codec, init).case_, row, x);
      }
    }
  }

  /** Over any rows, skipped ones and all: the options are distinct exactly
      when the open's were, and the links exactly when every link the open
      gives twice has been dropped by an amend taken since. */
  lemma DistinctExactly(codec: Codec, rows: seq<Row>)
    requires Fold(codec, rows).Success?
    ensures
      var s := Fold(codec, rows).value.now;
      && s.events != [] && s.events[0].record.Opening?
      && var open := s.events[0].record.open;
         && (AllNew(s.question.options, []) <==> AllNew(open.options, []))
         && (AllNew(s.question.links, []) <==> forall x: string :: Repeats(open.links, x) ==> Dropped(s.events, x))
  {
    hide Replay, Repeats, Dropped;
    var s := Fold(codec, rows).value.now;
    ReplayRepeats(codec, rows, "");
    var open := s.events[0].record.open;
    forall x: string
      ensures Repeats(s.question.options, x) <==> Repeats(open.options, x)
      ensures Repeats(s.question.links, x) <==> Repeats(open.links, x) && !Dropped(s.events, x)
    {
      ReplayRepeats(codec, rows, x);
    }
    NoneRepeats(s.question.options);
    NoneRepeats(open.options);
    NoneRepeats(s.question.links);
  }

  // ----- such a case

  const TWICE: OpenRecord := OpenRecord(
    "decision", "today", "t", "", ["a", "a"], 0, [], false, [], ["b", "b"], [], "", "", "", "", "", None, None)

  /** A decision that gives an option and a link twice: no writer opens it,
      and its stored row folds to a case that has both twice. */
  lemma ReplayMayRepeat(codec: Codec, now: Time, actor: Option<Actor>)
    requires codec.Faithful()
    ensures
      var row := NewRow(codec, 1, Agent, Opening(TWICE));
      && OpenCase(codec, Append(row.author, row.event, row.data), now, actor) == Failure(Invalid)
      && Fold(codec, [row]).Success?
      && var s := Fold(codec, [row]).value.now;
         && s.question.options == ["a", "a"] && !AllNew(s.question.options, [])
         && s.question.links == ["b", "b"] && !AllNew(s.question.links, [])
  {
    hide Read, CheckOpen, OpenFits, OpenWriteFits, Codec.Faithful, Replay;
    var record := Opening(TWICE);
    var row := NewRow(codec, 1, Agent, record);
    RowReadsBack(codec, 1, Agent, record);
    TwiceOpens();
    assert Start(1, Agent, record, row.data, false).Success?;
    assert Start(1, Agent, if actor.Some? then record.WithActor(actor) else record, row.data, true).Failure?;
    NothingYet(codec);
    FoldSnoc(codec, [], row);
    assert [] + [row] == [row];
  }

  lemma NothingYet(codec: Codec)
    ensures Replay(codec, []) == Progress(None, [])
  {
  }

  /** Only the rules of a write refuse it, whoever signs it. */
  lemma TwiceOpens()
    ensures CheckOpen(TWICE, Agent, false) == Success((Decision, Today))
    ensures forall actor, at :: CheckOpen(TWICE.(actor := actor, at := at), Agent, true) == Failure(Invalid)
    ensures !AllNew(TWICE.options, []) && !AllNew(TWICE.links, [])
  {
    assert TWICE.options[1] == TWICE.options[..1][0] && TWICE.links[1] == TWICE.links[..1][0];
    assert "t"[0] in "t" && "a"[0] in "a" && !White('t') && !White('a');
    assert OpenFits(TWICE, Decision);
  }
}
