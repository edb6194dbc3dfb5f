/** A case is what its events say: each slot, each field of the question and
    `amend_seq`, from the list of events alone, over any rows. */
module HistoryLaws {
  import opened Wrappers
  import opened Names
  import opened Records
  import opened Rules
  import opened Cases
  import opened Words
  import opened WriterLaws
  import opened CaseLaws

  // ----- reading the events

  /** What the last event to give something gave, unless one after it ends it. */
  function Latest<T>(events: seq<Event>, gives: Event -> Option<T>, ends: Event -> bool): Option<T>
    decreases |events|
  {
    if events == [] then None
    else
      var e := events[|events| - 1];
      if gives(e).Some? then gives(e)
      else if ends(e) then None
      else Latest(events[..|events| - 1], gives, ends)
  }

  lemma LatestSnoc<T>(events: seq<Event>, e: Event, gives: Event -> Option<T>, ends: Event -> bool)
    ensures Latest(events + [e], gives, ends) ==
            if gives(e).Some? then gives(e) else if ends(e) then None else Latest(events, gives, ends)
  {
    assert (events + [e])[..|events|] == events;
  }

  /** Everything the events gave, in their order. */
  function AllGiven<T>(events: seq<Event>, gives: Event -> seq<T>): seq<T>
    decreases |events|
  {
    if events == [] then []
    else AllGiven(events[..|events| - 1], gives) + gives(events[|events| - 1])
  }

  lemma AllGivenSnoc<T>(events: seq<Event>, e: Event, gives: Event -> seq<T>)
    ensures AllGiven(events + [e], gives) == AllGiven(events, gives) + gives(e)
  {
    assert (events + [e])[..|events|] == events;
  }

  // ----- the slots

  /** A note or an amend taken when the case was answered or picked up: it asks
      again. */
  predicate AsksAgain(e: Event) {
    (e.record.Noting? || e.record.Amending?) && e.from in {Some(Answered), Some(PickedUp)}
  }

  function AnswerIn(e: Event): Option<AnswerRecord> {
    if e.record.Answering? then Some(e.record.answer) else None
  }

  function PickupIn(e: Event): Option<PickupRecord> {
    if e.record.PickingUp? then Some(e.record.pickup) else None
  }

  function ParkIn(e: Event): Option<ParkRecord> {
    if e.record.Parking? then Some(e.record.park) else None
  }

  predicate Resumes(e: Event) {
    e.record.Resuming?
  }

  function CloseIn(e: Event): Option<CloseRecord> {
    if e.record.Closing? then Some(e.record.close) else None
  }

  predicate Never(e: Event) {
    false
  }

  predicate SlotsTold(s: Standing) {
    && s.answer == Latest(s.events, AnswerIn, AsksAgain)
    && s.pickup == Latest(s.events, PickupIn, AsksAgain)
    && s.park == Latest(s.events, ParkIn, Resumes)
    && s.close == Latest(s.events, CloseIn, Never)
  }

  lemma StepTellsSlots(s: Standing, t: Standing, seqNo: U64, author: Author, record: Record, data: string)
    requires SlotsTold(s) && SlotsFit(s)
    requires Take(s, seqNo, author, record, data, false) == Success(t)
    ensures SlotsTold(t)
  {
    hide AmendFits, AnswerFits, Blank, Amended, ChangesQuestion, Latest;
    var e := Event(seqNo, author, Some(s.state), record, data);
    assert t.events == s.events + [e];
    LatestSnoc(s.events, e, AnswerIn, AsksAgain);
    LatestSnoc(s.events, e, PickupIn, AsksAgain);
    LatestSnoc(s.events, e, ParkIn, Resumes);
    LatestSnoc(s.events, e, CloseIn, Never);
  }

  // ----- the question

  /** A text an open gives, or an amend that sets it. */
  function Set(given: string): Option<string> {
    if given == "" then None else Some(given)
  }

  function TitleIn(e: Event): Option<string> {
    match e.record
    case Opening(open) => Some(open.title)
    case Amending(amend) => Set(amend.title)
    case _ => None
  }

  function BodyIn(e: Event): Option<string> {
    match e.record
    case Opening(open) => Some(open.body)
    case Amending(amend) => Set(amend.body)
    case _ => None
  }

  function ContextIn(e: Event): Option<string> {
    match e.record
    case Opening(open) => Some(open.context)
    case Amending(amend) => Set(amend.context)
    case _ => None
  }

  function RecommendIn(e: Event): Option<int> {
    match e.record
    case Opening(open) => Some(open.recommend)
    case Amending(amend) => if amend.recommend == 0 then None else Some(amend.recommend)
    case _ => None
  }

  function LandedIn(e: Event): Option<bool> {
    match e.record
    case Opening(open) => Some(open.landed)
    case Amending(amend) => amend.landed
    case _ => None
  }

  function LeftOutIn(e: Event): Option<seq<string>> {
    match e.record
    case Opening(open) => Some(open.leftOut)
    case Amending(amend) => if amend.leftOut == [] then None else Some(amend.leftOut)
    case _ => None
  }

  function OptionsIn(e: Event): seq<string> {
    match e.record
    case Opening(open) => open.options
    case Amending(amend) => amend.options
    case _ => []
  }

  function RowsIn(e: Event): seq<ApprovalRow> {
    match e.record
    case Opening(open) => open.rows
    case Amending(amend) => amend.rows
    case _ => []
  }

  function LabelsIn(e: Event): seq<string> {
    match e.record
    case Opening(open) => open.labels
    case Amending(amend) => amend.labels
    case _ => []
  }

  function LinksIn(e: Event): seq<string> {
    match e.record
    case Opening(open) => open.links
    case Amending(amend) => amend.links
    case _ => []
  }

  predicate Drops(e: Event, link: string) {
    e.record.Amending? && link in e.record.amend.dropLinks
  }

  predicate DropsAny(later: seq<Event>, link: string) {
    exists e <- later :: Drops(e, link)
  }

  /** The links not dropped by any of the events. */
  function Undropped(links: seq<string>, later: seq<Event>): seq<string> {
    if links == [] then []
    else (if DropsAny(later, links[0]) then [] else [links[0]]) + Undropped(links[1..], later)
  }

  /** The links each event gave that none after it dropped, in order. */
  function LinksKept(events: seq<Event>): seq<string> {
    if events == [] then []
    else Undropped(LinksIn(events[0]), events[1..]) + LinksKept(events[1..])
  }

  /** The question, by the events: of what only an open gives, the open's. */
  predicate QuestionTold(q: OpenRecord, events: seq<Event>) {
    && events != [] && events[0].record.Opening?
    && Latest(events, TitleIn, Never) == Some(q.title)
    && Latest(events, BodyIn, Never) == Some(q.body)
    && Latest(events, ContextIn, Never) == Some(q.context)
    && Latest(events, RecommendIn, Never) == Some(q.recommend)
    && Latest(events, LandedIn, Never) == Some(q.landed)
    && Latest(events, LeftOutIn, Never) == Some(q.leftOut)
    && q.options == AllGiven(events, OptionsIn)
    && q.rows == AllGiven(events, RowsIn)
    && q.labels == AllGiven(events, LabelsIn)
    && q.links == LinksKept(events)
    && var open := events[0].record.open;
       && q.kind == open.kind && q.urgency == open.urgency && q.worker == open.worker && q.brief == open.brief
       && q.for_ == open.for_ && q.re == open.re && q.actor == open.actor && q.at == open.at
  }

  lemma {:induction false} UndroppedSnoc(links: seq<string>, later: seq<Event>, e: Event)
    ensures Undropped(links, later + [e]) ==
            if e.record.Amending? then Without(Undropped(links, later), e.record.amend.dropLinks)
            else Undropped(links, later)
    decreases |links|
  {
    hide DropsAny;
    if links == [] {
    } else {
      UndroppedSnoc(links[1..], later, e);
      DropsAnySnoc(later, e, links[0]);
      if e.record.Amending? {
        var kept := if DropsAny(later, links[0]) then [] else [links[0]];
        WithoutJoins(kept, Undropped(links[1..], later), e.record.amend.dropLinks);
        WithoutOne(links[0], e.record.amend.dropLinks);
      }
    }
  }

  lemma DropsAnySnoc(later: seq<Event>, e: Event, link: string)
    ensures DropsAny(later + [e], link) <==> DropsAny(later, link) || Drops(e, link)
  {
    assert e in later + [e] && forall d <- later :: d in later + [e];
  }

  lemma WithoutOne(link: string, drop: seq<string>)
    ensures Without([link], drop) == if link in drop then [] else [link]
    ensures Without([], drop) == []
  {
    assert [link][1..] == [];
  }

  lemma {:induction false} WithoutJoins(a: seq<string>, b: seq<string>, drop: seq<string>)
    ensures Without(a + b, drop) == Without(a, drop) + Without(b, drop)
    decreases |a|
  {
    if a == [] {
      assert a + b == b;
    } else {
      WithoutJoins(a[1..], b, drop);
      assert (a + b)[1..] == a[1..] + b;
    }
  }

  lemma {:induction false} UndroppedByNone(links: seq<string>)
    ensures Undropped(links, []) == links
    decreases |links|
  {
    if links == [] {
    } else {
      UndroppedByNone(links[1..]);
    }
  }

  lemma {:induction false} LinksKeptSnoc(events: seq<Event>, e: Event)
    ensures
      var kept := LinksKept(events);
      LinksKept(events + [e]) ==
      (if e.record.Amending? then Without(kept, e.record.amend.dropLinks) else kept) + LinksIn(e)
    decreases |events|
  {
    hide LinksIn;
    if events == [] {
      UndroppedByNone(LinksIn(e));
      assert [] + [e] == [e] && [e][1..] == [];
      assert LinksKept([e]) == LinksIn(e) + LinksKept([]);
    } else {
      LinksKeptSnoc(events[1..], e);
      assert (events + [e])[1..] == events[1..] + [e];
      var first := LinksIn(events[0]);
      UndroppedSnoc(first, events[1..], e);
      if e.record.Amending? {
        WithoutJoins(Undropped(first, events[1..]), LinksKept(events[1..]), e.record.amend.dropLinks);
      }
    }
  }

  // ----- one event more

  /** What an event adds to what the events before it say of the question. */
  lemma QuestionGrows(q: OpenRecord, events: seq<Event>, e: Event)
    requires QuestionTold(q, events) && !e.record.Opening?
    ensures QuestionTold(if e.record.Amending? then Amended(q, e.record.amend) else q, events + [e])
  {
    hide Latest, AllGiven, LinksKept, Without;
    LatestSnoc(events, e, TitleIn, Never);
    LatestSnoc(events, e, BodyIn, Never);
    LatestSnoc(events, e, ContextIn, Never);
    LatestSnoc(events, e, RecommendIn, Never);
    LatestSnoc(events, e, LandedIn, Never);
    LatestSnoc(events, e, LeftOutIn, Never);
    AllGivenSnoc(events, e, OptionsIn);
    AllGivenSnoc(events, e, RowsIn);
    AllGivenSnoc(events, e, LabelsIn);
    LinksKeptSnoc(events, e);
    assert (events + [e])[0] == events[0];
  }

  /** The events before and after leave the same asked: the options, the rows,
      the body and what is left out. */
  predicate AskSame(before: seq<Event>, after: seq<Event>) {
    && AllGiven(before, OptionsIn) == AllGiven(after, OptionsIn)
    && AllGiven(before, RowsIn) == AllGiven(after, RowsIn)
    && Latest(before, BodyIn, Never) == Latest(after, BodyIn, Never)
    && Latest(before, LeftOutIn, Never) == Latest(after, LeftOutIn, Never)
  }

  /** The number of the last event after the open that changed what is asked,
      0 when none did. */
  function ChangeSeq(events: seq<Event>): U64
    decreases |events|
  {
    if |events| <= 1 then 0
    else
      var init := events[..|events| - 1];
      if AskSame(init, events) then ChangeSeq(init) else events[|events| - 1].seqNo
  }

  lemma AmendAsks(q: OpenRecord, events: seq<Event>, e: Event)
    requires QuestionTold(q, events) && !e.record.Opening?
    ensures AskSame(events, events + [e]) <==> !(e.record.Amending? && ChangesQuestion(e.record.amend, q))
  {
    hide Latest, AllGiven, LinksKept;
    LatestSnoc(events, e, BodyIn, Never);
    LatestSnoc(events, e, LeftOutIn, Never);
    AllGivenSnoc(events, e, OptionsIn);
    AllGivenSnoc(events, e, RowsIn);
    assert |AllGiven(events, OptionsIn) + OptionsIn(e)| == |AllGiven(events, OptionsIn)| + |OptionsIn(e)|;
    assert |AllGiven(events, RowsIn) + RowsIn(e)| == |AllGiven(events, RowsIn)| + |RowsIn(e)|;
    assert OptionsIn(e) == [] ==> AllGiven(events, OptionsIn) + OptionsIn(e) == AllGiven(events, OptionsIn);
    assert RowsIn(e) == [] ==> AllGiven(events, RowsIn) + RowsIn(e) == AllGiven(events, RowsIn);
  }

  lemma ChangeSeqSnoc(q: OpenRecord, events: seq<Event>, e: Event)
    requires QuestionTold(q, events) && !e.record.Opening?
    ensures ChangeSeq(events + [e]) ==
            if e.record.Amending? && ChangesQuestion(e.record.amend, q) then e.seqNo else ChangeSeq(events)
  {
    hide QuestionTold, AskSame, ChangesQuestion;
    AmendAsks(q, events, e);
    assert (events + [e])[..|events|] == events;
    assert events != [] by {
      Opens(q, events);
    }
  }

  lemma Opens(q: OpenRecord, events: seq<Event>)
    requires QuestionTold(q, events)
    ensures events != [] && events[0].record.Opening? && events[0].record.open.kind == q.kind
  {
  }

  // ----- every case

  /** A case is what its events say. */
  predicate Told(s: Standing) {
    && SlotsTold(s)
    && QuestionTold(s.question, s.events)
    && s.amendSeq == ChangeSeq(s.events)
    && ParseKind(s.question.kind) == Some(s.kind) && ParseUrgency(s.question.urgency) == Some(s.urgency)
  }

  lemma StartTells(seqNo: U64, author: Author, record: Record, data: string)
    requires Start(seqNo, author, record, data, false).Success?
    ensures Told(Start(seqNo, author, record, data, false).value)
  {
    hide OpenFits, OpenWriteFits;
    var s := Start(seqNo, author, record, data, false).value;
    var e := s.events[0];
    assert s.events == [] + [e];
    LatestSnoc([], e, AnswerIn, AsksAgain);
    LatestSnoc([], e, PickupIn, AsksAgain);
    LatestSnoc([], e, ParkIn, Resumes);
    LatestSnoc([], e, CloseIn, Never);
    FirstTells(record.open, e);
  }

  lemma FirstTells(open: OpenRecord, e: Event)
    requires e.record == Opening(open)
    ensures QuestionTold(open, [e])
  {
    hide Latest, AllGiven, LinksKept;
    assert [] + [e] == [e];
    LatestSnoc([], e, TitleIn, Never);
    LatestSnoc([], e, BodyIn, Never);
    LatestSnoc([], e, ContextIn, Never);
    LatestSnoc([], e, RecommendIn, Never);
    LatestSnoc([], e, LandedIn, Never);
    LatestSnoc([], e, LeftOutIn, Never);
    AllGivenSnoc([], e, OptionsIn);
    AllGivenSnoc([], e, RowsIn);
    AllGivenSnoc([], e, LabelsIn);
    LinksKeptSnoc([], e);
    NothingGiven();
  }

  lemma NothingGiven()
    ensures AllGiven([], OptionsIn) == [] && AllGiven([], RowsIn) == [] && AllGiven([], LabelsIn) == []
    ensures LinksKept([]) == []
  {
  }

  /** What a taken record does to the question and its number. */
  lemma TakeAsks(s: Standing, t: Standing, seqNo: U64, author: Author, record: Record, data: string)
    requires Take(s, seqNo, author, record, data, false) == Success(t)
    ensures t.events == s.events + [Event(seqNo, author, Some(s.state), record, data)]
    ensures !record.Opening? && t.kind == s.kind && t.urgency == s.urgency
    ensures t.question == if record.Amending? then Amended(s.question, record.amend) else s.question
    ensures t.amendSeq ==
            if record.Amending? && ChangesQuestion(record.amend, s.question) then seqNo else s.amendSeq
  {
    hide AmendFits, AnswerFits, Blank, Amended, ChangesQuestion;
  }

  lemma TakeTells(s: Standing, t: Standing, seqNo: U64, author: Author, record: Record, data: string)
    requires Told(s) && SlotsFit(s) && Take(s, seqNo, author, record, data, false) == Success(t)
    ensures Told(t)
  {
    hide Take, QuestionTold, SlotsTold, SlotsFit, ChangesQuestion, ChangeSeq;
    var e := Event(seqNo, author, Some(s.state), record, data);
    StepTellsSlots(s, t, seqNo, author, record, data);
    TakeAsks(s, t, seqNo, author, record, data);
    QuestionGrows(s.question, s.events, e);
    ChangeSeqSnoc(s.question, s.events, e);
  }

  lemma StepTells(codec: Codec, before: Option<Standing>, row: Row)
    requires Step(codec, before, row).Success?
    requires before.Some? ==> Told(before.value) && SlotsFit(before.value)
    ensures Told(Step(codec, before, row).value)
  {
    hide Read, Start, Take, Told, SlotsFit;
    var (author, record) := Read(codec, row.author, row.event, row.data).value;
    if before.None? {
      StartTells(row.seqNo, author, record, row.data);
    } else {
      TakeTells(before.value, Step(codec, before, row).value, row.seqNo, author, record, row.data);
    }
  }

  lemma {:induction false} ReplayTells(codec: Codec, rows: seq<Row>)
    requires codec.Faithful()
    ensures Replay(codec, rows).case_.Some? ==> Told(Replay(codec, rows).case_.value)
    decreases |rows|
  {
    hide Step, Told, SlotsFit, OpenFits, AnswerStands, Chains, IsLatest, Codec.Faithful;
    if rows == [] {
    } else {
      var init, row := rows[..|rows| - 1], rows[|rows| - 1];
      ReplayTells(codec, init);
      ReplayIsSound(codec, init);
      if Step(codec, Replay(codec, init).case_, row).Success? {
        StepTells(codec, Replay(codec, init).case_, row);
      }
    }
  }

  /** Over any rows, skipped ones and all, a case is what its events say: the
      standing answer is the last answer given, if the case has not been
      reopened since, and so for the pickup, the park and the close; each field
      of the question is the last one given, or all that were, in order; and
      `amend_seq` is the number of the last event that changed what is asked. */
  lemma EveryCaseIsTold(codec: Codec, rows: seq<Row>)
    requires codec.Faithful() && Fold(codec, rows).Success?
    ensures Told(Fold(codec, rows).value.now)
  {
    hide Replay, Told;
    ReplayTells(codec, rows);
  }

  /** In particular, the answer a case keeps is one that was given, as it was
      given, and nothing since has asked again or given another. */
  lemma AnswerKept(codec: Codec, rows: seq<Row>) returns (i: nat)
    requires codec.Faithful() && Fold(codec, rows).Success? && Fold(codec, rows).value.now.answer.Some?
    ensures
      var s := Fold(codec, rows).value.now;
      && i < |s.events| && s.events[i].record == Answering(s.answer.value)
      && forall j | i < j < |s.events| :: !s.events[j].record.Answering? && !AsksAgain(s.events[j])
  {
    EveryCaseIsTold(codec, rows);
    hide Fold, QuestionTold, Latest;
    i := LastAnswer(Fold(codec, rows).value.now.events);
  }

  lemma {:induction false} LastAnswer(events: seq<Event>) returns (i: nat)
    requires Latest(events, AnswerIn, AsksAgain).Some?
    ensures i < |events| && events[i].record == Answering(Latest(events, AnswerIn, AsksAgain).value)
    ensures forall j | i < j < |events| :: !events[j].record.Answering? && !AsksAgain(events[j])
    decreases |events|
  {
    var last := |events| - 1;
    if events[last].record.Answering? {
      i := last;
    } else {
      i := LastAnswer(events[..last]);
    }
  }
}
