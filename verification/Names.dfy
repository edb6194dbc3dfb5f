/** The names the records use, spelt as strings: kinds, urgencies, states,
    authors, events, and the categories errors are compared by. */
module Names {
  import opened Wrappers

  datatype Kind = Decision | Approval | Signoff | Stuck | Question | Fyi | Message | Briefing {
    /** Who asks by this kind of case, and so who amends what was asked. */
    function Opener(): Author {
      if Message? then Human else Agent
    }
  }

  datatype Urgency = Blocking | Today | Whenever

  datatype State = Open | Answered | PickedUp | Closed | Withdrawn | Parked | Sent

  datatype Author = Agent | Human

  datatype EventType =
    | OpenEvent | AmendEvent | AnswerEvent | PickupEvent | NoteEvent
    | CloseEvent | WithdrawEvent | ParkEvent | ResumeEvent
  {
    /** The permissions that do not depend on the case. */
    predicate WrittenBy(author: Author) {
      match this
      case PickupEvent | NoteEvent | CloseEvent => author == Agent
      case AnswerEvent | ParkEvent | ResumeEvent => author == Human
      case OpenEvent | AmendEvent | WithdrawEvent => true
    }
  }

  datatype Category = UnknownName | WrongAuthor | Malformed | Invalid | Transition | Stale | NoOpen

  function ParseKind(s: string): Option<Kind> {
    if s == "decision" then Some(Decision)
    else if s == "approval" then Some(Approval)
    else if s == "signoff" then Some(Signoff)
    else if s == "stuck" then Some(Stuck)
    else if s == "question" then Some(Question)
    else if s == "fyi" then Some(Fyi)
    else if s == "message" then Some(Message)
    else if s == "briefing" then Some(Briefing)
    else None
  }

  function ParseUrgency(s: string): Option<Urgency> {
    if s == "blocking" then Some(Blocking)
    else if s == "today" then Some(Today)
    else if s == "whenever" then Some(Whenever)
    else None
  }

  function AuthorName(author: Author): string {
    match author
    case Agent => "agent"
    case Human => "human"
  }

  function ParseAuthor(s: string): Option<Author> {
    if s == "agent" then Some(Agent)
    else if s == "human" then Some(Human)
    else None
  }

  function EventName(event: EventType): string {
    match event
    case OpenEvent => "open"
    case AmendEvent => "amend"
    case AnswerEvent => "answer"
    case PickupEvent => "pickup"
    case NoteEvent => "note"
    case CloseEvent => "close"
    case WithdrawEvent => "withdraw"
    case ParkEvent => "park"
    case ResumeEvent => "resume"
  }

  function ParseEvent(s: string): Option<EventType> {
    if s == "open" then Some(OpenEvent)
    else if s == "amend" then Some(AmendEvent)
    else if s == "answer" then Some(AnswerEvent)
    else if s == "pickup" then Some(PickupEvent)
    else if s == "note" then Some(NoteEvent)
    else if s == "close" then Some(CloseEvent)
    else if s == "withdraw" then Some(WithdrawEvent)
    else if s == "park" then Some(ParkEvent)
    else if s == "resume" then Some(ResumeEvent)
    else None
  }

  function KindName(kind: Kind): string {
    match kind
    case Decision => "decision"
    case Approval => "approval"
    case Signoff => "signoff"
    case Stuck => "stuck"
    case Question => "question"
    case Fyi => "fyi"
    case Message => "message"
    case Briefing => "briefing"
  }

  function UrgencyName(urgency: Urgency): string {
    match urgency
    case Blocking => "blocking"
    case Today => "today"
    case Whenever => "whenever"
  }

  /** Every name reads back as what it spells. */
  lemma NamesReadBack(author: Author, event: EventType)
    ensures ParseAuthor(AuthorName(author)) == Some(author)
    ensures ParseEvent(EventName(event)) == Some(event)
  {
  }

  /** A text reads as an author or an event exactly when it spells it. */
  lemma AuthorAndEventExactly(text: string, author: Author, event: EventType)
    ensures ParseAuthor(text) == Some(author) <==> text == AuthorName(author)
    ensures ParseEvent(text) == Some(event) <==> text == EventName(event)
  {
    NamesReadBack(author, event);
  }

  /** And as a kind or an urgency. */
  lemma KindAndUrgencyExactly(text: string, kind: Kind, urgency: Urgency)
    ensures ParseKind(text) == Some(kind) <==> text == KindName(kind)
    ensures ParseUrgency(text) == Some(urgency) <==> text == UrgencyName(urgency)
  {
  }
}
