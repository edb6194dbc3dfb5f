/** The nine records, one for each event. A record's JSON text stays text here: `Codec` is the
    reader and the writer of it, and `Codec.Faithful` is what the case
    machine needs of them. */
module Records {
  import opened Wrappers
  import opened Names
  import opened Times
  import opened Words

  /** An actor is an id and nothing more. */
  datatype Actor = Actor(id: string)

  datatype ApprovalRow = ApprovalRow(id: string, title: string, script: string, link: string, note: string, by_: string)

  datatype RowVerdict = RowVerdict(id: string, verdict: string, note: string)

  datatype OpenRecord = OpenRecord(
    kind: string, urgency: string, title: string, body: string, options: seq<string>, recommend: int,
    rows: seq<ApprovalRow>, landed: bool, leftOut: seq<string>, links: seq<string>, labels: seq<string>,
    worker: string, brief: string, context: string, for_: string, re: string,
    actor: Option<Actor>, at: Option<Time>)

  datatype AmendRecord = AmendRecord(
    title: string, body: string, options: seq<string>, recommend: int, rows: seq<ApprovalRow>,
    landed: Option<bool>, leftOut: seq<string>, links: seq<string>, dropLinks: seq<string>, labels: seq<string>,
    context: string, reopen: bool, actor: Option<Actor>, at: Option<Time>)

  datatype AnswerRecord = AnswerRecord(
    choice: int, other: bool, rows: seq<RowVerdict>, signoff: string, briefing: string, file: seq<int>,
    text: string, drop: bool, ack: bool, note: string, amendSeq: int,
    actor: Option<Actor>, at: Option<Time>)

  datatype PickupRecord = PickupRecord(by_: string, actor: Option<Actor>, at: Option<Time>)

  datatype NoteRecord = NoteRecord(body: string, reopen: bool, actor: Option<Actor>, at: Option<Time>)

  datatype CloseRecord = CloseRecord(
    outcome: string, links: seq<string>, expired: bool, actor: Option<Actor>, at: Option<Time>)

  datatype WithdrawRecord = WithdrawRecord(reason: string, actor: Option<Actor>, at: Option<Time>)

  datatype ParkRecord = ParkRecord(note: string, actor: Option<Actor>, at: Option<Time>)

  datatype ResumeRecord = ResumeRecord(actor: Option<Actor>, at: Option<Time>)

  datatype Record =
    | Opening(open: OpenRecord)
    | Amending(amend: AmendRecord)
    | Answering(answer: AnswerRecord)
    | PickingUp(pickup: PickupRecord)
    | Noting(note: NoteRecord)
    | Closing(close: CloseRecord)
    | Withdrawing(withdraw: WithdrawRecord)
    | Parking(park: ParkRecord)
    | Resuming(resume: ResumeRecord)
  {
    function Event(): EventType {
      match this
      case Opening(_) => OpenEvent
      case Amending(_) => AmendEvent
      case Answering(_) => AnswerEvent
      case PickingUp(_) => PickupEvent
      case Noting(_) => NoteEvent
      case Closing(_) => CloseEvent
      case Withdrawing(_) => WithdrawEvent
      case Parking(_) => ParkEvent
      case Resuming(_) => ResumeEvent
    }

    function Actor(): Option<Actor> {
      match this
      case Opening(r) => r.actor
      case Amending(r) => r.actor
      case Answering(r) => r.actor
      case PickingUp(r) => r.actor
      case Noting(r) => r.actor
      case Closing(r) => r.actor
      case Withdrawing(r) => r.actor
      case Parking(r) => r.actor
      case Resuming(r) => r.actor
    }

    function At(): Option<Time> {
      match this
      case Opening(r) => r.at
      case Amending(r) => r.at
      case Answering(r) => r.at
      case PickingUp(r) => r.at
      case Noting(r) => r.at
      case Closing(r) => r.at
      case Withdrawing(r) => r.at
      case Parking(r) => r.at
      case Resuming(r) => r.at
    }

    function WithActor(actor: Option<Actor>): (r: Record)
      ensures r.Event() == Event() && r.Actor() == actor && r.At() == At()
    {
      match this
      case Opening(r) => Opening(r.(actor := actor))
      case Amending(r) => Amending(r.(actor := actor))
      case Answering(r) => Answering(r.(actor := actor))
      case PickingUp(r) => PickingUp(r.(actor := actor))
      case Noting(r) => Noting(r.(actor := actor))
      case Closing(r) => Closing(r.(actor := actor))
      case Withdrawing(r) => Withdrawing(r.(actor := actor))
      case Parking(r) => Parking(r.(actor := actor))
      case Resuming(r) => Resuming(r.(actor := actor))
    }

    function WithAt(at: Option<Time>): (r: Record)
      ensures r.Event() == Event() && r.Actor() == Actor() && r.At() == at
    {
      match this
      case Opening(r) => Opening(r.(at := at))
      case Amending(r) => Amending(r.(at := at))
      case Answering(r) => Answering(r.(at := at))
      case PickingUp(r) => PickingUp(r.(at := at))
      case Noting(r) => Noting(r.(at := at))
      case Closing(r) => Closing(r.(at := at))
      case Withdrawing(r) => Withdrawing(r.(at := at))
      case Parking(r) => Parking(r.(at := at))
      case Resuming(r) => Resuming(r.(at := at))
    }
  }

  /** The records JSON text can give: whole numbers fit 64 bits, and an
      answer's `amend_seq` is a count. */
  predicate Readable(record: Record) {
    match record
    case Opening(r) => IsI64(r.recommend)
    case Amending(r) => IsI64(r.recommend)
    case Answering(r) =>
      IsI64(r.choice) && 0 <= r.amendSeq && IsI64(r.amendSeq) && forall n <- r.file :: IsI64(n)
    case _ => true
  }

  /** Reads a stored record of an event from JSON text, and writes one. */
  datatype Codec = Codec(read: (EventType, string) -> Option<Record>, toJson: Record -> string) {
    /** Reading gives a record of the event asked for, and a record that JSON
        can give reads back from the text it is written as. */
    ghost predicate Faithful() {
      && (forall e, text {:trigger read(e, text)} ::
            read(e, text).Some? ==> read(e, text).value.Event() == e && Readable(read(e, text).value))
      && (forall r: Record {:trigger toJson(r)} :: Readable(r) ==> read(r.Event(), toJson(r)) == Some(r))
    }
  }
}
