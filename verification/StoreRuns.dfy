/** The poller over the store in memory: whatever is called on the store, and
    whenever it is polled, with nothing asked of either. */
module StoreRuns {
  import opened Wrappers
  import opened Times
  import opened Records
  import opened Cases
  import opened Stores
  import opened Poll

  /** What may be called: the store's writes, or a poll, which its read answers
      or fails. */
  datatype Call =
    | Creating(append: Append, writer: Actor)
    | Appending(key: Key, append: Append, writer: Actor, atRevision: Option<nat>)
    | Archiving(key: Key, atRevision: Option<nat>)
    | Deleting(key: Key, atRevision: Option<nat>)
    | Asking
    | AskingInVain

  const EMPTY: Shelf := Shelf([], 0)

  function Stored(codec: Codec, now: Time, s: Shelf, call: Call): Shelf {
    match call
    case Creating(append, writer) => Created(codec, s, append, now, writer)
    case Appending(key, append, writer, atRevision) => Appended(codec, s, key, append, now, writer, atRevision)
    case Archiving(key, atRevision) => TakenOut(s, key, atRevision)
    case Deleting(key, atRevision) => TakenOut(s, key, atRevision)
    case Asking => s
    case AskingInVain => s
  }

  function ReadFor(s: Shelf, cache: Cache, call: Call): Option<Changes> {
    if call.Asking? then Some(AnswerOf(s, cache.version)) else None
  }

  /** The store and the cache after some calls, and the moves they come to: a
      call that is refused is none. */
  function Ran(codec: Codec, now: Time, calls: seq<Call>): (Shelf, Cache, seq<Move>)
    decreases |calls|
  {
    if calls == [] then (EMPTY, Cache(None, map[]), [])
    else
      var (s, cache, moves) := Ran(codec, now, calls[..|calls| - 1]);
      var call := calls[|calls| - 1];
      if call.Asking? || call.AskingInVain? then
        var read := ReadFor(s, cache, call);
        (s, Polled(codec, cache, read), moves + [Polling(read)])
      else
        var t := Stored(codec, now, s, call);
        if t == s then (s, cache, moves) else (t, cache, moves + [Write(t.Moment())])
  }

  /** A write that is not refused moves the version on by one. */
  lemma WritesCount(codec: Codec, now: Time, s: Shelf, call: Call)
    ensures Stored(codec, now, s, call) == s || Stored(codec, now, s, call).changes == s.changes + 1
  {
    hide Fold, OpenCase, AppendTo;
  }

  /** The store's moments up to now. */
  ghost predicate Recorded(codec: Codec, s: Shelf, cache: Cache, moves: seq<Move>) {
    var (history, kept) := RunOf(codec, EMPTY.Moment(), moves);
    && Legal(codec, EMPTY.Moment(), moves) && kept == cache
    && RisingVersions(history) && Now(history) == s.Moment()
  }

  lemma WriteIsRecorded(codec: Codec, s: Shelf, cache: Cache, moves: seq<Move>, t: Shelf)
    requires Recorded(codec, s, cache, moves) && t.changes == s.changes + 1
    ensures Recorded(codec, t, cache, moves + [Write(t.Moment())])
  {
    hide Polled;
    var (history, _) := RunOf(codec, EMPTY.Moment(), moves);
    var next := moves + [Write(t.Moment())];
    assert next[..|next| - 1] == moves;
    assert forall i | 0 <= i < |history| :: history[i].version.tag <= Now(history).version.tag;
    assert RisingVersions(history + [t.Moment()]);
    RisingVersionsTell(history + [t.Moment()]);
  }

  lemma PollIsRecorded(codec: Codec, s: Shelf, cache: Cache, moves: seq<Move>, read: Option<Changes>)
    requires Recorded(codec, s, cache, moves) && (read.Some? ==> read.value == AnswerOf(s, cache.version))
    ensures Recorded(codec, s, Polled(codec, cache, read), moves + [Polling(read)])
  {
    hide Polled, AnswerOf;
    var (history, _) := RunOf(codec, EMPTY.Moment(), moves);
    var next := moves + [Polling(read)];
    assert next[..|next| - 1] == moves;
    AnswerKeepsContract(history, s, cache.version);
  }

  /** Every run of the store in memory keeps the contract the poller is proved
      against, and ends at the moment the store is in. */
  lemma {:induction false} MemoryRunsAreLegal(codec: Codec, now: Time, calls: seq<Call>)
    ensures var (s, cache, moves) := Ran(codec, now, calls); Recorded(codec, s, cache, moves)
    decreases |calls|
  {
    hide Recorded, Polled, Stored;
    if calls == [] {
      NothingRecorded(codec);
    } else {
      var init, call := calls[..|calls| - 1], calls[|calls| - 1];
      MemoryRunsAreLegal(codec, now, init);
      var (s, cache, moves) := Ran(codec, now, init);
      if call.Asking? || call.AskingInVain? {
        PollIsRecorded(codec, s, cache, moves, ReadFor(s, cache, call));
      } else {
        WritesCount(codec, now, s, call);
        if Stored(codec, now, s, call) != s {
          WriteIsRecorded(codec, s, cache, moves, Stored(codec, now, s, call));
        }
      }
    }
  }

  lemma NothingRecorded(codec: Codec)
    ensures Recorded(codec, EMPTY, Cache(None, map[]), [])
  {
  }

  /** So over the store in memory a poll that succeeds always leaves exactly the
      fold of every case there, at its version, whatever was called before. */
  lemma MemoryPollsAreExact(codec: Codec, now: Time, calls: seq<Call>)
    requires calls != [] && calls[|calls| - 1].Asking?
    ensures
      var (s, cache, _) := Ran(codec, now, calls);
      cache == Cache(Some(Version(s.changes)), FoldAll(codec, s.Live()))
  {
    hide Polled, FoldAll, Fold, Stored, AnswerOf, Legal;
    MemoryRunsAreLegal(codec, now, calls);
    var (_, _, moves) := Ran(codec, now, calls);
    RunsAreExact(codec, EMPTY.Moment(), moves);
  }
}
