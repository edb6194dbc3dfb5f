/** The poller: a cache of folded cases, brought up to date by what a store
    says moved. */
module Poll {
  import opened Wrappers
  import opened Names
  import opened Records
  import opened Cases
  import opened Stores

  type Folds = map<Key, Result<Folded, Category>>

  /** What a poller keeps: the version it read, none after a read that failed,
      and the cases folded then. */
  datatype Cache = Cache(version: Option<Version>, cases: Folds)

  /** Every case of a store, folded. */
  function FoldAll(codec: Codec, live: map<Key, seq<Row>>): Folds {
    map k <- live :: Fold(codec, live[k])
  }

  function Insert(codec: Codec, cases: Folds, changed: seq<(Key, seq<Row>)>): Folds
    decreases |changed|
  {
    if changed == [] then cases
    else
      var last := changed[|changed| - 1];
      Insert(codec, cases, changed[..|changed| - 1])[last.0 := Fold(codec, last.1)]
  }

  /** The cache after a poll that read `read`. */
  function Polled(codec: Codec, cache: Cache, read: Option<Changes>): Cache {
    match read
    case None => Cache(None, map[])
    case Some(NothingChanged(version)) => Cache(Some(version), cache.cases)
    case Some(WhatChanged(version, cases, removed)) =>
      Cache(Some(version), Insert(codec, cache.cases - (set k <- removed), cases))
    case Some(EveryCase(version, cases)) => Cache(Some(version), Insert(codec, map[], cases))
  }

  class Poller {
    var version: Option<Version>
    var cases: Folds

    constructor ()
      ensures View() == Cache(None, map[])
    {
      version, cases := None, map[];
    }

    function View(): Cache
      reads this
    {
      Cache(version, cases)
    }

    /** One poll, given what the store's read answered: none when it failed. */
    method PollOnce(codec: Codec, read: Option<Changes>) returns (ok: bool)
      modifies this
      ensures ok == read.Some?
      ensures View() == Polled(codec, old(View()), read)
    {
      hide Fold;
      if read.None? {
        version := None;
        cases := map[];
        return false;
      }
      var changed: seq<(Key, seq<Row>)> := [];
      match read.value {
        case NothingChanged(_) =>
        case WhatChanged(_, given, removed) =>
          for i := 0 to |removed|
            invariant version == old(version)
            invariant cases == old(cases) - (set k <- removed[..i])
          {
            cases := cases - {removed[i]};
            assert removed[..i + 1] == removed[..i] + [removed[i]];
          }
          assert removed[..|removed|] == removed;
          changed := given;
        case EveryCase(_, given) =>
          cases := map[];
          changed := given;
      }
      ghost var kept := cases;
      for i := 0 to |changed|
        invariant cases == Insert(codec, kept, changed[..i])
      {
        assert changed[..i + 1][..i] == changed[..i];
        cases := cases[changed[i].0 := Fold(codec, changed[i].1)];
      }
      assert changed[..|changed|] == changed;
      version := Some(read.value.version);
      return true;
    }
  }

  // ----- the poller equals a full read

  lemma {:induction false} InsertIs(codec: Codec, cases: Folds, changed: seq<(Key, seq<Row>)>, live: map<Key, seq<Row>>)
    requires ListsOnly(changed, live)
    ensures
      var all := Insert(codec, cases, changed);
      forall k :: (k in all <==> k in cases || Lists(changed, k))
                  && (Lists(changed, k) ==> k in live && all[k] == Fold(codec, live[k]))
                  && (k in cases && !Lists(changed, k) ==> all[k] == cases[k])
    decreases |changed|
  {
    hide Fold;
    if changed == [] {
    } else {
      var init, last := changed[..|changed| - 1], changed[|changed| - 1];
      InsertIs(codec, cases, init, live);
      forall k
        ensures Lists(changed, k) <==> Lists(init, k) || k == last.0
      {
        if Lists(init, k) {
          var i :| 0 <= i < |init| && init[i].0 == k;
          assert changed[i].0 == k;
        }
        assert changed[|changed| - 1].0 == last.0;
      }
    }
  }

  /** The cache is some past moment of the store, folded: the one whose version
      it holds. */
  ghost predicate IsMoment(codec: Codec, history: seq<Snapshot>, cache: Cache) {
    match cache.version
    case None => cache.cases == map[]
    case Some(version) =>
      exists i | 0 <= i < |history| :: history[i].version == version && cache.cases == FoldAll(codec, history[i].live)
  }

  /** A poll that succeeds leaves exactly the store's cases as they are now,
      each folded, at the version now, whichever answer the store gave. */
  lemma PollIsFullRead(codec: Codec, history: seq<Snapshot>, cache: Cache, changes: Changes)
    requires history != [] && VersionsTell(history) && IsMoment(codec, history, cache)
    requires Answers(history, cache.version, changes)
    ensures Polled(codec, cache, Some(changes)) == Cache(Some(Now(history).version), FoldAll(codec, Now(history).live))
  {
    hide Fold, Insert, IsMoment, Covers;
    match changes {
      case NothingChanged(version) =>
        VersionNamesMoment(codec, history, cache, |history| - 1);
      case EveryCase(_, cases) =>
        InsertIs(codec, map[], cases, Now(history).live);
        assert Insert(codec, map[], cases) == FoldAll(codec, Now(history).live);
      case WhatChanged(_, cases, removed) =>
        var i :| 0 <= i < |history| && cache.version == Some(history[i].version)
                 && Covers(history[i], Now(history), cases, removed);
        VersionNamesMoment(codec, history, cache, i);
        CoversSuffices(codec, history[i], Now(history), cases, removed);
    }
  }

  /** The cache is the moment of any version that is its own. */
  lemma VersionNamesMoment(codec: Codec, history: seq<Snapshot>, cache: Cache, i: nat)
    requires VersionsTell(history) && IsMoment(codec, history, cache)
    requires i < |history| && cache.version == Some(history[i].version)
    ensures cache.cases == FoldAll(codec, history[i].live)
  {
    hide FoldAll;
    var j :| 0 <= j < |history| && history[j].version == cache.version.value
             && cache.cases == FoldAll(codec, history[j].live);
    assert history[i].live == history[j].live;
  }

  /** What changed, dropped and inserted, turns one moment into the other. */
  lemma CoversSuffices(
    codec: Codec, before: Snapshot, now: Snapshot, cases: seq<(Key, seq<Row>)>, removed: seq<Key>)
    requires Covers(before, now, cases, removed) && ListsOnly(cases, now.live)
    ensures Insert(codec, FoldAll(codec, before.live) - (set k <- removed), cases) == FoldAll(codec, now.live)
  {
    hide Fold, Insert;
    InsertIs(codec, FoldAll(codec, before.live) - (set k <- removed), cases, now.live);
  }

  // ----- whole runs of writes and polls

  /** Either the store moves to another moment, or the poller polls and reads
      an answer, or fails to. */
  datatype Move = Write(next: Snapshot) | Polling(read: Option<Changes>)

  /** The store's history and the poller's cache after a run. */
  function RunOf(codec: Codec, start: Snapshot, moves: seq<Move>): (r: (seq<Snapshot>, Cache))
    ensures r.0 != []
    decreases |moves|
  {
    if moves == [] then ([start], Cache(None, map[]))
    else
      var (history, cache) := RunOf(codec, start, moves[..|moves| - 1]);
      match moves[|moves| - 1]
      case Write(next) => (history + [next], cache)
      case Polling(read) => (history, Polled(codec, cache, read))
  }

  /** Every write keeps versions telling states apart, and every read that
      succeeds keeps the store's contract. */
  ghost predicate Legal(codec: Codec, start: Snapshot, moves: seq<Move>)
    decreases |moves|
  {
    moves != [] ==>
      var init := moves[..|moves| - 1];
      var (history, cache) := RunOf(codec, start, init);
      && Legal(codec, start, init)
      && match moves[|moves| - 1]
         case Write(next) => VersionsTell(history + [next])
         case Polling(read) => read.Some? ==> Answers(history, cache.version, read.value)
  }

  /** Over any run, the cache is always some moment the store was in; and after
      a poll that succeeds it is this moment, exactly. */
  lemma {:induction false} RunsAreExact(codec: Codec, start: Snapshot, moves: seq<Move>)
    requires Legal(codec, start, moves)
    ensures
      var (history, cache) := RunOf(codec, start, moves);
      && VersionsTell(history) && IsMoment(codec, history, cache)
      && (moves != [] && moves[|moves| - 1].Polling? && moves[|moves| - 1].read.Some? ==>
            cache == Cache(Some(Now(history).version), FoldAll(codec, Now(history).live)))
    decreases |moves|
  {
    hide Fold, Polled;
    if moves == [] {
    } else {
      var init := moves[..|moves| - 1];
      RunsAreExact(codec, start, init);
      var (history, cache) := RunOf(codec, start, init);
      match moves[|moves| - 1] {
        case Write(next) =>
          MomentStays(codec, history, cache, next);
        case Polling(read) =>
          if read.Some? {
            PollIsFullRead(codec, history, cache, read.value);
          } else {
            assert Polled(codec, cache, None) == Cache(None, map[]) by {
              FailedPollForgets(codec, cache);
            }
          }
      }
    }
  }

  lemma FailedPollForgets(codec: Codec, cache: Cache)
    ensures Polled(codec, cache, None) == Cache(None, map[])
  {
  }

  lemma MomentStays(codec: Codec, history: seq<Snapshot>, cache: Cache, next: Snapshot)
    requires IsMoment(codec, history, cache)
    ensures IsMoment(codec, history + [next], cache)
  {
    if cache.version.Some? {
      var i :| 0 <= i < |history| && history[i].version == cache.version.value
               && cache.cases == FoldAll(codec, history[i].live);
      assert (history + [next])[i] == history[i];
    }
  }
}
