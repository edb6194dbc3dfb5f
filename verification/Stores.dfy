/** What a store promises its readers, and the smallest store that keeps the
    promise: one in memory. */
module Stores {
  import opened Wrappers
  import opened Names
  import opened Times
  import opened Records
  import opened Cases
  import opened CaseMachine
  import opened WriterLaws

  type Key = nat

  /** A store's version: opaque, compared only for being the same. */
  datatype Version = Version(tag: nat)

  datatype Changes =
    | NothingChanged(version: Version)
    | WhatChanged(version: Version, cases: seq<(Key, seq<Row>)>, removed: seq<Key>)
    | EveryCase(version: Version, cases: seq<(Key, seq<Row>)>)

  /** One moment of a store: its version and the rows of each case in it. */
  datatype Snapshot = Snapshot(version: Version, live: map<Key, seq<Row>>)

  /** A store never gives one version to two states of its cases that differ. */
  ghost predicate VersionsTell(history: seq<Snapshot>) {
    forall i, j | 0 <= i < j < |history| && history[i].version == history[j].version ::
      history[i].live == history[j].live
  }

  function Now(history: seq<Snapshot>): Snapshot
    requires history != []
  {
    history[|history| - 1]
  }

  /** Keys are given in rising order, so this is the order the cases were
      opened in. */
  predicate InOrder(cases: seq<(Key, seq<Row>)>) {
    forall i, j | 0 <= i < j < |cases| :: cases[i].0 < cases[j].0
  }

  /** Each case listed is in the store, with all its rows. */
  predicate ListsOnly(cases: seq<(Key, seq<Row>)>, live: map<Key, seq<Row>>) {
    forall i | 0 <= i < |cases| :: cases[i].0 in live && cases[i].1 == live[cases[i].0]
  }

  predicate Lists(cases: seq<(Key, seq<Row>)>, key: Key) {
    exists i | 0 <= i < |cases| :: cases[i].0 == key
  }

  /** One case more, before those of greater keys. */
  lemma ListsMore(first: (Key, seq<Row>), rest: seq<(Key, seq<Row>)>, live: map<Key, seq<Row>>)
    requires ListsOnly(rest, live) && InOrder(rest) && forall i | 0 <= i < |rest| :: first.0 < rest[i].0
    requires first.0 in live && live[first.0] == first.1
    ensures ListsOnly([first] + rest, live) && InOrder([first] + rest)
    ensures forall key: Key :: key == first.0 || Lists(rest, key) ==> Lists([first] + rest, key)
  {
    var list := [first] + rest;
    assert list[0] == first;
    forall i, j | 0 <= i < j < |list|
      ensures list[i].0 < list[j].0
    {
      assert list[j] == rest[j - 1];
      if i > 0 {
        assert list[i] == rest[i - 1];
      }
    }
    forall i | 0 <= i < |list|
      ensures list[i].0 in live && list[i].1 == live[list[i].0]
    {
      if i > 0 {
        assert list[i] == rest[i - 1];
      }
    }
    forall key: Key | Lists(rest, key)
      ensures Lists(list, key)
    {
      var i :| 0 <= i < |rest| && rest[i].0 == key;
      assert list[i + 1] == rest[i];
    }
  }

  /** What changed from one moment to another: every case with a row stored
      since, and every case gone since. `removed` may name more, none of them
      still there. */
  ghost predicate Covers(before: Snapshot, now: Snapshot, cases: seq<(Key, seq<Row>)>, removed: seq<Key>) {
    && (forall k <- now.live :: (k in before.live && before.live[k] == now.live[k]) || Lists(cases, k))
    && (forall k <- before.live :: k in now.live || k in removed)
    && (forall k <- removed :: k !in now.live)
  }

  /** What the contract lets a store answer a reader that holds `since`. */
  ghost predicate Answers(history: seq<Snapshot>, since: Option<Version>, changes: Changes)
    requires history != []
  {
    && changes.version == Now(history).version
    && match changes
       case NothingChanged(version) => since == Some(version)
       case EveryCase(_, cases) =>
         ListsOnly(cases, Now(history).live) && forall k <- Now(history).live :: Lists(cases, k)
       case WhatChanged(_, cases, removed) =>
         && ListsOnly(cases, Now(history).live)
         && exists i | 0 <= i < |history| ::
              since == Some(history[i].version) && Covers(history[i], Now(history), cases, removed)
  }

  datatype StoreError = Refused(category: Category) | NoCase

  /** The rows fold to a case, with no problem. */
  predicate Clean(codec: Codec, rows: seq<Row>) {
    Fold(codec, rows).Success? && Fold(codec, rows).value.problems == []
  }

  ghost predicate AllClean(codec: Codec, live: map<Key, seq<Row>>) {
    forall k <- live :: Clean(codec, live[k])
  }

  lemma OpenIsClean(codec: Codec, append: Append, now: Time, actor: Option<Actor>)
    requires codec.Faithful() && OpenCase(codec, append, now, actor).Success?
    ensures
      var (c, row) := OpenCase(codec, append, now, actor).value;
      Clean(codec, [row]) && Fold(codec, [row]) == Success(c)
  {
    hide Fold, OpenCase;
    OpenIsFold(codec, append, now, actor);
  }

  lemma AppendIsClean(
    codec: Codec, rows: seq<Row>, append: Append, now: Time, actor: Option<Actor>, atRevision: Option<nat>)
    requires codec.Faithful() && Clean(codec, rows)
    requires AppendTo(codec, Fold(codec, rows).value, append, now, actor, atRevision).Success?
    ensures
      var (c, row) := AppendTo(codec, Fold(codec, rows).value, append, now, actor, atRevision).value;
      Clean(codec, rows + [row]) && Fold(codec, rows + [row]) == Success(c)
  {
    hide Fold, AppendTo;
    AppendIsFold(codec, rows, append, now, actor, atRevision);
  }

  lemma FoldCounts(codec: Codec, rows: seq<Row>)
    requires Fold(codec, rows).Success?
    ensures Fold(codec, rows).value.revision == |rows|
  {
  }

  predicate RisingVersions(history: seq<Snapshot>) {
    forall i, j | 0 <= i < j < |history| :: history[i].version.tag < history[j].version.tag
  }

  // ----- the store in memory, as a value

  /** By key, the rows of each case, or none once it is out; and a count that
      goes up by one with each change. */
  datatype Shelf = Shelf(cases: seq<Option<seq<Row>>>, changes: nat) {
    predicate Has(key: Key) {
      key < |cases| && cases[key].Some?
    }

    function Live(): map<Key, seq<Row>> {
      map k: Key | 0 <= k < |cases| && cases[k].Some? :: cases[k].value
    }

    function Moment(): Snapshot {
      Snapshot(Version(changes), Live())
    }
  }

  function Created(codec: Codec, s: Shelf, append: Append, now: Time, writer: Actor): Shelf {
    match OpenCase(codec, append, now, Some(writer))
    case Success((_, row)) => Shelf(s.cases + [Some([row])], s.changes + 1)
    case Failure(_) => s
  }

  function Appended(
    codec: Codec, s: Shelf, key: Key, append: Append, now: Time, writer: Actor, atRevision: Option<nat>): Shelf
  {
    if !s.Has(key) || Fold(codec, s.cases[key].value).Failure? then s
    else
      var rows := s.cases[key].value;
      match AppendTo(codec, Fold(codec, rows).value, append, now, Some(writer), atRevision)
      case Success((_, row)) => Shelf(s.cases[key := Some(rows + [row])], s.changes + 1)
      case Failure(_) => s
  }

  function TakenOut(s: Shelf, key: Key, atRevision: Option<nat>): Shelf {
    if !s.Has(key) || (atRevision.Some? && atRevision.value != |s.cases[key].value|) then s
    else Shelf(s.cases[key := None], s.changes + 1)
  }

  /** Every case from key `k` on, in the order they were opened. */
  function ListFrom(s: Shelf, k: nat): (list: seq<(Key, seq<Row>)>)
    requires k <= |s.cases|
    ensures ListsOnly(list, s.Live()) && InOrder(list) && forall i | 0 <= i < |list| :: k <= list[i].0
    ensures forall key <- s.Live() :: k <= key ==> Lists(list, key)
    decreases |s.cases| - k
  {
    if k == |s.cases| then []
    else
      var rest := ListFrom(s, k + 1);
      if s.cases[k].None? then rest
      else
        ListsMore((k, s.cases[k].value), rest, s.Live());
        [(k, s.cases[k].value)] + rest
  }

  function AnswerOf(s: Shelf, since: Option<Version>): Changes {
    if since == Some(Version(s.changes)) then NothingChanged(Version(s.changes))
    else EveryCase(Version(s.changes), ListFrom(s, 0))
  }

  /** Whatever version a reader holds, its answer keeps the contract. */
  lemma AnswerKeepsContract(history: seq<Snapshot>, s: Shelf, since: Option<Version>)
    requires history != [] && Now(history) == s.Moment()
    ensures Answers(history, since, AnswerOf(s, since))
  {
  }

  lemma RisingVersionsTell(history: seq<Snapshot>)
    requires RisingVersions(history)
    ensures VersionsTell(history)
  {
  }

  // ----- and as the object it is

  class Memory {
    /** By key, the rows of each case, or none once it is out. */
    var cases: seq<Option<seq<Row>>>
    var archive: seq<(Key, seq<Row>)>
    /** Goes up by one with each change. */
    var changes: nat
    const now: Time
    /** Every moment of the store so far. */
    ghost var history: seq<Snapshot>

    function View(): Shelf
      reads this
    {
      Shelf(cases, changes)
    }

    function Live(): map<Key, seq<Row>>
      reads this
    {
      View().Live()
    }

    /** The history ends at this moment, its versions rise, and every case in
        the store folds with no problem. */
    ghost predicate Valid(codec: Codec)
      reads this
    {
      && codec.Faithful()
      && history != [] && Now(history) == View().Moment()
      && RisingVersions(history) && AllClean(codec, Live())
    }

    constructor (codec: Codec, now: Time)
      requires codec.Faithful()
      ensures Valid(codec) && View() == Shelf([], 0)
    {
      cases, archive, changes := [], [], 0;
      this.now := now;
      history := [Snapshot(Version(0), map[])];
    }

    /** Records a change, as every event, archive and delete does. */
    method Changed(codec: Codec)
      requires codec.Faithful() && history != [] && Now(history).version == Version(changes)
      requires RisingVersions(history) && AllClean(codec, Live())
      modifies `changes, `history
      ensures Valid(codec) && history == old(history) + [Snapshot(Version(changes), Live())]
      ensures changes == old(changes) + 1
    {
      changes := changes + 1;
      history := history + [Snapshot(Version(changes), Live())];
    }

    /** Opens a new case, under a key no case ever had. */
    method Create(codec: Codec, append: Append, writer: Actor) returns (r: Result<(Key, Case), StoreError>)
      requires Valid(codec)
      modifies this
      ensures Valid(codec) && archive == old(archive)
      ensures View() == Created(codec, old(View()), append, now, writer)
      ensures r.Failure? ==>
                && unchanged(this) && r.error.Refused?
                && OpenCase(codec, append, now, Some(writer)) == Failure(r.error.category)
      ensures r.Success? ==>
                && r.value.0 == old(|cases|) && r.value.0 in Live()
                && Live() == old(Live())[r.value.0 := Live()[r.value.0]]
                && Fold(codec, Live()[r.value.0]) == Success(r.value.1.View())
                && history == old(history) + [Snapshot(Version(old(changes) + 1), Live())]
    {
      hide Fold, OpenCase;
      var made := Case.Open(codec, append, now, Some(writer));
      if made.Failure? {
        return Failure(Refused(made.error));
      }
      var (begun, row) := made.value;
      assert Clean(codec, [row]) && Fold(codec, [row]) == Success(begun.View()) by {
        OpenIsClean(codec, append, now, Some(writer));
      }
      ghost var before := Live();
      cases := cases + [Some([row])];
      assert Live() == before[|cases| - 1 := [row]];
      Changed(codec);
      return Success((|cases| - 1, begun));
    }

    /** Appends an event to a case, or stores nothing. */
    method AppendRow(codec: Codec, key: Key, append: Append, writer: Actor, atRevision: Option<nat>)
      returns (r: Result<Case, StoreError>)
      requires Valid(codec)
      modifies this
      ensures Valid(codec) && archive == old(archive)
      ensures View() == Appended(codec, old(View()), key, append, now, writer, atRevision)
      ensures r.Failure? ==> unchanged(this)
      ensures r.Failure? && key !in old(Live()) ==> r.error == NoCase
      ensures key in old(Live()) && atRevision.Some? && atRevision.value != |old(Live())[key]| ==>
                r == Failure(Refused(Stale))
      ensures r.Failure? && key in old(Live()) ==>
                && r.error.Refused?
                && AppendTo(codec, old(Fold(codec, Live()[key]).value), append, now, Some(writer), atRevision)
                   == Failure(r.error.category)
      ensures r.Success? ==>
                && key in old(Live()) && key in Live()
                && Live() == old(Live())[key := Live()[key]]
                && old(Live()[key]) <= Live()[key] && |Live()[key]| == old(|Live()[key]|) + 1
                && Fold(codec, Live()[key]) == Success(r.value.View())
                && history == old(history) + [Snapshot(Version(old(changes) + 1), Live())]
    {
      hide Fold, AppendTo;
      if |cases| <= key || cases[key].None? {
        return Failure(NoCase);
      }
      var rows := cases[key].value;
      ghost var before := Live();
      assert key in before && before[key] == rows && Clean(codec, rows);
      var folded := Case.FoldRows(codec, rows);
      if folded.Failure? {
        return Failure(Refused(NoOpen));
      }
      var c := folded.value;
      FoldCounts(codec, rows);
      var appended := c.AppendEvent(codec, append, now, Some(writer), atRevision);
      if appended.Failure? {
        return Failure(Refused(appended.error));
      }
      var longer := rows + [appended.value];
      assert Clean(codec, longer) && Fold(codec, longer) == Success(c.View()) by {
        AppendIsClean(codec, rows, append, now, Some(writer), atRevision);
      }
      cases := cases[key := Some(longer)];
      assert Live() == before[key := longer];
      Changed(codec);
      return Success(c);
    }

    /** Takes a case out, if it is still at `atRevision`. */
    method TakeOut(codec: Codec, key: Key, atRevision: Option<nat>) returns (r: Result<seq<Row>, StoreError>)
      requires Valid(codec)
      modifies `cases, `changes, `history
      ensures Valid(codec)
      ensures View() == TakenOut(old(View()), key, atRevision)
      ensures r.Failure? ==> unchanged(this)
      ensures r.Success? <==> key in old(Live()) && (atRevision.Some? ==> atRevision.value == |old(Live())[key]|)
      ensures r.Failure? ==> r.error == if key in old(Live()) then Refused(Stale) else NoCase
      ensures r.Success? ==>
                && r.value == old(Live())[key] && Live() == old(Live()) - {key} && |cases| == old(|cases|)
                && history == old(history) + [Snapshot(Version(old(changes) + 1), Live())]
    {
      hide Clean;
      if |cases| <= key || cases[key].None? {
        return Failure(NoCase);
      }
      var rows := cases[key].value;
      if atRevision.Some? && atRevision.value != |rows| {
        return Failure(Refused(Stale));
      }
      ghost var before := Live();
      cases := cases[key := None];
      assert Live() == before - {key};
      Changed(codec);
      return Success(rows);
    }

    /** Moves a case into the archive, its rows as they were. */
    method Archive(codec: Codec, key: Key, atRevision: Option<nat>) returns (r: Result<seq<Row>, StoreError>)
      requires Valid(codec)
      modifies this
      ensures Valid(codec)
      ensures View() == TakenOut(old(View()), key, atRevision)
      ensures r.Failure? ==> unchanged(this)
      ensures r.Success? <==> key in old(Live()) && (atRevision.Some? ==> atRevision.value == |old(Live())[key]|)
      ensures r.Failure? ==> r.error == if key in old(Live()) then Refused(Stale) else NoCase
      ensures r.Success? ==>
                && r.value == old(Live())[key] && archive == old(archive) + [(key, r.value)]
                && Live() == old(Live()) - {key} && |cases| == old(|cases|)
                && history == old(history) + [Snapshot(Version(old(changes) + 1), Live())]
    {
      r := TakeOut(codec, key, atRevision);
      if r.Success? {
        archive := archive + [(key, r.value)];
      }
    }

    /** The whole list, unless the reader holds the version now. */
    method RowsSince(codec: Codec, since: Option<Version>) returns (r: Changes)
      requires Valid(codec)
      ensures r == AnswerOf(View(), since)
      ensures r.NothingChanged? <==> since == Some(Version(changes))
      ensures VersionsTell(history) && Answers(history, since, r)
      ensures r.EveryCase? ==> InOrder(r.cases)
    {
      RisingVersionsTell(history);
      AnswerKeepsContract(history, View(), since);
      var version := Version(changes);
      if since == Some(version) {
        return NothingChanged(version);
      }
      return EveryCase(version, ListFrom(View(), 0));
    }
  }
}
