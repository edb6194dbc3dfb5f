/** Freshness: what `since` may conclude about a form drawn earlier, from the
    two numbers the form keeps. */
module Freshness {
  import opened Wrappers
  import opened Seqs
  import opened Names
  import opened Records
  import opened Cases
  import opened CaseMachine

  datatype Since = Unchanged | Moved | Changed

  /** Rows and events are numbered in rising order. */
  predicate Rising(events: seq<Event>) {
    forall i, j | 0 <= i < j < |events| :: events[i].seqNo < events[j].seqNo
  }

  /** What a binary search asks for: the events numbered `seqNo` or below come
      before the others. */
  predicate Partitioned(events: seq<Event>, seqNo: nat) {
    forall i, j | 0 <= i < j < |events| && events[j].seqNo <= seqNo :: events[i].seqNo <= seqNo
  }

  predicate RisingRows(rows: seq<Row>) {
    forall i, j | 0 <= i < j < |rows| :: rows[i].seqNo < rows[j].seqNo
  }

  /** How many leading events are numbered `seqNo` or below. */
  function PartitionPoint(events: seq<Event>, seqNo: nat): (n: nat)
    ensures n <= |events|
    ensures forall i | 0 <= i < n :: events[i].seqNo <= seqNo
    ensures n < |events| ==> events[n].seqNo > seqNo
    ensures Partitioned(events, seqNo) ==> forall i | n <= i < |events| :: events[i].seqNo > seqNo
  {
    if events == [] || events[0].seqNo > seqNo then 0 else 1 + PartitionPoint(events[1..], seqNo)
  }

  /** A note or an amend taken in `state`. */
  predicate Keeps(e: Event, state: State) {
    (e.record.Event() == NoteEvent || e.record.Event() == AmendEvent) && e.from == Some(state)
  }

  /** The states a case was in before each event, and the one it is in. */
  function Path(events: seq<Event>, state: State): seq<Option<State>> {
    seq(|events|, i requires 0 <= i < |events| => events[i].from) + [Some(state)]
  }

  /** No state comes back once the path has left it. */
  predicate NoReturn<T(==)>(path: seq<T>) {
    forall i, j, k | 0 <= i < j < k < |path| :: path[i] == path[k] ==> path[j] == path[i]
  }

  predicate AllKnown(path: seq<Option<State>>) {
    forall p <- path :: p.Some?
  }

  /** What a form may take of the case now, by the revision and the last seq it
      was drawn with. */
  function SinceOf(c: Folded, revision: nat, seqNo: nat): Since {
    var events := c.now.events;
    var added := events[PartitionPoint(events, seqNo)..];
    if revision == c.revision then Unchanged
    else if revision > c.revision then Changed
    else if |added| != c.revision - revision then Changed
    else if c.now.amendSeq > seqNo && c.now.kind.Opener() != Human then Changed
    else if forall e <- added :: Keeps(e, c.now.state) then Unchanged
    else
      var path := Path(added, c.now.state);
      if AllKnown(path) && NoReturn(path) then Moved else Changed
  }

  const STATES: nat := 7

  /** Distinct states number at most seven. */
  lemma StatesArePigeonholes(s: seq<State>)
    requires Distinct(s)
    ensures |s| <= STATES
  {
    var all := {State.Open, Answered, PickedUp, Closed, Withdrawn, Parked, Sent};
    DistinctSize(s);
    forall x: State
      ensures x in all
    {
      match x {
        case Open => case Answered => case PickedUp => case Closed => case Withdrawn => case Parked => case Sent =>
      }
    }
    SubsetIsNoLarger(Members(s), all);
  }

  /** The walk of `Case::since` over the states passed, with a bounded array
      of those it has left: whether each is known and none comes back. No
      write leaves the array. */
  method Walk(path: seq<Option<State>>, state: State) returns (moved: bool)
    ensures moved == (AllKnown(path) && NoReturn(path))
  {
    var left := new State[STATES](_ => state);
    var passed := 0;
    var at: Option<State> := None;
    for i := 0 to |path|
      invariant passed <= left.Length == STATES
      invariant at == (if i == 0 then None else path[i - 1]) && (i == 0 ==> passed == 0)
      invariant AllKnown(path[..i]) && NoReturn(path[..i])
      invariant Distinct(left[..passed]) && (at.Some? ==> at.value !in left[..passed])
      invariant forall k | 0 <= k < i :: path[k] == at || (path[k].Some? && path[k].value in left[..passed])
      invariant forall s <- left[..passed] :: exists k | 0 <= k < i :: path[k] == Some(s)
    {
      assert path[..i + 1] == path[..i] + [path[i]];
      if path[i].None? {
        assert path[i] in path;
        return false;
      }
      var next := path[i].value;
      if at.Some? && at.value == next {
        NoReturnStays(path[..i], path[i]);
        continue;
      }
      if at.Some? {
        if next in left[..passed] {
          ReturnIsSeen(path, i, next);
          return false;
        }
        StatesArePigeonholes(left[..passed] + [at.value] + [next]);
        ghost var before := left[..passed];
        left[passed] := at.value;
        passed := passed + 1;
        assert left[..passed] == before + [at.value];
        NoReturnNew(path[..i], path[i]);
      }
      at := Some(next);
    }
    assert path[..|path|] == path;
    return true;
  }

  /** `Case::since`, checked against `SinceOf`. */
  method SinceDrawn(c: Case, revision: nat, seqNo: nat) returns (r: Since)
    requires Partitioned(c.events, seqNo)
    ensures r == SinceOf(c.View(), revision, seqNo)
  {
    hide AllKnown, NoReturn, Keeps, Path, Partitioned;
    if revision == c.revision {
      return Unchanged;
    }
    if revision > c.revision {
      return Changed;
    }
    var since := c.events[PartitionPoint(c.events, seqNo)..];
    if |since| != c.revision - revision {
      return Changed;
    }
    if c.amendSeq > seqNo && c.kind.Opener() != Human {
      return Changed;
    }
    if forall e <- since :: Keeps(e, c.state) {
      return Unchanged;
    }
    var moved := Walk(Path(since, c.state), c.state);
    return if moved then Moved else Changed;
  }

  lemma NoReturnStays<T>(path: seq<T>, x: T)
    requires NoReturn(path) && path != [] && path[|path| - 1] == x
    ensures NoReturn(path + [x])
  {
    var all, last := path + [x], |path| - 1;
    forall i, j, k | 0 <= i < j < k < |all| && all[i] == all[k]
      ensures all[j] == all[i]
    {
      if k == |path| && j < last {
        assert path[i] == path[last];
      }
    }
  }

  lemma NoReturnNew<T>(path: seq<T>, x: T)
    requires NoReturn(path) && x !in path
    ensures NoReturn(path + [x])
  {
    var all := path + [x];
    assert forall i | 0 <= i < |path| :: path[i] in path && path[i] != x;
  }

  lemma ReturnIsSeen(path: seq<Option<State>>, i: nat, next: State)
    requires 0 < i < |path| && path[i] == Some(next) && path[i - 1] != path[i]
    requires exists k | 0 <= k < i :: path[k] == Some(next)
    ensures !NoReturn(path)
  {
    var k :| 0 <= k < i && path[k] == Some(next);
    assert path[k] == path[i] && path[i - 1] != path[k];
  }
}
