/** No update is lost: an append that gives the revision it was drawn at is
    accepted at that revision alone, over any run of a case and of the store in
    memory. */
module RevisionLaws {
  import opened Wrappers
  import opened Names
  import opened Times
  import opened Records
  import opened Cases
  import opened WriterLaws
  import opened Stores
  import opened Poll
  import opened StoreRuns

  // ----- one case

  /** Whether attempt `i` of a run was accepted. */
  predicate Accepted(codec: Codec, c: Folded, attempts: seq<Attempt>, i: nat)
    requires i < |attempts|
  {
    var a := attempts[i];
    AppendTo(codec, Run(codec, c, attempts[..i]).0, a.append, a.now, a.actor, a.atRevision).Success?
  }

  /** After an open and any attempts, an attempt at a revision that is not the
      number of rows stored is stale, whatever it is; so it is accepted at that
      number alone. */
  lemma StaleExactly(
    codec: Codec, append: Append, now: Time, actor: Option<Actor>, attempts: seq<Attempt>, next: Attempt)
    requires codec.Faithful() && OpenCase(codec, append, now, actor).Success? && next.atRevision.Some?
    ensures
      var (c, rows) := Run(codec, OpenCase(codec, append, now, actor).value.0, attempts);
      var r := AppendTo(codec, c, next.append, next.now, next.actor, next.atRevision);
      && (next.atRevision.value != 1 + |rows| ==> r == Failure(Stale))
      && (r.Success? ==> next.atRevision.value == 1 + |rows|)
  {
    RunIsFold(codec, append, now, actor, attempts);
    hide OpenCase, Run, Stamp, Store;
  }

  /** An attempt accepted makes one row more, and no attempt makes fewer. */
  lemma {:induction false} RevisionGrows(codec: Codec, c: Folded, attempts: seq<Attempt>, i: nat)
    requires i < |attempts|
    ensures Run(codec, c, attempts).0.revision >=
            Run(codec, c, attempts[..i]).0.revision + if Accepted(codec, c, attempts, i) then 1 else 0
    decreases |attempts|
  {
    hide Stamp, Take;
    var last := |attempts| - 1;
    if i == last {
    } else {
      var init := attempts[..last];
      assert init[..i] == attempts[..i] && init[i] == attempts[i];
      RevisionGrows(codec, c, init, i);
    }
  }

  /** Of two attempts at one revision at most one is ever accepted. */
  lemma OneAtARevision(codec: Codec, c: Folded, attempts: seq<Attempt>, i: nat, j: nat)
    requires i < j < |attempts| && attempts[i].atRevision.Some?
    requires attempts[i].atRevision == attempts[j].atRevision
    ensures !(Accepted(codec, c, attempts, i) && Accepted(codec, c, attempts, j))
  {
    hide Stamp, Store, Run;
    assert attempts[..j][..i] == attempts[..i] && attempts[..j][i] == attempts[i];
    RevisionGrows(codec, c, attempts[..j], i);
  }

  // ----- the store in memory

  /** How many rows the case under a key has, none when it is not there. */
  function RowsAt(s: Shelf, key: Key): nat {
    if s.Has(key) then |s.cases[key].value| else 0
  }

  /** The key and the revision a call is for, when it gives one. */
  function For(call: Call): Option<(Key, nat)> {
    match call
    case Appending(key, _, _, Some(n)) => Some((key, n))
    case Archiving(key, Some(n)) => Some((key, n))
    case Deleting(key, Some(n)) => Some((key, n))
    case _ => None
  }

  /** A call for a case at a revision changes the store only when exactly that
      many rows are stored in that case. */
  lemma ChangesAtItsRevision(codec: Codec, now: Time, s: Shelf, call: Call)
    requires For(call).Some? && Stored(codec, now, s, call) != s
    ensures s.Has(For(call).value.0) && RowsAt(s, For(call).value.0) == For(call).value.1
  {
    hide Replay, Stamp, Store;
  }

  predicate Changed(codec: Codec, now: Time, calls: seq<Call>, i: nat)
    requires i < |calls|
  {
    var s := Ran(codec, now, calls[..i]).0;
    Stored(codec, now, s, calls[i]) != s
  }

  /** What has been under a key has more rows since, or is out for good. */
  predicate Later(s: Shelf, t: Shelf, key: Key, more: nat) {
    && (key < |s.cases| ==> key < |t.cases|)
    && (t.Has(key) && key < |s.cases| ==> s.Has(key) && RowsAt(t, key) >= RowsAt(s, key) + more)
  }

  lemma CallIsLater(codec: Codec, now: Time, s: Shelf, call: Call, key: Key)
    ensures Later(s, Stored(codec, now, s, call), key, 0)
    ensures For(call).Some? && For(call).value.0 == key && Stored(codec, now, s, call) != s ==>
              Later(s, Stored(codec, now, s, call), key, 1)
  {
    hide Replay, Stamp, Store, OpenCase;
  }

  lemma RanSnoc(codec: Codec, now: Time, calls: seq<Call>)
    requires calls != []
    ensures
      var init, last := calls[..|calls| - 1], calls[|calls| - 1];
      Ran(codec, now, calls).0 == Stored(codec, now, Ran(codec, now, init).0, last)
  {
    hide Polled, Created, Appended, TakenOut;
  }

  lemma {:induction false} RunIsLater(codec: Codec, now: Time, calls: seq<Call>, i: nat, key: Key)
    requires i < |calls|
    ensures
      var more := if Changed(codec, now, calls, i) && For(calls[i]).Some? && For(calls[i]).value.0 == key then 1 else 0;
      Later(Ran(codec, now, calls[..i]).0, Ran(codec, now, calls).0, key, more)
    decreases |calls|
  {
    hide Ran, Stored;
    var last := |calls| - 1;
    var init := calls[..last];
    RanSnoc(codec, now, calls);
    CallIsLater(codec, now, Ran(codec, now, init).0, calls[last], key);
    if i == last {
    } else {
      assert init[..i] == calls[..i] && init[i] == calls[i];
      RunIsLater(codec, now, init, i, key);
    }
  }

  /** Over any run of the store in memory, of two calls for one case at one
      revision at most one changes the store: an append, an archive or a delete
      never takes the place of another that it did not see. */
  lemma OneCallAtARevision(codec: Codec, now: Time, calls: seq<Call>, i: nat, j: nat)
    requires i < j < |calls| && For(calls[i]).Some? && For(calls[i]) == For(calls[j])
    ensures !(Changed(codec, now, calls, i) && Changed(codec, now, calls, j))
  {
    hide Ran, Stored;
    if Changed(codec, now, calls, i) && Changed(codec, now, calls, j) {
      var key := For(calls[i]).value.0;
      assert calls[..j][..i] == calls[..i] && calls[..j][i] == calls[i];
      RunIsLater(codec, now, calls[..j], i, key);
      ChangesAtItsRevision(codec, now, Ran(codec, now, calls[..i]).0, calls[i]);
      ChangesAtItsRevision(codec, now, Ran(codec, now, calls[..j]).0, calls[j]);
      assert false;
    }
  }
}
