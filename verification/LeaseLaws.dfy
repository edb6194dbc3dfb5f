/** What the lease protocol promises, over every interleaving. */
module LeaseLaws {
  import opened Wrappers
  import L = Locks
  import opened Leases

  // ----- the invariant

  /** A party's locks are what the log says of its owner; a hold by id has
      locks only while its lease runs. */
  predicate PartyFits(p: Party, o: Owner, log: seq<Entry>, length: nat) {
    && p.taken.until == Deadline(log, o, length)
    && ScopesOf(p.taken.held) == Granting(log, o)
    && p.taken.releases == Said(log, o)
    && p.taken.lapsed == Lapsing(log, o)
    && (!p.http ==> (p.taken.ended <==> p.phase == Gone))
    && (p.http ==> (p.taken.held != [] ==> p.taken.until.Some?) && p.phase != Ending && !p.taken.ended)
    && (p.http && p.transit.Some? ==> p.phase == Unpublished && p.taken.held == [])
    && (!p.http ==> p.phase != Unpublished && (p.phase != Serving ==> p.transit.None?))
    && (p.phase == Gone ==> p.taken.held == [] && p.taken.until.None?)
  }

  ghost predicate WorldFits(w: World) {
    && LogSound(w.log, w.length)
    && (forall o <- w.parties :: PartyFits(w.parties[o], o, w.log, w.length))
    && (forall i | 0 <= i < |w.log| :: w.log[i].owner in w.parties)
    && (forall i | 0 <= i < |w.log| ::
          w.log[i].LetGo? && w.log[i].why == Ended ==> !w.parties[w.log[i].owner].http)
    && (forall a, b | a in w.parties && b in w.parties && a != b :: Holds(w.parties[a]) !! Holds(w.parties[b]))
  }

  // ----- the log, one entry more

  lemma OneMore(log: seq<Entry>, e: Entry, o: Owner, length: nat)
    ensures Deadline(log + [e], o, length) ==
            if e.owner != o then Deadline(log, o, length)
            else
              match e
              case Granted(_, _, lease, at) => if lease.Some? then Some(at + length) else Deadline(log, o, length)
              case Renewed(_, ok, at) => if ok then Some(at + length) else Deadline(log, o, length)
              case LetGo(_, _, _) => None
    ensures Granting(log + [e], o) ==
            if e.owner != o || e.Renewed? then Granting(log, o)
            else if e.LetGo? then {}
            else Granting(log, o) + if e.held.Some? then e.held.value.scopes else {}
    ensures Said(log + [e], o) ==
            if e.owner != o || e.Renewed? then Said(log, o)
            else if e.LetGo? then (if e.why == Released || e.why == Dropped then false else Said(log, o))
            else if e.lease.Some? then e.lease.value else Said(log, o)
    ensures Lapsing(log + [e], o) ==
            if e.owner != o || e.Renewed? then Lapsing(log, o)
            else if e.LetGo? then e.why != Dropped && (Lapsing(log, o) || e.why == Lapsed)
            else Lapsing(log, o) && e.lease.None?
  {
    assert (log + [e])[..|log|] == log;
  }

  lemma {:induction false} StrangerHasNothing(log: seq<Entry>, o: Owner, length: nat)
    requires forall i | 0 <= i < |log| :: log[i].owner != o
    ensures Deadline(log, o, length) == None && Granting(log, o) == {} && !Said(log, o) && !Lapsing(log, o)
    decreases |log|
  {
    if log == [] {
    } else {
      StrangerHasNothing(log[..|log| - 1], o, length);
    }
  }

  lemma ScopesJoin(held: seq<L.Held>, h: L.Held)
    ensures ScopesOf(held + [h]) == ScopesOf(held) + h.scopes
  {
    assert (held + [h])[..|held|] == held;
  }

  lemma LogGrows(log: seq<Entry>, e: Entry, length: nat)
    requires LogSound(log, length) && EntryFits(log, e, length) && Exclusive(log, e)
    ensures LogSound(log + [e], length)
  {
    hide EntryFits, Exclusive;
    var all := log + [e];
    forall i | 0 <= i < |all|
      ensures EntryFits(all[..i], all[i], length) && Exclusive(all[..i], all[i])
    {
      if i < |log| {
        assert all[..i] == log[..i] && all[i] == log[i];
      } else {
        assert all[..i] == log && all[i] == e;
      }
    }
  }

  /** Others' locks are as they were when an entry is not theirs. */
  lemma OthersFit(p: Party, o: Owner, log: seq<Entry>, e: Entry, length: nat)
    requires PartyFits(p, o, log, length) && e.owner != o
    ensures PartyFits(p, o, log + [e], length)
  {
    OneMore(log, e, o, length);
  }

  // ----- changing one party

  ghost predicate Apart(w: World, o: Owner, p: Party) {
    forall other | other in w.parties && other != o :: Holds(p) !! Holds(w.parties[other])
  }

  lemma PutQuietly(w: World, o: Owner, p: Party)
    requires WorldFits(w) && PartyFits(p, o, w.log, w.length) && Apart(w, o, p)
    requires o in w.parties ==> p.http == w.parties[o].http
    ensures WorldFits(Put(w, o, p, []))
  {
    hide PartyFits, LogSound, Holds;
    assert w.log + [] == w.log;
  }

  lemma PutWithEntry(w: World, o: Owner, p: Party, e: Entry)
    requires WorldFits(w) && PartyFits(p, o, w.log + [e], w.length) && Apart(w, o, p)
    requires o in w.parties ==> p.http == w.parties[o].http
    requires e.owner == o && EntryFits(w.log, e, w.length) && Exclusive(w.log, e)
    requires e.LetGo? && e.why == Ended ==> !p.http
    ensures WorldFits(Put(w, o, p, [e]))
  {
    hide PartyFits, LogSound, Holds, EntryFits, Exclusive;
    LogGrows(w.log, e, w.length);
    forall other | other in w.parties && other != o
      ensures PartyFits(w.parties[other], other, w.log + [e], w.length)
    {
      OthersFit(w.parties[other], other, w.log, e, w.length);
    }
  }

  /** What a party of a sound world holds, no one else was granted. */
  lemma GrantIsExclusive(w: World, o: Owner, held: L.Held, e: Entry)
    requires WorldFits(w) && e.Granted? && e.owner == o && e.held == Some(held)
    requires forall other | other in w.parties && other != o :: held.scopes !! Holds(w.parties[other])
    ensures Exclusive(w.log, e)
  {
    hide LogSound;
    forall other | other != o
      ensures Granting(w.log, other) !! held.scopes
    {
      if other in w.parties {
        assert PartyFits(w.parties[other], other, w.log, w.length);
      } else {
        StrangerHasNothing(w.log, other, w.length);
      }
    }
  }

  lemma SmallerStaysApart(w: World, o: Owner, p: Party)
    requires WorldFits(w) && o in w.parties && Holds(p) <= Holds(w.parties[o])
    ensures Apart(w, o, p)
  {
    hide LogSound, PartyFits, Holds;
  }

  // ----- every action keeps it

  lemma NewPartyKeeps(w: World, a: Action)
    requires WorldFits(w) && (a.Connect? || a.HttpAcquire? || a.HttpNoStore?) && a.o !in w.parties
    ensures WorldFits(Next(w, a))
  {
    StrangerHasNothing(w.log, a.o, w.length);
    match a {
      case Connect(o) =>
        PutQuietly(w, o, Party(L.NOTHING, false, Serving, None));
      case HttpAcquire(o, scopes) =>
        if Free(w, scopes) {
          PutQuietly(w, o, Party(L.NOTHING, true, Unpublished, Some(L.Held(scopes))));
        }
      case HttpNoStore(o) =>
        var e := Granted(o, None, Some(true), w.now);
        OneMore(w.log, e, o, w.length);
        PutWithEntry(w, o, Party(L.Keep(L.NOTHING, None, Some(true), w.now, w.length), true, Unpublished, None), e);
    }
  }

  /** What a take leaves its party is what its entry says. */
  lemma KeptFits(w: World, o: Owner, lease: Option<bool>)
    requires WorldFits(w) && o in w.parties
    requires w.parties[o].transit.Some? && (w.parties[o].http ==> lease == Some(true))
    ensures
      var p := w.parties[o];
      var e := Granted(o, p.transit, lease, w.now);
      && PartyFits(
           p.(taken := L.Keep(p.taken, p.transit, lease, w.now, w.length), transit := None), o, w.log + [e], w.length)
      && EntryFits(w.log, e, w.length)
  {
    hide LogSound;
    var p := w.parties[o];
    ScopesJoin(p.taken.held, p.transit.value);
    OneMore(w.log, Granted(o, p.transit, lease, w.now), o, w.length);
  }

  /** And what it grants was no one else's. */
  lemma KeptApart(w: World, o: Owner, lease: Option<bool>)
    requires WorldFits(w) && o in w.parties && w.parties[o].transit.Some?
    ensures
      var p := w.parties[o];
      && Apart(w, o, p.(taken := L.Keep(p.taken, p.transit, lease, w.now, w.length), transit := None))
      && Exclusive(w.log, Granted(o, p.transit, lease, w.now))
  {
    hide LogSound, PartyFits, Exclusive, Apart;
    var p := w.parties[o];
    ScopesJoin(p.taken.held, p.transit.value);
    SmallerStaysApart(w, o, p.(taken := L.Keep(p.taken, p.transit, lease, w.now, w.length), transit := None));
    GrantIsExclusive(w, o, p.transit.value, Granted(o, p.transit, lease, w.now));
  }

  lemma KeepKeeps(w: World, o: Owner, lease: Option<bool>)
    requires WorldFits(w) && o in w.parties
    ensures WorldFits(Step(w, Action.Keep(o, lease), w.parties[o]))
  {
    hide WorldFits, PartyFits, EntryFits, Exclusive, Apart, L.Keep;
    var p := w.parties[o];
    if p.transit.Some? && (p.http ==> lease == Some(true)) {
      var p' := p.(taken := L.Keep(p.taken, p.transit, lease, w.now, w.length), transit := None);
      KeptFits(w, o, lease);
      KeptApart(w, o, lease);
      PutWithEntry(w, o, p', Granted(o, p.transit, lease, w.now));
    }
  }

  /** A request, the watch, an end or a wake lets go or renews, and takes
      nothing more. */
  lemma ShrinkKeeps(w: World, o: Owner, p: Party, e: Entry)
    requires WorldFits(w) && o in w.parties && e.owner == o
    requires p.http == w.parties[o].http && p.transit == w.parties[o].transit
    requires ScopesOf(p.taken.held) <= ScopesOf(w.parties[o].taken.held)
    requires PartyFits(p, o, w.log + [e], w.length)
    requires EntryFits(w.log, e, w.length) && (e.Granted? ==> e.held.None?)
    requires e.LetGo? && e.why == Ended ==> !p.http
    ensures WorldFits(Put(w, o, p, [e]))
  {
    hide PartyFits, LogSound, EntryFits;
    SmallerStaysApart(w, o, p);
    PutWithEntry(w, o, p, e);
  }

  /** What a client asks for. */
  predicate IsRequest(a: Action) {
    a.Acquire? || a.NoStore? || a.Renew? || a.Release?
  }

  lemma RequestKeeps(w: World, a: Action)
    requires WorldFits(w) && IsRequest(a) && a.o in w.parties
    ensures WorldFits(Step(w, a, w.parties[a.o]))
  {
    var p := w.parties[a.o];
    hide LogSound;
    match a {
      case Acquire(o, scopes) =>
        if !p.http && Reachable(p) && Free(w, scopes) {
          PutQuietly(w, o, p.(transit := Some(L.Held(scopes))));
        }
      case NoStore(o, lease) =>
        var e := Granted(o, None, lease, w.now);
        OneMore(w.log, e, o, w.length);
        if !p.http && Reachable(p) {
          ShrinkKeeps(w, o, p.(taken := L.Keep(p.taken, None, lease, w.now, w.length)), e);
        }
      case Renew(o) =>
        var e := Renewed(o, p.taken.until.Some?, w.now);
        OneMore(w.log, e, o, w.length);
        if Reachable(p) {
          ShrinkKeeps(w, o, p.(taken := L.Renew(p.taken, w.now, w.length)), e);
        }
      case Release(o) =>
        OneMore(w.log, LetGo(o, Released, w.now), o, w.length);
        if Reachable(p) {
          ShrinkKeeps(w, o, p.(taken := L.Release(p.taken)), LetGo(o, Released, w.now));
        }
    }
  }

  lemma EventKeeps(w: World, a: Action)
    requires WorldFits(w) && !a.Tick? && !IsRequest(a) && a.o in w.parties && !a.Keep?
    ensures WorldFits(Step(w, a, w.parties[a.o]))
  {
    var p := w.parties[a.o];
    hide LogSound;
    match a {
      case Watch(o) =>
        OneMore(w.log, LetGo(o, Lapsed, w.now), o, w.length);
        if !p.http && !p.taken.ended && L.RunOut(p.taken, w.now) {
          ShrinkKeeps(w, o, p.(taken := L.Watch(p.taken, w.now)), LetGo(o, Lapsed, w.now));
        }
      case Close(o) =>
        if !p.http && Reachable(p) {
          SmallerStaysApart(w, o, p.(phase := Ending));
          PutQuietly(w, o, p.(phase := Ending));
        }
      case End(o) =>
        OneMore(w.log, LetGo(o, Ended, w.now), o, w.length);
        if p.phase == Ending && !L.MustWait(p.taken, w.now) {
          ShrinkKeeps(w, o, p.(taken := L.End(p.taken, w.now), phase := Gone), LetGo(o, Ended, w.now));
        }
      case Publish(o) =>
        if p.phase == Unpublished && p.transit.None? {
          SmallerStaysApart(w, o, p.(phase := Serving));
          PutQuietly(w, o, p.(phase := Serving));
        }
      case Fail(o) =>
        OneMore(w.log, LetGo(o, Dropped, w.now), o, w.length);
        if p.phase == Unpublished && p.transit.None? {
          ShrinkKeeps(w, o, p.(taken := L.NOTHING, phase := Gone), LetGo(o, Dropped, w.now));
        }
      case Wake(o) =>
        OneMore(w.log, LetGo(o, Lapsed, w.now), o, w.length);
        if p.http && p.phase == Serving {
          var (taken, done) := L.LetGo(p.taken, w.now);
          var p' := p.(taken := taken, phase := if done then Gone else Serving);
          if L.RunOut(p.taken, w.now) {
            ShrinkKeeps(w, o, p', LetGo(o, Lapsed, w.now));
          } else {
            SmallerStaysApart(w, o, p');
            PutQuietly(w, o, p');
          }
        }
      case _ =>
    }
  }

  lemma NextKeeps(w: World, a: Action)
    requires WorldFits(w)
    ensures WorldFits(Next(w, a))
  {
    hide PartyFits, LogSound, Holds, Step;
    if a.Tick? {
    } else if a.o !in w.parties {
      if a.Connect? || a.HttpAcquire? || a.HttpNoStore? {
        NewPartyKeeps(w, a);
      }
    } else if a.Keep? {
      KeepKeeps(w, a.o, a.lease);
    } else {
      if IsRequest(a) {
        RequestKeeps(w, a);
      } else {
        EventKeeps(w, a);
      }
    }
  }

  /** Every world any interleaving reaches is sound. */
  lemma {:induction false} EveryRunFits(length: nat, actions: seq<Action>)
    ensures WorldFits(RunOf(length, actions))
    decreases |actions|
  {
    hide Next;
    if actions == [] {
    } else {
      EveryRunFits(length, actions[..|actions| - 1]);
      NextKeeps(RunOf(length, actions[..|actions| - 1]), actions[|actions| - 1]);
    }
  }

  // ----- renewals

  /** A leased take by `o`. */
  predicate LeasedTake(e: Entry, o: Owner) {
    e.Granted? && e.owner == o && e.lease.Some?
  }

  predicate NoLeasedTake(log: seq<Entry>, o: Owner, lo: nat, hi: nat) {
    forall k | lo <= k < hi && k < |log| :: !LeasedTake(log[k], o)
  }

  lemma {:induction false} DeadStaysDead(log: seq<Entry>, o: Owner, length: nat, lo: nat, hi: nat)
    requires LogSound(log, length) && lo <= hi <= |log|
    requires Deadline(log[..lo], o, length).None? && NoLeasedTake(log, o, lo, hi)
    ensures Deadline(log[..hi], o, length).None?
    decreases hi
  {
    hide Exclusive;
    if lo == hi {
    } else {
      DeadStaysDead(log, o, length, lo, hi - 1);
      assert log[..hi] == log[..hi - 1] + [log[hi - 1]];
      assert EntryFits(log[..hi - 1], log[hi - 1], length);
      OneMore(log[..hi - 1], log[hi - 1], o, length);
    }
  }

  /** Once an owner's locks are let go, for whatever reason, every renewal is
      refused until a new leased take. */
  lemma LetGoRefusesRenewals(length: nat, actions: seq<Action>, i: nat, j: nat)
    requires
      var log := RunOf(length, actions).log;
      i < j < |log| && log[i].LetGo? && log[j].Renewed? && log[i].owner == log[j].owner && log[j].ok
    ensures
      var log := RunOf(length, actions).log;
      exists k | i < k < j :: LeasedTake(log[k], log[i].owner)
  {
    hide RunOf, Exclusive;
    EveryRunFits(length, actions);
    var log := RunOf(length, actions).log;
    var o := log[i].owner;
    assert log[..i + 1] == log[..i] + [log[i]];
    OneMore(log[..i], log[i], o, length);
    RunKeepsLength(length, actions);
    assert EntryFits(log[..j], log[j], length);
    if NoLeasedTake(log, o, i + 1, j) {
      DeadStaysDead(log, o, length, i + 1, j);
    }
  }

  lemma {:induction false} RunKeepsLength(length: nat, actions: seq<Action>)
    ensures RunOf(length, actions).length == length
    decreases |actions|
  {
    if actions == [] {
    } else {
      RunKeepsLength(length, actions[..|actions| - 1]);
    }
  }

  lemma {:induction false} GrantStands(log: seq<Entry>, o: Owner, lo: nat, hi: nat)
    requires lo < hi <= |log| && log[lo].Granted? && log[lo].owner == o && log[lo].held.Some?
    requires forall k | lo < k < hi :: !(log[k].LetGo? && log[k].owner == o)
    ensures log[lo].held.value.scopes <= Granting(log[..hi], o)
    decreases hi
  {
    assert log[..hi] == log[..hi - 1] + [log[hi - 1]];
    OneMore(log[..hi - 1], log[hi - 1], o, 0);
    if lo + 1 == hi {
    } else {
      GrantStands(log, o, lo, hi - 1);
    }
  }

  /** A renewal answered 200 means the locks of the leased take before it were
      held all along: none was let go since, and no one else was granted any
      of them, however late the renewal came and however late the watch. */
  lemma RenewedMeansHeld(length: nat, actions: seq<Action>, i: nat, j: nat)
    requires
      var log := RunOf(length, actions).log;
      && i < j < |log| && log[i].Granted? && log[i].lease.Some? && log[i].held.Some?
      && log[j].Renewed? && log[j].ok && log[j].owner == log[i].owner
      && NoLeasedTake(log, log[i].owner, i + 1, j)
    ensures
      var log := RunOf(length, actions).log;
      forall k | i < k < j ::
        && !(log[k].LetGo? && log[k].owner == log[i].owner)
        && (log[k].Granted? && log[k].owner != log[i].owner && log[k].held.Some? ==>
              log[k].held.value.scopes !! log[i].held.value.scopes)
  {
    hide RunOf;
    EveryRunFits(length, actions);
    RunKeepsLength(length, actions);
    var log := RunOf(length, actions).log;
    var o := log[i].owner;
    forall k | i < k < j
      ensures !(log[k].LetGo? && log[k].owner == o)
    {
      if log[k].LetGo? && log[k].owner == o {
        LetGoRefusesRenewals(length, actions, k, j);
      }
    }
    forall k | i < k < j && log[k].Granted? && log[k].owner != o && log[k].held.Some?
      ensures log[k].held.value.scopes !! log[i].held.value.scopes
    {
      GrantStands(log, o, i, k);
      assert Exclusive(log[..k], log[k]);
    }
  }

  // ----- the end of a connection, and of a hold

  /** A connection that ended after its wait said it lets its locks go itself,
      and before it did, keeps them until its last deadline: whatever happens,
      they are let go no sooner. */
  lemma KeptUntilDeadline(length: nat, actions: seq<Action>, i: nat)
    requires
      var log := RunOf(length, actions).log;
      && i < |log| && log[i].LetGo? && (log[i].why == Ended || log[i].why == Lapsed)
      && Said(log[..i], log[i].owner) && Deadline(log[..i], log[i].owner, length).Some?
    ensures
      var log := RunOf(length, actions).log;
      Deadline(log[..i], log[i].owner, length).value <= log[i].at
  {
    hide RunOf, Exclusive;
    EveryRunFits(length, actions);
    RunKeepsLength(length, actions);
    var log := RunOf(length, actions).log;
    assert EntryFits(log[..i], log[i], length);
  }

  /** While it must wait, no action at all takes a lock from it. */
  lemma NothingTakesThemSooner(length: nat, actions: seq<Action>, o: Owner, a: Action)
    requires
      var w := RunOf(length, actions);
      o in w.parties && w.parties[o].phase == Ending && L.MustWait(w.parties[o].taken, w.now)
    ensures
      var w := RunOf(length, actions);
      var w' := Next(w, a);
      o in w'.parties && w'.parties[o] == w.parties[o]
  {
    hide RunOf, PartyFits, LogSound;
    EveryRunFits(length, actions);
    var w := RunOf(length, actions);
    var p := w.parties[o];
    assert PartyFits(p, o, w.log, w.length);
    EndingIsPipe(p, o, w.log, w.length);
    if !a.Tick? && a.o == o {
      WaitingStays(w, a, p);
    } else {
      OthersStay(w, a, o);
    }
  }

  lemma EndingIsPipe(p: Party, o: Owner, log: seq<Entry>, length: nat)
    requires PartyFits(p, o, log, length) && p.phase == Ending
    ensures !p.http && p.transit.None?
  {
  }

  lemma WaitingStays(w: World, a: Action, p: Party)
    requires !a.Tick? && a.o in w.parties && w.parties[a.o] == p
    requires !p.http && p.phase == Ending && p.transit.None? && L.MustWait(p.taken, w.now)
    ensures Next(w, a).parties == w.parties
  {
  }

  lemma OthersStay(w: World, a: Action, o: Owner)
    requires o in w.parties && (a.Tick? || a.o != o)
    ensures o in Next(w, a).parties && Next(w, a).parties[o] == w.parties[o]
  {
  }

  /** A connection that need not wait lets every lock go as it ends. */
  lemma EndsAtOnce(w: World, o: Owner)
    requires WorldFits(w)
    requires o in w.parties && w.parties[o].phase == Ending && !L.MustWait(w.parties[o].taken, w.now)
    ensures
      var p := Next(w, End(o)).parties[o];
      p.phase == Gone && p.taken.held == [] && p.taken.ended
  {
  }

  /** A connection whose wait never said so need not wait. */
  lemma UnsaidEndsAtOnce(length: nat, actions: seq<Action>, o: Owner)
    requires
      var w := RunOf(length, actions);
      o in w.parties && w.parties[o].phase == Ending && !Said(w.log, o)
    ensures Next(RunOf(length, actions), End(o)).parties[o].taken.held == []
  {
    hide RunOf, LogSound;
    EveryRunFits(length, actions);
    var w := RunOf(length, actions);
    assert PartyFits(w.parties[o], o, w.log, w.length);
    EndsAtOnce(w, o);
  }

  /** Over HTTP no lock is ever held without a lease running: its hold ends by
      a release, or by its own wait once the lease runs out, and in no other
      way but the answer never being given. */
  lemma HoldsAreLeased(length: nat, actions: seq<Action>, o: Owner)
    requires
      var w := RunOf(length, actions);
      o in w.parties && w.parties[o].http
    ensures
      var w := RunOf(length, actions);
      var p := w.parties[o];
      var due := if p.taken.until.Some? then p.taken.until.value else 0;
      && (p.taken.held != [] ==> p.taken.until.Some?)
      && (p.phase == Serving ==> Next(w.(now := w.now + due), Wake(o)).parties[o].taken.held == [])
      && (forall i | 0 <= i < |w.log| && w.log[i].LetGo? && w.log[i].owner == o :: w.log[i].why != Ended)
  {
    hide RunOf, LogSound;
    EveryRunFits(length, actions);
    var w := RunOf(length, actions);
    assert PartyFits(w.parties[o], o, w.log, w.length);
  }

  /** No two parties ever have a scope in common. */
  lemma LocksAreExclusive(length: nat, actions: seq<Action>, a: Owner, b: Owner)
    requires
      var w := RunOf(length, actions);
      a in w.parties && b in w.parties && a != b
    ensures
      var w := RunOf(length, actions);
      Holds(w.parties[a]) !! Holds(w.parties[b])
  {
    hide RunOf, LogSound, PartyFits, Holds;
    EveryRunFits(length, actions);
  }
}
