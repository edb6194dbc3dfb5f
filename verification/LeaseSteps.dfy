/** What each critical section does to a party, in every world that any
    interleaving reaches, said by the log alone: when its lease runs out, what
    it was granted, and what its wait said. */
module LeaseSteps {
  import opened Wrappers
  import L = Locks
  import opened Leases
  import opened LeaseLaws

  /** Whether the log says the owner's lease has run out by `now`. */
  predicate RunOut(log: seq<Entry>, o: Owner, length: nat, now: nat) {
    var deadline := Deadline(log, o, length);
    deadline.Some? && deadline.value <= now
  }

  /** Whether the log says the owner has a lease that still runs. */
  predicate Runs(log: seq<Entry>, o: Owner, length: nat, now: nat) {
    var deadline := Deadline(log, o, length);
    deadline.Some? && now < deadline.value
  }

  /** Whether a request about the party's locks is heard: on a connection while
      it serves, one at a time; on a hold from when its id is given, for ever. */
  predicate Heard(p: Party) {
    if p.http then p.phase == Serving || p.phase == Ending || p.phase == Gone
    else p.phase == Serving && p.transit == None
  }

  lemma Reached(length: nat, actions: seq<Action>, o: Owner)
    requires o in RunOf(length, actions).parties
    ensures
      var w := RunOf(length, actions);
      PartyFits(w.parties[o], o, w.log, length) && w.length == length
  {
    hide PartyFits, LogSound, Holds;
    EveryRunFits(length, actions);
    RunKeepsLength(length, actions);
  }

  /** A pass of the watch lets go exactly when the lease has run out: then no
      lock and no lease is left, and the log says why. Before that, and with no
      lease, it changes nothing at all. */
  lemma WatchExactly(length: nat, actions: seq<Action>, o: Owner)
    requires
      var w := RunOf(length, actions);
      o in w.parties && !w.parties[o].http
    ensures
      var w := RunOf(length, actions);
      var w' := Next(w, Watch(o));
      && w'.parties[o].taken == L.Watch(w.parties[o].taken, w.now)
      && if RunOut(w.log, o, length, w.now) then
           && w'.parties[o].taken.held == [] && w'.parties[o].taken.until.None? && w'.parties[o].taken.lapsed
           && w'.log == w.log + [LetGo(o, Lapsed, w.now)]
         else w' == w
  {
    hide RunOf, Deadline, Granting, Said, Lapsing;
    Reached(length, actions, o);
  }

  /** A pass of an ending connection's end waits exactly while its wait's word
      to let go stands and the lease runs; otherwise nothing is held after it. */
  lemma EndExactly(length: nat, actions: seq<Action>, o: Owner)
    requires
      var w := RunOf(length, actions);
      o in w.parties && w.parties[o].phase == Ending
    ensures
      var w := RunOf(length, actions);
      var w' := Next(w, End(o));
      && w'.parties[o].taken == L.End(w.parties[o].taken, w.now)
      && if Said(w.log, o) && Runs(w.log, o, length, w.now) then w' == w
         else
           && w'.parties[o].phase == Gone && w'.parties[o].taken.held == []
           && w'.parties[o].taken.until.None? && w'.parties[o].taken.ended
           && w'.log == w.log + [LetGo(o, Ended, w.now)]
  {
    hide RunOf, Deadline, Granting, Said, Lapsing;
    Reached(length, actions, o);
  }

  /** A pass of a hold's own wait goes on exactly while its lease runs; it lets
      go, and says so, when the lease has run out, and is done with nothing to
      say when the hold was released. */
  lemma WakeExactly(length: nat, actions: seq<Action>, o: Owner)
    requires
      var w := RunOf(length, actions);
      o in w.parties && w.parties[o].http && w.parties[o].phase == Serving
    ensures
      var w := RunOf(length, actions);
      var w' := Next(w, Wake(o));
      && w'.parties[o].taken == L.LetGo(w.parties[o].taken, w.now).0
      && if Runs(w.log, o, length, w.now) then w' == w
         else
           && w'.parties[o].phase == Gone && w'.parties[o].taken.held == [] && w'.parties[o].taken.until.None?
           && w'.log == w.log + if RunOut(w.log, o, length, w.now) then [LetGo(o, Lapsed, w.now)] else []
  {
    hide RunOf, Deadline, Granting, Said, Lapsing;
    Reached(length, actions, o);
    var w := RunOf(length, actions);
    assert w.log + [] == w.log;
    assert w.parties[o := w.parties[o]] == w.parties;
  }

  /** A renewal is answered 200 exactly when a lease is there, run out or not,
      and then it runs for as long again from now; else nothing changes. */
  lemma RenewExactly(length: nat, actions: seq<Action>, o: Owner)
    requires
      var w := RunOf(length, actions);
      o in w.parties && Heard(w.parties[o])
    ensures
      var w := RunOf(length, actions);
      var w' := Next(w, Renew(o));
      var ok := Deadline(w.log, o, length).Some?;
      && w'.log == w.log + [Renewed(o, ok, w.now)]
      && w'.parties[o] ==
         if ok then w.parties[o].(taken := w.parties[o].taken.(until := Some(w.now + length))) else w.parties[o]
  {
    hide RunOf, Deadline, Granting, Said, Lapsing;
    Reached(length, actions, o);
  }

  /** A release lets go of every lock and of the lease, and takes the word back. */
  lemma ReleaseExactly(length: nat, actions: seq<Action>, o: Owner)
    requires
      var w := RunOf(length, actions);
      o in w.parties && Heard(w.parties[o])
    ensures
      var w := RunOf(length, actions);
      var t := Next(w, Release(o)).parties[o].taken;
      && t.held == [] && t.until.None? && !t.releases && t.lapsed == w.parties[o].taken.lapsed
      && Next(w, Release(o)).log == w.log + [LetGo(o, Released, w.now)]
  {
  }

  /** A take joins its scopes to those held; a leased one starts the lease anew
      with what the wait says of letting go, and one that is not leaves the
      lease, if there is one, as it was. */
  lemma KeepExactly(length: nat, actions: seq<Action>, o: Owner, lease: Option<bool>)
    requires
      var w := RunOf(length, actions);
      && o in w.parties && w.parties[o].transit.Some? && (w.parties[o].http ==> lease == Some(true))
    ensures
      var w := RunOf(length, actions);
      var t, t' := w.parties[o].taken, Next(w, Action.Keep(o, lease)).parties[o].taken;
      && ScopesOf(t'.held) == Granting(w.log, o) + w.parties[o].transit.value.scopes
      && t'.until == (if lease.Some? then Some(w.now + length) else Deadline(w.log, o, length))
      && t'.releases == (if lease.Some? then lease.value else Said(w.log, o))
      && t'.lapsed == (lease.None? && Lapsing(w.log, o))
      && Next(w, Action.Keep(o, lease)).log == w.log + [Granted(o, w.parties[o].transit, lease, w.now)]
  {
    hide RunOf, Deadline, Granting, Said, Lapsing;
    Reached(length, actions, o);
    var w := RunOf(length, actions);
    ScopesJoin(w.parties[o].taken.held, w.parties[o].transit.value);
  }

  /** A take with no store to lock takes none: a leased one starts the lease
      anew, and one that is not leaves all as it was. */
  lemma NoStoreExactly(length: nat, actions: seq<Action>, o: Owner, lease: Option<bool>)
    requires
      var w := RunOf(length, actions);
      o in w.parties && !w.parties[o].http && Heard(w.parties[o])
    ensures
      var w := RunOf(length, actions);
      var p, w' := w.parties[o], Next(w, NoStore(o, lease));
      && w'.log == w.log + [Granted(o, None, lease, w.now)]
      && w'.parties[o] ==
         if lease.None? then p
         else
           p.(taken := p.taken.(until := Some(w.now + length), lapsed := false, releases := lease.value))
  {
    RunKeepsLength(length, actions);
    hide RunOf;
  }

  /** A request that is not heard, or that no hold makes, changes nothing. */
  lemma UnheardChangesNothing(length: nat, actions: seq<Action>, a: Action)
    requires a.Renew? || a.Release? || a.Acquire? || a.NoStore? || a.Close?
    requires
      var w := RunOf(length, actions);
      a.o in w.parties ==> !Heard(w.parties[a.o]) || (w.parties[a.o].http && !a.Renew? && !a.Release?)
    ensures Next(RunOf(length, actions), a) == RunOf(length, actions)
  {
    hide RunOf, Free;
  }

  /** Whatever a party holds, it is what the log of its grants, renewals and
      letting go says it is. */
  lemma HeldIsGranted(length: nat, actions: seq<Action>, o: Owner)
    requires o in RunOf(length, actions).parties
    ensures
      var w := RunOf(length, actions);
      var t := w.parties[o].taken;
      && ScopesOf(t.held) == Granting(w.log, o) && t.until == Deadline(w.log, o, length)
      && t.releases == Said(w.log, o) && t.lapsed == Lapsing(w.log, o)
  {
    hide RunOf, Deadline, Granting, Said, Lapsing;
    Reached(length, actions, o);
  }

  // ----- what each action may do, and to whom

  /** Scopes that nobody was granted and has not let go, and that no take has on
      its way. */
  ghost predicate NobodyHas(w: World, scopes: set<L.Scope>) {
    forall o <- w.parties ::
      scopes !! Granting(w.log, o) && (w.parties[o].transit.Some? ==> scopes !! w.parties[o].transit.value.scopes)
  }

  lemma FreeExactly(length: nat, actions: seq<Action>, scopes: set<L.Scope>)
    ensures
      var w := RunOf(length, actions);
      Free(w, scopes) <==> NobodyHas(w, scopes)
  {
    var w := RunOf(length, actions);
    hide RunOf, Granting;
    forall o | o in w.parties
      ensures ScopesOf(w.parties[o].taken.held) == Granting(w.log, o)
    {
      HeldIsGranted(length, actions, o);
    }
    hide ScopesOf;
  }

  /** A take on a connection is on its way exactly when the connection hears it
      and nobody has any of its scopes; else nothing changes. */
  lemma AcquireExactly(length: nat, actions: seq<Action>, o: Owner, scopes: set<L.Scope>)
    requires o in RunOf(length, actions).parties
    ensures
      var w := RunOf(length, actions);
      var p := w.parties[o];
      var w' := Next(w, Acquire(o, scopes));
      if !p.http && Heard(p) && NobodyHas(w, scopes) then
        w' == w.(parties := w.parties[o := p.(transit := Some(L.Held(scopes)))])
      else w' == w
  {
    FreeExactly(length, actions, scopes);
    hide RunOf, Free, NobodyHas;
    var w := RunOf(length, actions);
    assert w.log + [] == w.log;
  }

  /** A connection starts serving with nothing taken; a hold starts with its
      take on its way when nobody has any of its scopes, or with a lease of no
      lock when there is no store; and an owner there is starts nothing. */
  lemma StartsExactly(length: nat, actions: seq<Action>, o: Owner, scopes: set<L.Scope>)
    ensures
      var w := RunOf(length, actions);
      var connected, held, leased := Next(w, Connect(o)), Next(w, HttpAcquire(o, scopes)), Next(w, HttpNoStore(o));
      if o in w.parties then connected == held == leased == w
      else
        && connected == w.(parties := w.parties[o := Party(L.NOTHING, false, Serving, None)])
        && held == (if NobodyHas(w, scopes)
                    then w.(parties := w.parties[o := Party(L.NOTHING, true, Unpublished, Some(L.Held(scopes)))])
                    else w)
        && leased == w.(
             parties :=
               w.parties[o := Party(L.Taken([], Some(w.now + length), false, true, false), true, Unpublished, None)],
             log := w.log + [Granted(o, None, Some(true), w.now)])
  {
    FreeExactly(length, actions, scopes);
    RunKeepsLength(length, actions);
    hide RunOf, Free, NobodyHas;
    var w := RunOf(length, actions);
    assert w.log + [] == w.log;
  }

  /** Where an action takes the party it is about. */
  function PhaseAfter(w: World, length: nat, a: Action, p: Party): Phase
    requires !a.Tick?
  {
    match a
    case Close(_) => if !p.http && Heard(p) then Ending else p.phase
    case End(_) =>
      if p.phase == Ending && !(Said(w.log, a.o) && Runs(w.log, a.o, length, w.now)) then Gone else p.phase
    case Publish(_) => if p.phase == Unpublished && p.transit == None then Serving else p.phase
    case Fail(_) => if p.phase == Unpublished && p.transit == None then Gone else p.phase
    case Wake(_) =>
      if p.http && p.phase == Serving && !Runs(w.log, a.o, length, w.now) then Gone else p.phase
    case _ => p.phase
  }

  /** Every action moves its party as the log says, and leaves every other
      party, and what each one is, as they were. */
  lemma PhasesExactly(length: nat, actions: seq<Action>, a: Action)
    requires !a.Tick? && a.o in RunOf(length, actions).parties
    ensures
      var w := RunOf(length, actions);
      var w' := Next(w, a);
      && w'.parties.Keys == w.parties.Keys && w'.now == w.now
      && w'.parties[a.o].phase == PhaseAfter(w, length, a, w.parties[a.o])
      && w'.parties[a.o].http == w.parties[a.o].http
      && forall o <- w.parties :: o != a.o ==> w'.parties[o] == w.parties[o]
  {
    hide RunOf, Deadline, Granting, Said, Lapsing, Free;
    Reached(length, actions, a.o);
  }

  /** A hold whose take came to nothing leaves nothing, and says so. */
  lemma FailExactly(length: nat, actions: seq<Action>, o: Owner)
    requires
      var w := RunOf(length, actions);
      o in w.parties && w.parties[o].phase == Unpublished && w.parties[o].transit == None
    ensures
      var w := RunOf(length, actions);
      var w' := Next(w, Action.Fail(o));
      w'.parties[o].taken == L.Taken([], None, false, false, false) && w'.log == w.log + [LetGo(o, Dropped, w.now)]
  {
  }
}
