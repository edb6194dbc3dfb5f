/** The lease protocol: connections over a pipe and holds by id over HTTP, every
    request, the watch, each connection's end and each hold's own wait, in any
    order, while the clock moves on. Each critical section is one action. */
module Leases {
  import opened Wrappers
  import L = Locks

  type Owner = nat

  /** Where a connection or a hold is. A hold is unpublished until its id is
      given, and a connection is ending once its requests have. */
  datatype Phase = Serving | Ending | Unpublished | Gone

  /** A connection's locks, or a hold's; `transit` is what `lock::take` has
      given a take that has not kept it yet. */
  datatype Party = Party(taken: L.Taken, http: bool, phase: Phase, transit: Option<L.Held>)

  /** Why locks were let go. */
  datatype Why = Lapsed | Released | Ended | Dropped

  /** What an observer sees. A grant says the lease it asked for, if any, and
      whether it lets go itself. */
  datatype Entry =
    | Granted(owner: Owner, held: Option<L.Held>, lease: Option<bool>, at: nat)
    | Renewed(owner: Owner, ok: bool, at: nat)
    | LetGo(owner: Owner, why: Why, at: nat)

  datatype World = World(now: nat, length: nat, parties: map<Owner, Party>, log: seq<Entry>)

  datatype Action =
    | Tick(to: nat)
    | Connect(o: Owner)
    | Acquire(o: Owner, scopes: set<L.Scope>)
    | HttpAcquire(o: Owner, scopes: set<L.Scope>)
    | HttpNoStore(o: Owner)
    | Keep(o: Owner, lease: Option<bool>)
    | NoStore(o: Owner, lease: Option<bool>)
    | Renew(o: Owner)
    | Release(o: Owner)
    | Watch(o: Owner)
    | Close(o: Owner)
    | End(o: Owner)
    | Publish(o: Owner)
    | Fail(o: Owner)
    | Wake(o: Owner)

  function ScopesOf(held: seq<L.Held>): set<L.Scope> {
    if held == [] then {} else ScopesOf(held[..|held| - 1]) + held[|held| - 1].scopes
  }

  /** Everything a party has exclusively, kept or on its way. */
  function Holds(p: Party): set<L.Scope> {
    ScopesOf(p.taken.held) + if p.transit.Some? then p.transit.value.scopes else {}
  }

  /** `lock::take` gives locks that nobody has. */
  predicate Free(w: World, scopes: set<L.Scope>) {
    forall o <- w.parties :: scopes !! Holds(w.parties[o])
  }

  /** Whether a request may reach the party's locks: on a connection while it
      serves, one at a time; on a hold whenever its id has been given. */
  predicate Reachable(p: Party) {
    if p.http then p.phase != Unpublished else p.phase == Serving && p.transit.None?
  }

  function Put(w: World, o: Owner, p: Party, entries: seq<Entry>): World {
    w.(parties := w.parties[o := p], log := w.log + entries)
  }

  function Next(w: World, a: Action): World {
    match a
    case Tick(to) => w.(now := if w.now < to then to else w.now)
    case Connect(o) => if o in w.parties then w else Put(w, o, Party(L.NOTHING, false, Serving, None), [])
    case HttpAcquire(o, scopes) =>
      if o in w.parties || !Free(w, scopes) then w
      else Put(w, o, Party(L.NOTHING, true, Unpublished, Some(L.Held(scopes))), [])
    case HttpNoStore(o) =>
      if o in w.parties then w
      else
        Put(w, o, Party(L.Keep(L.NOTHING, None, Some(true), w.now, w.length), true, Unpublished, None),
            [Granted(o, None, Some(true), w.now)])
    case _ => if a.o in w.parties then Step(w, a, w.parties[a.o]) else w
  }

  /** What an action does to a party there is. */
  function Step(w: World, a: Action, p: Party): World
    requires !a.Tick?
  {
    match a
    case Acquire(o, scopes) =>
      if p.http || !Reachable(p) || !Free(w, scopes) then w
      else Put(w, o, p.(transit := Some(L.Held(scopes))), [])
    case Keep(o, lease) =>
      if p.transit.None? || (p.http && lease != Some(true)) then w
      else
        Put(w, o, p.(taken := L.Keep(p.taken, p.transit, lease, w.now, w.length), transit := None),
            [Granted(o, p.transit, lease, w.now)])
    case NoStore(o, lease) =>
      if p.http || !Reachable(p) then w
      else Put(w, o, p.(taken := L.Keep(p.taken, None, lease, w.now, w.length)), [Granted(o, None, lease, w.now)])
    case Renew(o) =>
      if !Reachable(p) then w
      else Put(w, o, p.(taken := L.Renew(p.taken, w.now, w.length)), [Renewed(o, p.taken.until.Some?, w.now)])
    case Release(o) =>
      if !Reachable(p) then w else Put(w, o, p.(taken := L.Release(p.taken)), [LetGo(o, Released, w.now)])
    case Watch(o) =>
      var t := L.Watch(p.taken, w.now);
      if p.http || t == p.taken then w else Put(w, o, p.(taken := t), [LetGo(o, Lapsed, w.now)])
    case Close(o) =>
      if p.http || !Reachable(p) then w else Put(w, o, p.(phase := Ending), [])
    case End(o) =>
      var t := L.End(p.taken, w.now);
      if p.phase != Ending || t == p.taken then w
      else Put(w, o, p.(taken := t, phase := Gone), [LetGo(o, Ended, w.now)])
    case Publish(o) =>
      if p.phase != Unpublished || p.transit.Some? then w else Put(w, o, p.(phase := Serving), [])
    case Fail(o) =>
      if p.phase != Unpublished || p.transit.Some? then w
      else Put(w, o, p.(taken := L.NOTHING, phase := Gone), [LetGo(o, Dropped, w.now)])
    case Wake(o) =>
      if !p.http || p.phase != Serving then w
      else
        var (taken, done) := L.LetGo(p.taken, w.now);
        Put(w, o, p.(taken := taken, phase := if done then Gone else Serving),
            if taken.until == p.taken.until then [] else [LetGo(o, Lapsed, w.now)])
    case Connect(_) => w
    case HttpAcquire(_, _) => w
    case HttpNoStore(_) => w
  }

  function Start(length: nat): World {
    World(0, length, map[], [])
  }

  function RunOf(length: nat, actions: seq<Action>): World
    decreases |actions|
  {
    if actions == [] then Start(length)
    else Next(RunOf(length, actions[..|actions| - 1]), actions[|actions| - 1])
  }

  // ----- what the log alone says

  /** When an owner's lease runs out, by its grants, renewals and letting go. */
  function Deadline(log: seq<Entry>, o: Owner, length: nat): Option<nat>
    decreases |log|
  {
    if log == [] then None
    else
      var before, e := Deadline(log[..|log| - 1], o, length), log[|log| - 1];
      if e.owner != o then before
      else
        match e
        case Granted(_, _, lease, at) => if lease.Some? then Some(at + length) else before
        case Renewed(_, ok, at) => if ok then Some(at + length) else before
        case LetGo(_, _, _) => None
  }

  /** The scopes granted to an owner since it last let go. */
  function Granting(log: seq<Entry>, o: Owner): set<L.Scope>
    decreases |log|
  {
    if log == [] then {}
    else
      var before, e := Granting(log[..|log| - 1], o), log[|log| - 1];
      if e.owner != o then before
      else
        match e
        case Granted(_, held, _, _) => before + if held.Some? then held.value.scopes else {}
        case Renewed(_, _, _) => before
        case LetGo(_, _, _) => {}
  }

  /** Whether an owner has said it lets its leased locks go itself. */
  function Said(log: seq<Entry>, o: Owner): bool
    decreases |log|
  {
    if log == [] then false
    else
      var before, e := Said(log[..|log| - 1], o), log[|log| - 1];
      if e.owner != o then before
      else
        match e
        case Granted(_, _, lease, _) => if lease.Some? then lease.value else before
        case Renewed(_, _, _) => before
        case LetGo(_, why, _) => if why == Released || why == Dropped then false else before
  }

  /** Whether an owner's last leased take has lapsed. */
  function Lapsing(log: seq<Entry>, o: Owner): bool
    decreases |log|
  {
    if log == [] then false
    else
      var before, e := Lapsing(log[..|log| - 1], o), log[|log| - 1];
      if e.owner != o then before
      else
        match e
        case Granted(_, _, lease, _) => before && lease.None?
        case Renewed(_, _, _) => before
        case LetGo(_, why, _) => why != Dropped && (before || why == Lapsed)
  }

  /** What each entry may be, after those before it. */
  predicate EntryFits(before: seq<Entry>, e: Entry, length: nat) {
    match e
    case Granted(_, _, _, _) => true
    case Renewed(o, ok, _) => ok == Deadline(before, o, length).Some?
    case LetGo(o, why, at) =>
      var deadline := Deadline(before, o, length);
      && (why == Lapsed ==> deadline.Some? && deadline.value <= at)
      && (why == Ended && Said(before, o) && deadline.Some? ==> deadline.value <= at)
  }

  /** No grant gives a scope that another owner has. */
  ghost predicate Exclusive(before: seq<Entry>, e: Entry) {
    e.Granted? && e.held.Some? ==> forall o | o != e.owner :: Granting(before, o) !! e.held.value.scopes
  }

  ghost predicate LogSound(log: seq<Entry>, length: nat) {
    forall i | 0 <= i < |log| :: EntryFits(log[..i], log[i], length) && Exclusive(log[..i], log[i])
  }
}
