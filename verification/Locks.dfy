/** A pickup wait's locks, as one connection or one hold by id keeps them: what
    each critical section under the mutex does. Each pass of a wait loop is one
    method call, at whatever time it wakes. */
module Locks {
  import opened Wrappers

  type Scope = string

  /** The locks one request took together: exclusive, all or none. */
  datatype Held = Held(scopes: set<Scope>)

  datatype Taken = Taken(held: seq<Held>, until: Option<nat>, lapsed: bool, releases: bool, ended: bool)

  const NOTHING: Taken := Taken([], None, false, false, false)

  /** Lets every lock go as the lease runs out. */
  function Lapse(t: Taken): Taken {
    t.(held := [], until := None, lapsed := true)
  }

  /** Whether the lease has run out by `now`. */
  predicate RunOut(t: Taken, now: nat) {
    t.until.Some? && t.until.value <= now
  }

  /** What a take keeps: its locks, if the store is made, and a lease of
      `length` when it asks for one (with what it says of releasing). */
  function Keep(t: Taken, held: Option<Held>, lease: Option<bool>, now: nat, length: nat): Taken {
    var kept := if held.Some? then t.(held := t.held + [held.value]) else t;
    if lease.None? then kept
    else kept.(until := Some(now + length), lapsed := false, releases := lease.value)
  }

  function Renew(t: Taken, now: nat, length: nat): Taken {
    if t.until.None? then t else t.(until := Some(now + length))
  }

  function Release(t: Taken): Taken {
    t.(held := [], until := None, releases := false)
  }

  /** One pass of the watch. */
  function Watch(t: Taken, now: nat): Taken {
    if !t.ended && RunOut(t, now) then Lapse(t) else t
  }

  /** Whether an ending connection has to wait: the wait gave its word to let
      go, and still has time to. */
  predicate MustWait(t: Taken, now: nat) {
    t.releases && t.until.Some? && !RunOut(t, now)
  }

  /** One pass of the connection's end. */
  function End(t: Taken, now: nat): Taken {
    if MustWait(t, now) then t else t.(held := [], until := None, ended := true)
  }

  /** One pass of the wait of a hold by id, and whether it is done. */
  function LetGo(t: Taken, now: nat): (Taken, bool) {
    if t.until.None? then (t.(held := []), true)
    else if RunOut(t, now) then (Lapse(t), true)
    else (t, false)
  }

  class Locks {
    var held: seq<Held>
    var until: Option<nat>
    var lapsed: bool
    var releases: bool
    var ended: bool
    /** The time a take or a renewal gives. */
    const length: nat

    function View(): Taken
      reads this
    {
      Taken(held, until, lapsed, releases, ended)
    }

    constructor (length: nat)
      ensures View() == NOTHING && this.length == length
    {
      held, until, lapsed, releases, ended := [], None, false, false, false;
      this.length := length;
    }

    /** The end of `take_locks`, once `lock::take` has given the locks. */
    method KeepLocks(taken: Option<Held>, lease: bool, says: bool, now: nat)
      modifies this
      ensures View() == Keep(old(View()), taken, if lease then Some(says) else None, now, length)
    {
      if taken.Some? {
        held := held + [taken.value];
      }
      if lease {
        until := Some(now + length);
        lapsed := false;
        releases := says;
      }
    }

    method RenewLease(now: nat) returns (ok: bool)
      modifies `until
      ensures View() == Renew(old(View()), now, length) && ok == old(until).Some?
    {
      if until.None? {
        return false;
      }
      until := Some(now + length);
      return true;
    }

    method ReleaseLocks()
      modifies `held, `until, `releases
      ensures View() == Release(old(View()))
    {
      held := [];
      until := None;
      releases := false;
    }

    /** The body of `watch`'s loop: waiting is doing nothing. */
    method WatchOnce(now: nat)
      modifies this
      ensures View() == Watch(old(View()), now)
    {
      if !ended {
        match until {
          case None =>
          case Some(deadline) =>
            if deadline <= now {
              held := [];
              until := None;
              lapsed := true;
            }
        }
      }
    }

    /** The body of `end`'s loop, and what follows it once it stops waiting. */
    method EndOnce(now: nat)
      modifies this
      ensures View() == End(old(View()), now)
    {
      if releases && until.Some? {
        if now < until.value {
          return;
        }
      }
      ended := true;
      held := [];
      until := None;
    }

    /** The body of `until_let_go`'s loop, and what follows it. */
    method LetGoOnce(now: nat) returns (done: bool)
      modifies this
      ensures (View(), done) == LetGo(old(View()), now)
    {
      if until.Some? {
        if until.value <= now {
          held := [];
          until := None;
          lapsed := true;
          return true;
        }
        return false;
      }
      held := [];
      return true;
    }
  }
}
