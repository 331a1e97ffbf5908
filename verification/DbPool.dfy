/** The connection pool object and its client (database/src/DbPool.cpp, app/src/DbManager.cpp): the slots
    are updated in place, and `execute` calls itself after a lock error. */
module DbPoolObject {
  import opened Wrappers
  import opened ConnectionProtocol
  import opened ConnectionTheorems

  class DbPool {
    const slots: array<bool>
    /** Where the client threads stand, and who took each slot last. */
    ghost var clients: seq<Client>
    ghost var acquirer: seq<nat>
    ghost var acquires: nat
    ghost var handedBack: nat

    ghost function View(): Pool
      reads this, slots
    {
      Pool(slots[..], clients, acquirer)
    }

    ghost predicate Valid()
      reads this, slots
    {
      Good(View(), slots.Length, |clients|)
    }

    /** A pool of size zero is given one connection. */
    constructor (size: nat, ghost users: nat)
      ensures fresh(slots) && slots.Length == (if size < 1 then 1 else size)
      ensures Valid() && View() == Initial(slots.Length, users)
      ensures acquires == 0 && handedBack == 0
    {
      var n := if size < 1 then 1 else size;
      slots := new bool[n](i => true);
      clients, acquirer := seq(users, i => Client(Outside, [])), seq(n, i => 0);
      acquires, handedBack := 0, 0;
      new;
      assert View() == Initial(n, users);
      GoodAlways(n, users, []);
    }

    /** A turn of `acquire` under the lock.  `None` means waiting or, when the wait has expired, coming back
        with a null pointer. */
    method Acquire(ghost who: nat) returns (worker: Option<nat>)
      requires Valid() && Enabled(View(), ConnectionProtocol.Acquire(who))
      modifies slots, `clients, `acquirer, `acquires
      ensures Valid() && View() == Step(old(View()), ConnectionProtocol.Acquire(who))
      ensures worker == if old(AnyFree(slots[..])) then Some(old(FirstFree(slots[..]))) else None
      ensures slots[..] == if worker.Some? then old(slots[..])[worker.value := false] else old(slots[..])
      ensures who < |clients| && clients[who].at ==
        if worker.Some? then Using(worker.value) else if old(clients[who].at) == Entering(true) then Entering(false) else Blocked
      ensures acquires == old(acquires) + if worker.Some? then 1 else 0
    {
      ghost var before := View();
      StepKeepsGood(before, ConnectionProtocol.Acquire(who));
      var i := FindFree();
      if i == slots.Length {
        clients := clients[who := clients[who].(at := if clients[who].at == Entering(true) then Entering(false) else Blocked)];
        return None;
      }
      slots[i] := false;
      clients, acquirer := clients[who := clients[who].(at := Using(i))], acquirer[i := who];
      acquires := acquires + 1;
      return Some(i);
    }

    /** The search for the first available slot; the length of the pool if there is none. */
    method FindFree() returns (i: nat)
      ensures if AnyFree(slots[..]) then i == FirstFree(slots[..]) else i == slots.Length
    {
      i := 0;
      while i < slots.Length && !slots[i]
        invariant 0 <= i <= slots.Length
        invariant forall j :: 0 <= j < i ==> !slots[..][j]
      {
        i := i + 1;
      }
      if i < slots.Length {
        assert IsFree(slots[..][i]);
      }
    }

    /** The slot becomes available and a blocked client, if any, is notified. */
    method ReturnWorker(id: nat)
      requires Valid()
      modifies slots, `clients, `handedBack
      ensures Valid()
      ensures exists pick :: Reaches(old(clients), pick) && View() == Return(old(View()), id, pick)
      ensures handedBack == old(handedBack) + if id < slots.Length then 1 else 0
    {
      ghost var before := View();
      ghost var pick := SomeoneBlocked(clients);
      ReturnKeepsGood(before, id, pick);
      assert Reaches(before.clients, pick);
      if id >= slots.Length {
        return;
      }
      slots[id] := true;
      clients := Notify(clients, pick);
      handedBack := handedBack + 1;
      assert View() == Return(before, id, pick);
    }

    lemma SomeoneBlocked(cs: seq<Client>) returns (pick: nat)
      ensures Reaches(cs, pick)
    {
      pick := 0;
      if c :| 0 <= c < |cs| && IsBlocked(cs[c]) { pick := c; }
    }

    /** A client thread goes on to another place of its code. */
    ghost method Move(who: nat, c: Client)
      requires who < |clients|
      modifies `clients
      ensures clients == old(clients)[who := c]
    {
      clients := clients[who := c];
    }
  }

  /** Nobody but `who` is inside `execute`. */
  ghost predicate Alone(p: Pool, who: nat)
  {
    who < |p.clients| && forall c :: 0 <= c < |p.clients| && c != who ==> p.clients[c].at.Outside?
  }

  /** An `execute` up to the end of its operation. */
  ghost function Begun(p: Pool, who: nat, outcome: Outcome): Pool
  {
    Step(Step(p, Acquire(who)), Finish(who, outcome, 0))
  }

  /** A client that has returned the worker of its innermost call. */
  function Ended(owed: seq<nat>): Client
  {
    Client(if owed == [] then Outside else Leaving, owed)
  }

  lemma BegunStands(p: Pool, who: nat, outcome: Outcome)
    requires CanExecute(p, who)
    ensures var q, i, c := Begun(p, who, outcome), FirstFree(p.free), p.clients[who];
      && q.free == p.free[i := !outcome.Normal?]
      && q.clients == p.clients[who := Client(if outcome.Deadlock? then Entering(false) else Leaving, c.owed + [i])]
      && Alone(q, who) && Good(q, |p.free|, |p.clients|) && (outcome.Deadlock? ==> CanExecute(q, who))
  {
    var mid := Step(p, Acquire(who));
    assert !AnyBlocked(mid.clients);
    var q, i := Begun(p, who, outcome), FirstFree(p.free);
    assert q.free == p.free[i := !outcome.Normal?];
    assert !outcome.Normal? ==> IsFree(q.free[i]);
    StepKeepsGood(p, Acquire(who));
    StepKeepsGood(mid, Finish(who, outcome, 0));
  }

  /** The client returns the worker it took first, and everything is as before. */
  lemma LastReturn(p: Pool, end: Pool, who: nat)
    requires who < |p.clients| && AnyFree(p.free) && Alone(end, who) && |end.acquirer| == |end.free|
    requires end.free == p.free || end.free == p.free[FirstFree(p.free) := false]
    requires end.clients == p.clients[who := Client(Leaving, p.clients[who].owed + [FirstFree(p.free)])]
    ensures Step(end, Leave(who, 0)).free == p.free
    ensures Step(end, Leave(who, 0)).clients == p.clients[who := Ended(p.clients[who].owed)]
  {
    assert !AnyBlocked(end.clients);
    assert (p.clients[who].owed + [FirstFree(p.free)])[..|p.clients[who].owed|] == p.clients[who].owed;
  }

  /** A slot is available to the only client inside `execute`. */
  ghost predicate CanExecute(p: Pool, who: nat)
  {
    Good(p, |p.free|, |p.clients|) && Alone(p, who) && p.clients[who].at == Entering(false) && AnyFree(p.free)
  }

  class DbManager {
    const pool: DbPool

    constructor (pool: DbPool)
      ensures this.pool == pool
    {
      this.pool := pool;
    }

    /** The first part of `execute`: acquire a worker, and look at how the operation ends.  A bad parameter
        or a lock error returns the worker; after a normal end it is still to be returned. */
    method Begin(ghost who: nat, outcome: Outcome) returns (worker: nat)
      requires CanExecute(pool.View(), who)
      modifies pool.slots, pool`clients, pool`acquirer, pool`acquires, pool`handedBack
      ensures pool.Valid() && pool.View() == Begun(old(pool.View()), who, outcome)
      ensures worker == old(FirstFree(pool.slots[..]))
      ensures pool.acquires == old(pool.acquires) + 1
      ensures pool.handedBack == old(pool.handedBack) + if outcome.Normal? then 0 else 1
    {
      var taken := pool.Acquire(who);  // a slot is free, so the loop around this call ends at once
      worker := taken.value;
      ghost var before := pool.View();
      ghost var owed := pool.clients[who].owed + [worker];
      StepKeepsGood(before, Finish(who, outcome, 0));
      assert !AnyBlocked(before.clients);
      if !outcome.Normal? {
        pool.ReturnWorker(worker);
      }
      pool.Move(who, Client(if outcome.Deadlock? then Entering(false) else Leaving, owed));
    }

    /** The return at the end of `execute`. */
    method AtTheEnd(ghost who: nat, worker: nat)
      requires pool.Valid() && Alone(pool.View(), who)
      requires pool.clients[who].at.Leaving? && pool.clients[who].owed != []
      requires pool.clients[who].owed[|pool.clients[who].owed| - 1] == worker
      modifies pool.slots, pool`clients, pool`handedBack
      ensures pool.View() == Step(old(pool.View()), Leave(who, 0)) && pool.Valid()
      ensures pool.handedBack == old(pool.handedBack) + 1
    {
      ghost var before := pool.View();
      ghost var owed := pool.clients[who].owed[..|pool.clients[who].owed| - 1];
      StepKeepsGood(before, Leave(who, 0));
      assert !AnyBlocked(before.clients);
      pool.ReturnWorker(worker);
      pool.Move(who, Client(if owed == [] then Outside else Leaving, owed));
    }

    /** `execute` for an operation that hits a lock error `deadlocks` times and then ends as `last`, while
        no other client is active: each retry costs one more acquire and two more returns, the availability
        of every slot ends as it began, and the client's stack of owed slots is popped to where it was. */
    method Execute(ghost who: nat, deadlocks: nat, last: Outcome)
      requires CanExecute(pool.View(), who) && !last.Deadlock?
      modifies pool.slots, pool`clients, pool`acquirer, pool`acquires, pool`handedBack
      ensures pool.Valid() && pool.slots[..] == old(pool.slots[..])
      ensures pool.clients == old(pool.clients)[who := Ended(old(pool.clients[who].owed))]
      ensures pool.acquires == old(pool.acquires) + deadlocks + 1
      ensures pool.handedBack == old(pool.handedBack) + 2 * deadlocks + if last.BadParameter? then 2 else 1
      decreases deadlocks
    {
      ghost var before := pool.View();
      BegunStands(before, who, if deadlocks == 0 then last else Deadlock);
      var worker := Begin(who, if deadlocks == 0 then last else Deadlock);
      if deadlocks > 0 {
        Execute(who, deadlocks - 1, last);
      }
      LastReturn(before, pool.View(), who);
      AtTheEnd(who, worker);
    }
  }
}
