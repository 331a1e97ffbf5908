/** The connection pool and its clients (database/src/DbPool.cpp, app/src/DbManager.cpp) as a step relation.

    `execute` may call itself after a deadlock, so each client carries the stack of slots that its
    enclosing calls still have to return. */
module ConnectionProtocol {
  import opened Runs

  /** Where a client thread stands.
      - `Entering`: about to take the lock in `acquire`; `expired` when its wait has timed out.
      - `Blocked`: waiting for a free slot.
      - `Notified`: woken by `returnWorker`, has not yet re-taken the lock.
      - `Using(i)`: running its operation on slot i.
      - `Leaving`: about to return the slot on top of its stack. */
  datatype Where = Outside | Entering(expired: bool) | Blocked | Notified | Using(slot: nat) | Leaving

  datatype Client = Client(at: Where, owed: seq<nat>)

  /** How the operation ends: normally (or by an exception that returns the worker once), by a
      `ParameterException`, or by a lock error that makes `execute` retry.  The operations at hand catch
      the errors of their statements themselves, so that such a lock error can only come out of their
      rollback. */
  datatype Outcome = Normal | BadParameter | Deadlock

  datatype Action =
    | Call(who: nat)
    | Acquire(who: nat)
    | TimeOut(who: nat)
    | WakeSpuriously(who: nat)
    | Finish(who: nat, outcome: Outcome, pick: nat)
    | Leave(who: nat, pick: nat)

  /** `acquirer[i]` is the client that took slot i most recently. */
  datatype Pool = Pool(free: seq<bool>, clients: seq<Client>, acquirer: seq<nat>)

  function Initial(slots: nat, clients: nat): Pool
  {
    Pool(seq(slots, i => true), seq(clients, i => Client(Outside, [])), seq(slots, i => 0))
  }

  predicate IsFree(b: bool) { b }
  predicate IsBlocked(c: Client) { c.at.Blocked? }
  predicate IsNotified(c: Client) { c.at.Notified? }

  predicate AnyFree(free: seq<bool>) { exists i :: 0 <= i < |free| && IsFree(free[i]) }
  predicate AnyBlocked(cs: seq<Client>) { exists c :: 0 <= c < |cs| && IsBlocked(cs[c]) }

  /** The first free slot, as the search in `acquire` finds it. */
  function FirstFree(free: seq<bool>): (i: nat)
    requires AnyFree(free)
    ensures i < |free| && free[i] && forall j :: 0 <= j < i ==> !free[j]
  {
    if free[0] then 0
    else
      assert AnyFree(free[1..]) by {
        var k :| 0 <= k < |free| && IsFree(free[k]);
        assert IsFree(free[1..][k - 1]);
      }
      1 + FirstFree(free[1..])
  }

  /** The notification in `returnWorker` reaches a blocked client when there is one. */
  predicate Reaches(cs: seq<Client>, pick: nat)
  {
    AnyBlocked(cs) ==> pick < |cs| && IsBlocked(cs[pick])
  }

  function Notify(cs: seq<Client>, pick: nat): seq<Client>
    requires Reaches(cs, pick)
  {
    if AnyBlocked(cs) then cs[pick := cs[pick].(at := Notified)] else cs
  }

  /** `returnWorker(i)`: an unknown number is ignored, without a notification. */
  function Return(p: Pool, i: nat, pick: nat): Pool
    requires Reaches(p.clients, pick)
  {
    if i >= |p.free| then p
    else p.(free := p.free[i := true], clients := Notify(p.clients, pick))
  }

  predicate Enabled(p: Pool, a: Action)
  {
    && a.who < |p.clients| && |p.acquirer| == |p.free|
    && var c := p.clients[a.who];
       match a
       case Call(_) => c.at.Outside?
       case Acquire(_) => c.at.Entering? || c.at.Notified?
       case TimeOut(_) => c.at.Blocked?
       case WakeSpuriously(_) => c.at.Blocked?
       case Finish(_, _, pick) => c.at.Using? && Reaches(p.clients, pick)
       case Leave(_, pick) => c.at.Leaving? && c.owed != [] && Reaches(p.clients, pick)
  }

  /** One turn in `acquire` under the lock: take the first free slot; else wait, or, if the wait has
      expired, come back with nothing, upon which `execute` calls `acquire` again. */
  function AcquireTurn(p: Pool, who: nat): Pool
    requires who < |p.clients| && |p.acquirer| == |p.free|
  {
    var c := p.clients[who];
    if AnyFree(p.free) then
      var i := FirstFree(p.free);
      p.(free := p.free[i := false], clients := p.clients[who := c.(at := Using(i))],
         acquirer := p.acquirer[i := who])
    else if c.at == Entering(true) then p.(clients := p.clients[who := c.(at := Entering(false))])
    else p.(clients := p.clients[who := c.(at := Blocked)])
  }

  function Step(p: Pool, a: Action): Pool
  {
    if !Enabled(p, a) then p
    else
      var c := p.clients[a.who];
      match a
      case Call(who) => p.(clients := p.clients[who := Client(Entering(false), [])])
      case Acquire(who) => AcquireTurn(p, who)
      case TimeOut(who) => p.(clients := p.clients[who := c.(at := Entering(true))])
      case WakeSpuriously(who) => p.(clients := p.clients[who := c.(at := Entering(false))])
      case Finish(who, outcome, pick) =>
        var i := c.at.slot;
        (match outcome
         case Normal => p.(clients := p.clients[who := Client(Leaving, c.owed + [i])])
         case BadParameter =>
           var q := Return(p, i, pick);
           q.(clients := q.clients[who := Client(Leaving, c.owed + [i])])
         case Deadlock =>
           var q := Return(p, i, pick);
           q.(clients := q.clients[who := Client(Entering(false), c.owed + [i])]))
      case Leave(who, pick) =>
        var owed := c.owed[..|c.owed| - 1];
        var q := Return(p, c.owed[|c.owed| - 1], pick);
        q.(clients := q.clients[who := Client(if owed == [] then Outside else Leaving, owed)])
  }
}
