/** What every run of the connection pool guarantees, and what only single-return runs guarantee. */
module ConnectionTheorems {
  import opened Runs
  import opened ConnectionProtocol

  function After(slots: nat, clients: nat, run: seq<Action>): Pool
  {
    Exec(Step, Initial(slots, clients), run)
  }

  // ---- Well-formed states ----

  ghost predicate WellFormed(p: Pool)
  {
    && |p.acquirer| == |p.free|
    && forall c :: 0 <= c < |p.clients| ==> ClientOk(p.clients[c], |p.free|)
  }

  predicate ClientOk(c: Client, slots: nat)
  {
    && (c.at.Using? ==> c.at.slot < slots)
    && (c.at.Leaving? ==> c.owed != [])
    && (c.at.Outside? ==> c.owed == [])
    && forall k :: 0 <= k < |c.owed| ==> c.owed[k] < slots
  }

  lemma StepKeepsForm(p: Pool, a: Action)
    requires WellFormed(p)
    ensures WellFormed(Step(p, a))
    ensures |Step(p, a).free| == |p.free| && |Step(p, a).clients| == |p.clients|
  {
    if Enabled(p, a) {
      var q := Step(p, a);
      assert ClientOk(p.clients[a.who], |p.free|);
      assert ClientOk(q.clients[a.who], |p.free|);
    }
  }

  // ---- No worker is leaked ----

  /** A client that has not returned slot i since it last took it. */
  predicate StillHas(c: Client, i: nat)
  {
    c.at == Using(i) || (c.at.Leaving? && c.owed != [] && c.owed[|c.owed| - 1] == i)
  }

  ghost predicate NoLeak(p: Pool)
  {
    forall i :: 0 <= i < |p.free| == |p.acquirer| && !p.free[i] ==>
      p.acquirer[i] < |p.clients| && StillHas(p.clients[p.acquirer[i]], i)
  }

  lemma StepKeepsNoLeak(p: Pool, a: Action)
    requires WellFormed(p) && NoLeak(p)
    ensures NoLeak(Step(p, a))
  {
    if Enabled(p, a) {
      var q := Step(p, a);
      forall i | 0 <= i < |q.free| && !q.free[i]
        ensures q.acquirer[i] < |q.clients| && StillHas(q.clients[q.acquirer[i]], i)
      {
        if !p.free[i] {
          assert q.acquirer[i] == p.acquirer[i] && StillHas(p.clients[p.acquirer[i]], i);
        }
      }
    }
  }

  // ---- No lost wakeup ----

  ghost predicate NoLostWakeup(p: Pool)
  {
    AnyBlocked(p.clients) ==> Count(IsFree, p.free) <= Count(IsNotified, p.clients)
  }

  lemma ReturnKeepsWakeups(p: Pool, i: nat, pick: nat)
    requires NoLostWakeup(p) && Reaches(p.clients, pick)
    ensures NoLostWakeup(Return(p, i, pick))
  {
    if i < |p.free| {
      CountUpdate(IsFree, p.free, i, true);
      if AnyBlocked(p.clients) {
        CountUpdate(IsNotified, p.clients, pick, p.clients[pick].(at := Notified));
      }
    }
  }

  /** Moving a client that neither becomes blocked nor was notified does not matter. */
  lemma MoveKeepsWakeups(p: Pool, who: nat, c: Client)
    requires NoLostWakeup(p) && who < |p.clients|
    requires !IsBlocked(c) && !IsNotified(c) && !IsNotified(p.clients[who])
    ensures NoLostWakeup(p.(clients := p.clients[who := c]))
  {
    CountUpdate(IsNotified, p.clients, who, c);
  }

  lemma AcquireKeepsWakeups(p: Pool, who: nat)
    requires NoLostWakeup(p) && Enabled(p, Acquire(who))
    ensures NoLostWakeup(AcquireTurn(p, who))
  {
    var q := AcquireTurn(p, who);
    CountUpdate(IsNotified, p.clients, who, q.clients[who]);
    CountPositive(IsFree, p.free);
    if AnyFree(p.free) {
      CountUpdate(IsFree, p.free, FirstFree(p.free), false);
    }
  }

  lemma StepKeepsWakeups(p: Pool, a: Action)
    requires NoLostWakeup(p)
    ensures NoLostWakeup(Step(p, a))
  {
    if Enabled(p, a) {
      var c, q := p.clients[a.who], Step(p, a);
      match a
      case Acquire(who) => AcquireKeepsWakeups(p, who);
      case Finish(who, outcome, pick) =>
        var r := if outcome.Normal? then p else Return(p, c.at.slot, pick);
        if !outcome.Normal? { ReturnKeepsWakeups(p, c.at.slot, pick); }
        MoveKeepsWakeups(r, who, q.clients[who]);
      case Leave(who, pick) =>
        ReturnKeepsWakeups(p, c.owed[|c.owed| - 1], pick);
        MoveKeepsWakeups(Return(p, c.owed[|c.owed| - 1], pick), who, q.clients[who]);
      case _ => MoveKeepsWakeups(p, a.who, q.clients[a.who]);
    }
  }

  // ---- The invariants of every run ----

  ghost predicate Good(p: Pool, slots: nat, clients: nat)
  {
    WellFormed(p) && NoLeak(p) && NoLostWakeup(p) && |p.free| == slots && |p.clients| == clients
  }

  lemma StepKeepsGood(p: Pool, a: Action)
    requires Good(p, |p.free|, |p.clients|)
    ensures Good(Step(p, a), |p.free|, |p.clients|)
  {
    StepKeepsForm(p, a);
    StepKeepsNoLeak(p, a);
    StepKeepsWakeups(p, a);
  }

  /** A return keeps the invariants by itself, whoever makes it. */
  lemma ReturnKeepsGood(p: Pool, i: nat, pick: nat)
    requires Good(p, |p.free|, |p.clients|) && Reaches(p.clients, pick)
    ensures Good(Return(p, i, pick), |p.free|, |p.clients|)
  {
    ReturnKeepsWakeups(p, i, pick);
    var q := Return(p, i, pick);
    forall j | 0 <= j < |q.free| && !q.free[j]
      ensures q.acquirer[j] < |q.clients| && StillHas(q.clients[q.acquirer[j]], j)
    {
      assert StillHas(p.clients[p.acquirer[j]], j);
    }
  }

  lemma GoodAlways(slots: nat, clients: nat, run: seq<Action>)
    ensures Good(After(slots, clients, run), slots, clients)
  {
    forall p, a | Good(p, slots, clients)
      ensures Good(Step(p, a), slots, clients)
    {
      StepKeepsGood(p, a);
    }
    Always(Step, (p: Pool) => Good(p, slots, clients), Initial(slots, clients), run);
  }

  /** In every run, double returns included, the client that last took an unavailable slot has not
      returned it, so all slots are available when nobody is inside `execute`. */
  lemma NoWorkerIsLeaked(slots: nat, clients: nat, run: seq<Action>)
    ensures NoLeak(After(slots, clients, run))
    ensures (forall c :: c in After(slots, clients, run).clients ==> c.at.Outside?)
        ==> forall b :: b in After(slots, clients, run).free ==> b
  {
    GoodAlways(slots, clients, run);
  }

  /** While some client is blocked, every available slot has a notified client on its way to it. */
  lemma BlockedClientsAreNotForgotten(slots: nat, clients: nat, run: seq<Action>)
    ensures NoLostWakeup(After(slots, clients, run))
  {
    GoodAlways(slots, clients, run);
  }

  // ---- Exclusive ownership ----

  /** No worker serves two clients at once. */
  ghost predicate Exclusive(p: Pool)
  {
    forall c, d :: 0 <= c < d < |p.clients| && p.clients[c].at.Using? && p.clients[d].at.Using? ==>
      p.clients[c].at.slot != p.clients[d].at.slot
  }

  predicate Holds(c: Client) { c.at.Using? || c.at.Leaving? }

  /** The slot a holding client has taken and not yet returned, when it returns each slot only once. */
  function Held(c: Client): nat
    requires Holds(c) && (c.at.Leaving? ==> c.owed != [])
  {
    if c.at.Using? then c.at.slot else c.owed[0]
  }

  ghost predicate HoldersOwn(p: Pool)
  {
    forall c :: 0 <= c < |p.clients| ==>
      && |p.clients[c].owed| == (if p.clients[c].at.Leaving? then 1 else 0)
      && (Holds(p.clients[c]) ==>
            var i := Held(p.clients[c]); i < |p.free| == |p.acquirer| && !p.free[i] && p.acquirer[i] == c)
  }

  ghost predicate HoldersCounted(p: Pool)
  {
    Count(IsFree, p.free) + Count(Holds, p.clients) == |p.free|
  }

  predicate FinishesWith(run: seq<Action>, allowed: set<Outcome>)
  {
    forall a :: a in run && a.Finish? ==> a.outcome in allowed
  }

  lemma {:induction false} NotifyKeepsHolders(cs: seq<Client>, pick: nat)
    requires Reaches(cs, pick)
    ensures Count(Holds, Notify(cs, pick)) == Count(Holds, cs)
  {
    if AnyBlocked(cs) {
      CountUpdate(Holds, cs, pick, cs[pick].(at := Notified));
    }
  }

  lemma LeaveKeepsOwners(p: Pool, who: nat, pick: nat)
    requires WellFormed(p) && HoldersOwn(p) && Enabled(p, Leave(who, pick))
    ensures HoldersOwn(Step(p, Leave(who, pick)))
  {
    var i := p.clients[who].owed[0];
    var q := Step(p, Leave(who, pick));
    forall c | 0 <= c < |q.clients| && c != who && Holds(q.clients[c])
      ensures q.clients[c] == p.clients[c] && Held(p.clients[c]) != i
    {
      assert Held(p.clients[who]) == i;
    }
  }

  lemma StepKeepsOwners(p: Pool, a: Action)
    requires WellFormed(p) && HoldersOwn(p)
    requires a.Finish? ==> a.outcome.Normal?
    ensures HoldersOwn(Step(p, a))
  {
    if a.Leave? && Enabled(p, a) {
      LeaveKeepsOwners(p, a.who, a.pick);
    }
  }

  lemma LeaveKeepsCounts(p: Pool, who: nat, pick: nat)
    requires WellFormed(p) && HoldersOwn(p) && HoldersCounted(p) && Enabled(p, Leave(who, pick))
    ensures HoldersCounted(Step(p, Leave(who, pick)))
  {
    var i := p.clients[who].owed[0];
    assert !p.free[Held(p.clients[who])];
    NotifyKeepsHolders(p.clients, pick);
    CountUpdate(IsFree, p.free, i, true);
    CountUpdate(Holds, Notify(p.clients, pick), who, Client(Outside, []));
  }

  lemma StepKeepsCounts(p: Pool, a: Action)
    requires WellFormed(p) && HoldersOwn(p) && HoldersCounted(p)
    requires a.Finish? ==> a.outcome.Normal?
    ensures HoldersCounted(Step(p, a))
  {
    if a.Leave? {
      if Enabled(p, a) { LeaveKeepsCounts(p, a.who, a.pick); }
    } else if Enabled(p, a) {
      CountUpdate(Holds, p.clients, a.who, Step(p, a).clients[a.who]);
      if a.Acquire? && AnyFree(p.free) {
        CountUpdate(IsFree, p.free, FirstFree(p.free), false);
      }
    }
  }

  lemma {:induction false} SingleAlways(slots: nat, clients: nat, run: seq<Action>)
    requires FinishesWith(run, {Normal})
    ensures HoldersOwn(After(slots, clients, run)) && HoldersCounted(After(slots, clients, run))
  {
    if run == [] {
      NobodyHolds(Initial(slots, clients).clients);
      AllFree(Initial(slots, clients).free);
    } else {
      var front, a := run[..|run| - 1], run[|run| - 1];
      assert a in run && FinishesWith(front, {Normal});
      SingleAlways(slots, clients, front);
      GoodAlways(slots, clients, front);
      StepKeepsOwners(After(slots, clients, front), a);
      StepKeepsCounts(After(slots, clients, front), a);
    }
  }

  lemma {:induction false} NobodyHolds(cs: seq<Client>)
    requires forall c :: c in cs ==> !Holds(c)
    ensures Count(Holds, cs) == 0
  {
    CountPositive(Holds, cs);
  }

  lemma {:induction false} AllFree(free: seq<bool>)
    requires forall i :: 0 <= i < |free| ==> IsFree(free[i])
    ensures Count(IsFree, free) == |free|
  {
    if free != [] {
      AllFree(free[..|free| - 1]);
    }
  }

  /** When every `execute` returns its worker once, no worker is held twice, and available plus held
      slots make up the pool. */
  lemma SingleReturnsAreExclusive(slots: nat, clients: nat, run: seq<Action>)
    requires FinishesWith(run, {Normal})
    ensures var p := After(slots, clients, run);
      Exclusive(p) && Count(IsFree, p.free) + Count(Holds, p.clients) == slots
  {
    GoodAlways(slots, clients, run);
    SingleAlways(slots, clients, run);
  }

  // ---- A double return breaks it ----

  /** Two clients of interest, everybody else idle, every slot but the first available. */
  function Pair(slots: nat, clients: nat, a: Client, b: Client, firstFree: bool, acquirer: nat): Pool
  {
    Pool(seq(slots, i => i > 0 || firstFree),
         seq(clients, c => if c == 0 then a else if c == 1 then b else Client(Outside, [])),
         seq(slots, i => if i == 0 then acquirer else 0))
  }

  lemma FirstTakes(slots: nat, clients: nat, owed: seq<nat>, b: Client, last: nat)
    requires slots >= 1 && clients >= 2
    ensures Step(Pair(slots, clients, Client(Entering(false), owed), b, true, last), Acquire(0))
         == Pair(slots, clients, Client(Using(0), owed), b, false, 0)
  {
    var p := Pair(slots, clients, Client(Entering(false), owed), b, true, last);
    var q := Pair(slots, clients, Client(Using(0), owed), b, false, 0);
    assert IsFree(p.free[0]);
    var r := Step(p, Acquire(0));
    assert r.free == q.free && r.clients == q.clients && r.acquirer == q.acquirer;
  }

  lemma SecondTakes(slots: nat, clients: nat, a: Client)
    requires slots >= 1 && clients >= 2
    ensures Step(Step(Pair(slots, clients, a, Client(Outside, []), true, 0), Call(1)), Acquire(1))
         == Pair(slots, clients, a, Client(Using(0), []), false, 1)
  {
    var p := Step(Pair(slots, clients, a, Client(Outside, []), true, 0), Call(1));
    var q := Pair(slots, clients, a, Client(Using(0), []), false, 1);
    assert IsFree(p.free[0]);
    var r := Step(p, Acquire(1));
    assert r.free == q.free && r.clients == q.clients && r.acquirer == q.acquirer;
  }

  lemma FirstFinishes(slots: nat, clients: nat, owed: seq<nat>, o: Outcome)
    requires slots >= 1 && clients >= 2
    ensures Step(Pair(slots, clients, Client(Using(0), owed), Client(Outside, []), false, 0), Finish(0, o, 0))
         == Pair(slots, clients, Client(if o.Deadlock? then Entering(false) else Leaving, owed + [0]), Client(Outside, []), !o.Normal?, 0)
  {
    var p := Pair(slots, clients, Client(Using(0), owed), Client(Outside, []), false, 0);
    var q := Pair(slots, clients, Client(if o.Deadlock? then Entering(false) else Leaving, owed + [0]), Client(Outside, []), !o.Normal?, 0);
    assert !AnyBlocked(p.clients);
    var r := Step(p, Finish(0, o, 0));
    assert r.free == q.free && r.clients == q.clients && r.acquirer == q.acquirer;
  }

  lemma FirstLeaves(slots: nat, clients: nat, owed: seq<nat>, b: Client, free: bool, last: nat)
    requires slots >= 1 && clients >= 2 && !IsBlocked(b)
    ensures Step(Pair(slots, clients, Client(Leaving, owed + [0]), b, free, last), Leave(0, 0))
         == Pair(slots, clients, Client(if owed == [] then Outside else Leaving, owed), b, true, last)
  {
    var p := Pair(slots, clients, Client(Leaving, owed + [0]), b, free, last);
    var q := Pair(slots, clients, Client(if owed == [] then Outside else Leaving, owed), b, true, last);
    assert !AnyBlocked(p.clients);
    var r := Step(p, Leave(0, 0));
    assert r.free == q.free && r.clients == q.clients && r.acquirer == q.acquirer;
  }

  lemma FirstCalls(slots: nat, clients: nat, b: Client, last: nat)
    requires slots >= 1 && clients >= 2
    ensures Step(Pair(slots, clients, Client(Outside, []), b, true, last), Call(0))
         == Pair(slots, clients, Client(Entering(false), []), b, true, last)
  {
    var p := Pair(slots, clients, Client(Outside, []), b, true, last);
    assert Step(p, Call(0)).clients == Pair(slots, clients, Client(Entering(false), []), b, true, last).clients;
  }

  /** A call after which client 0 owes a slot it has already returned. */
  function OwingRun(o: Outcome): seq<Action>
  {
    [Call(0)] + [Acquire(0)] + [Finish(0, o, 0)]
    + if o.Deadlock? then [Acquire(0)] + [Finish(0, Normal, 0)] + [Leave(0, 0)] else []
  }

  lemma Follow(slots: nat, clients: nat, run: seq<Action>, p: Pool, a: Action, q: Pool)
    requires After(slots, clients, run) == p && Step(p, a) == q
    ensures After(slots, clients, run + [a]) == q
  {
    ExecOne(Step, Initial(slots, clients), run, a);
  }

  lemma FirstCallEnds(slots: nat, clients: nat, o: Outcome)
    requires slots >= 1 && clients >= 2
    ensures After(slots, clients, [Call(0)] + [Acquire(0)] + [Finish(0, o, 0)])
         == Pair(slots, clients, Client(if o.Deadlock? then Entering(false) else Leaving, [0]), Client(Outside, []), !o.Normal?, 0)
  {
    var idle := Client(Outside, []);
    var p0 := Pair(slots, clients, idle, idle, true, 0);
    var p1 := Pair(slots, clients, Client(Entering(false), []), idle, true, 0);
    var p2 := Pair(slots, clients, Client(Using(0), []), idle, false, 0);
    var r2 := [Call(0)] + [Acquire(0)];
    assert Initial(slots, clients) == p0 by {
      var p := Initial(slots, clients);
      assert p.free == p0.free && p.clients == p0.clients && p.acquirer == p0.acquirer;
    }
    assert After(slots, clients, [Call(0)]) == p1 by {
      FirstCalls(slots, clients, idle, 0);
      Follow(slots, clients, [], p0, Call(0), p1);
      assert [] + [Call(0)] == [Call(0)];
    }
    assert After(slots, clients, r2) == p2 by {
      FirstTakes(slots, clients, [], idle, 0);
      Follow(slots, clients, [Call(0)], p1, Acquire(0), p2);
    }
    FirstFinishes(slots, clients, [], o);
    assert [] + [0] == [0];
    ExecOne(Step, Initial(slots, clients), r2, Finish(0, o, 0));
  }

  lemma RetryEnds(slots: nat, clients: nat, run: seq<Action>)
    requires slots >= 1 && clients >= 2
    requires After(slots, clients, run) == Pair(slots, clients, Client(Entering(false), [0]), Client(Outside, []), true, 0)
    ensures After(slots, clients, run + [Acquire(0)] + [Finish(0, Normal, 0)] + [Leave(0, 0)])
         == Pair(slots, clients, Client(Leaving, [0]), Client(Outside, []), true, 0)
  {
    var idle := Client(Outside, []);
    var p0 := Pair(slots, clients, Client(Entering(false), [0]), idle, true, 0);
    var p1 := Pair(slots, clients, Client(Using(0), [0]), idle, false, 0);
    var p2 := Pair(slots, clients, Client(Leaving, [0] + [0]), idle, false, 0);
    var p3 := Pair(slots, clients, Client(Leaving, [0]), idle, true, 0);
    assert After(slots, clients, run + [Acquire(0)]) == p1 by {
      FirstTakes(slots, clients, [0], idle, 0);
      Follow(slots, clients, run, p0, Acquire(0), p1);
    }
    assert After(slots, clients, run + [Acquire(0)] + [Finish(0, Normal, 0)]) == p2 by {
      FirstFinishes(slots, clients, [0], Normal);
      Follow(slots, clients, run + [Acquire(0)], p1, Finish(0, Normal, 0), p2);
    }
    FirstLeaves(slots, clients, [0], idle, false, 0);
    Follow(slots, clients, run + [Acquire(0)] + [Finish(0, Normal, 0)], p2, Leave(0, 0), p3);
  }

  lemma OwingReached(slots: nat, clients: nat, o: Outcome)
    requires slots >= 1 && clients >= 2 && !o.Normal?
    ensures After(slots, clients, OwingRun(o)) == Pair(slots, clients, Client(Leaving, [0]), Client(Outside, []), true, 0)
  {
    FirstCallEnds(slots, clients, o);
    var r := [Call(0)] + [Acquire(0)] + [Finish(0, o, 0)];
    if o.Deadlock? {
      RetryEnds(slots, clients, r);
      assert r + [Acquire(0)] + [Finish(0, Normal, 0)] + [Leave(0, 0)] == OwingRun(o);
    } else {
      assert r == OwingRun(o);
    }
  }

  lemma OwedSlotIsTaken(slots: nat, clients: nat, run: seq<Action>)
    requires slots >= 1 && clients >= 2
    requires After(slots, clients, run) == Pair(slots, clients, Client(Leaving, [0]), Client(Outside, []), true, 0)
    ensures After(slots, clients, run + [Call(1)] + [Acquire(1)])
         == Pair(slots, clients, Client(Leaving, [0]), Client(Using(0), []), false, 1)
  {
    SecondTakes(slots, clients, Client(Leaving, [0]));
    ExecOne(Step, Initial(slots, clients), run, Call(1));
    ExecOne(Step, Initial(slots, clients), run + [Call(1)], Acquire(1));
  }

  lemma SecondReturnFrees(slots: nat, clients: nat, run: seq<Action>)
    requires slots >= 1 && clients >= 2
    requires After(slots, clients, run) == Pair(slots, clients, Client(Leaving, [0]), Client(Using(0), []), false, 1)
    ensures After(slots, clients, run + [Leave(0, 0)] + [Call(0)] + [Acquire(0)])
         == Pair(slots, clients, Client(Using(0), []), Client(Using(0), []), false, 0)
  {
    var user := Client(Using(0), []);
    var p0 := Pair(slots, clients, Client(Leaving, [0]), user, false, 1);
    var p1 := Pair(slots, clients, Client(Outside, []), user, true, 1);
    var p2 := Pair(slots, clients, Client(Entering(false), []), user, true, 1);
    assert After(slots, clients, run + [Leave(0, 0)]) == p1 by {
      assert [] + [0] == [0];
      FirstLeaves(slots, clients, [], user, false, 1);
      Follow(slots, clients, run, p0, Leave(0, 0), p1);
    }
    assert After(slots, clients, run + [Leave(0, 0)] + [Call(0)]) == p2 by {
      FirstCalls(slots, clients, user, 1);
      Follow(slots, clients, run + [Leave(0, 0)], p1, Call(0), p2);
    }
    FirstTakes(slots, clients, [], user, 1);
    Follow(slots, clients, run + [Leave(0, 0)] + [Call(0)], p2, Acquire(0), Pair(slots, clients, user, user, false, 0));
  }

  function SharingRun(o: Outcome): seq<Action>
  {
    OwingRun(o) + [Call(1)] + [Acquire(1)] + [Leave(0, 0)] + [Call(0)] + [Acquire(0)]
  }

  /** While client 1 uses the slot client 0 owes, the second return frees it, and client 0 takes it again. */
  lemma DoubleReturnShares(slots: nat, clients: nat, o: Outcome)
    requires slots >= 1 && clients >= 2 && !o.Normal?
    ensures After(slots, clients, SharingRun(o)) == Pair(slots, clients, Client(Using(0), []), Client(Using(0), []), false, 0)
    ensures !Exclusive(After(slots, clients, SharingRun(o)))
  {
    OwingReached(slots, clients, o);
    OwedSlotIsTaken(slots, clients, OwingRun(o));
    SecondReturnFrees(slots, clients, OwingRun(o) + [Call(1)] + [Acquire(1)]);
    var shared := After(slots, clients, SharingRun(o));
    assert shared.clients[0] == Client(Using(0), []) && shared.clients[1] == Client(Using(0), []);
  }

  /** With normal endings possible, workers are exclusive in every run exactly when no ending that
      returns the worker twice is, or there is only one client. */
  lemma ExclusiveExactlyWithoutDoubleReturns(slots: nat, clients: nat, allowed: set<Outcome>)
    requires slots >= 1 && Normal in allowed
    ensures (forall run :: FinishesWith(run, allowed) ==> Exclusive(After(slots, clients, run)))
       <==> allowed == {Normal} || clients < 2
  {
    if allowed == {Normal} {
      forall run | FinishesWith(run, allowed)
        ensures Exclusive(After(slots, clients, run))
      {
        SingleReturnsAreExclusive(slots, clients, run);
      }
    } else if clients < 2 {
      forall run | FinishesWith(run, allowed)
        ensures Exclusive(After(slots, clients, run))
      {
        GoodAlways(slots, clients, run);
      }
    } else {
      var o :| o in allowed && o != Normal;
      DoubleReturnShares(slots, clients, o);
      assert FinishesWith(SharingRun(o), allowed) && !Exclusive(After(slots, clients, SharingRun(o)));
    }
  }
}
