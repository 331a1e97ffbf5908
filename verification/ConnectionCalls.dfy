/** What becomes of every call of `execute` (app/src/DbManager.cpp): it keeps asking for a worker until it
    has one, and comes back only after its operation has run. */
module ConnectionCalls {
  import opened Runs
  import opened ConnectionProtocol
  import opened ConnectionTheorems

  // ---- One step ----

  /** A step leaves the other clients alone, except that one of those blocked may be notified. */
  lemma OthersOnlyNotified(p: Pool, a: Action, c: nat)
    requires c < |p.clients| && c != a.who
    ensures var q := Step(p, a);
      |q.clients| == |p.clients|
      && (q.clients[c] == p.clients[c]
          || (p.clients[c].at.Blocked? && q.clients[c] == p.clients[c].(at := Notified)))
  {}

  /** A client comes back from `execute` only by the return that hands back the last slot it owes. */
  lemma ComesBackOnlyByReturning(p: Pool, a: Action, c: nat)
    requires c < |p.clients| && !p.clients[c].at.Outside?
    ensures |Step(p, a).clients| == |p.clients|
    ensures Step(p, a).clients[c].at.Outside? ==>
      Enabled(p, a) && a.Leave? && a.who == c && p.clients[c].at.Leaving? && |p.clients[c].owed| == 1
  {
    if a.who != c {
      OthersOnlyNotified(p, a, c);
    }
  }

  /** A turn of `acquire` ends in one of three ways: with a slot that was available, and no other slot
      changed; waiting, when nothing is available and its time has not expired; or about to ask again. */
  lemma AcquireAnswers(p: Pool, c: nat)
    requires WellFormed(p) && Enabled(p, Acquire(c))
    ensures var q, at := Step(p, Acquire(c)), Step(p, Acquire(c)).clients[c].at;
      && q.clients[c].owed == p.clients[c].owed
      && (if true in p.free then
            at.Using? && at.slot < |p.free| && p.free[at.slot] && q.free == p.free[at.slot := false]
          else
            q.free == p.free && at == if p.clients[c].at == Entering(true) then Entering(false) else Blocked)
  {
    if true in p.free {
      var i :| 0 <= i < |p.free| && p.free[i];
      assert IsFree(p.free[i]);
    }
  }

  /** A client whose wait has expired takes a slot if there is one by then, and else asks again. */
  lemma ExpiredClientAsksAgain(p: Pool, c: nat)
    requires WellFormed(p) && Enabled(p, TimeOut(c))
    ensures var q := Step(Step(p, TimeOut(c)), Acquire(c));
      c < |q.clients| && if true in p.free then q.clients[c].at.Using? else q.clients[c].at == Entering(false)
  {
    if true in p.free {
      var i :| 0 <= i < |p.free| && p.free[i];
      assert IsFree(p.free[i]);
    }
  }

  // ---- Whole calls ----

  /** Still before the end of the operation: asking for a worker, or using one. */
  predicate BeforeTheEnd(c: Client)
  {
    c.at.Entering? || c.at.Blocked? || c.at.Notified? || c.at.Using?
  }

  /** In step `i` of `rest` the operation of client `c` ends, other than by a lock error. */
  predicate EndsOperation(p: Pool, rest: seq<Action>, i: nat, c: nat)
    requires i < |rest|
  {
    rest[i].Finish? && rest[i].who == c && !rest[i].outcome.Deadlock? && Enabled(Exec(Step, p, rest[..i]), rest[i])
  }

  lemma StillBeforeTheEnd(p: Pool, a: Action, c: nat)
    requires c < |p.clients| && BeforeTheEnd(p.clients[c])
    ensures |Step(p, a).clients| == |p.clients|
    ensures BeforeTheEnd(Step(p, a).clients[c])
         || (Enabled(p, a) && a.Finish? && a.who == c && !a.outcome.Deadlock? && p.clients[c].at.Using?)
  {
    if a.who != c {
      OthersOnlyNotified(p, a, c);
    }
  }

  lemma {:induction false} OperationEndsFirst(p: Pool, rest: seq<Action>, c: nat)
    requires c < |p.clients| && BeforeTheEnd(p.clients[c])
    ensures var q := Exec(Step, p, rest);
      |q.clients| == |p.clients| && (BeforeTheEnd(q.clients[c]) || exists i :: 0 <= i < |rest| && EndsOperation(p, rest, i, c))
  {
    if rest != [] {
      var front, a := rest[..|rest| - 1], rest[|rest| - 1];
      var mid := Exec(Step, p, front);
      OperationEndsFirst(p, front, c);
      if BeforeTheEnd(mid.clients[c]) {
        StillBeforeTheEnd(mid, a, c);
        assert !BeforeTheEnd(Step(mid, a).clients[c]) ==> EndsOperation(p, rest, |rest| - 1, c);
      } else {
        var i :| 0 <= i < |front| && EndsOperation(p, front, i, c);
        assert rest[..i] == front[..i] && EndsOperation(p, rest, i, c);
        LengthStays(mid, a);
      }
    }
  }

  lemma LengthStays(p: Pool, a: Action)
    ensures |Step(p, a).clients| == |p.clients|
  {}

  /** On every run, a client that has called `execute` and is back again has since then ended its operation
      on a worker, other than by a lock error: no operation is dropped. */
  lemma NoOperationIsDropped(slots: nat, clients: nat, run: seq<Action>, c: nat, rest: seq<Action>)
    requires Enabled(After(slots, clients, run), Call(c))
    requires var q := After(slots, clients, run + [Call(c)] + rest); c < |q.clients| && q.clients[c].at.Outside?
    ensures exists i :: 0 <= i < |rest| && EndsOperation(After(slots, clients, run + [Call(c)]), rest, i, c)
  {
    var called := After(slots, clients, run + [Call(c)]);
    ExecOne(Step, Initial(slots, clients), run, Call(c));
    ExecConcat(Step, Initial(slots, clients), run + [Call(c)], rest);
    OperationEndsFirst(called, rest, c);
  }

  // ---- Blocked clients exist ----

  /** With its only worker taken the pool makes the next client wait. */
  lemma ClientCanBlock()
    ensures AnyBlocked(After(1, 2, [Call(0)] + [Acquire(0)] + [Call(1)] + [Acquire(1)]).clients)
  {
    var idle := Client(Outside, []);
    var p1 := Pool([true], [Client(Entering(false), []), idle], [0]);
    var p2 := Pool([false], [Client(Using(0), []), idle], [0]);
    var p4 := Pool([false], [Client(Using(0), []), Client(Blocked, [])], [0]);
    assert Initial(1, 2) == Pool([true], [idle, idle], [0]);
    assert Step(Initial(1, 2), Call(0)) == p1;
    assert IsFree(p1.free[0]);
    assert Step(p1, Acquire(0)) == p2;
    assert Step(Step(p2, Call(1)), Acquire(1)) == p4;
    ExecTwo(Step, Initial(1, 2), Call(0), Acquire(0));
    ExecOne(Step, Initial(1, 2), [Call(0)] + [Acquire(0)], Call(1));
    ExecOne(Step, Initial(1, 2), [Call(0)] + [Acquire(0)] + [Call(1)], Acquire(1));
    assert IsBlocked(p4.clients[1]);
  }
}
