/** The worker-pool monitor (core/src/ThreadPool.cpp, core/include/ThreadPool.hpp) as a step relation.

    One action is one critical section of the source, or one act of the condition variable.  `enqueue`
    is two actions, because it notifies after it has released the lock. */
module PoolProtocol {
  import opened Runs

  /** Where a worker thread stands.
      - `Asleep`: blocked in `condition.wait`.
      - `Signalled`: woken by a notification, has not yet re-taken the lock.
      - `Ready`: about to take the lock for another reason (first turn, task done, spurious wakeup).
      - `Running`: executing a task, outside the lock.
      - `Exited`: returned from the worker loop. */
  datatype Worker<T> = Asleep | Signalled | Ready | Running(task: T) | Exited

  /** How far the destructor has come; `Joining(k)` has joined the first k workers. */
  datatype Closing = Open | StopSet | Joining(joined: nat)

  /** `unnotified` counts the enqueuers between unlocking and `notify_one`.  `accepted`, `started` and
      `finished` are histories. */
  datatype Pool<T> = Pool(
    workers: seq<Worker<T>>, tasks: seq<T>, stop: bool, unnotified: nat, closing: Closing,
    accepted: seq<T>, started: seq<T>, finished: seq<T>)

  datatype Action<T> =
    | Enqueue(task: T)
    | NotifyOne(pick: nat)
    | WakeSpuriously(who: nat)
    | TakeTurn(who: nat)
    | Complete(who: nat)
    | RequestStop
    | NotifyAll
    | JoinNext

  predicate IsAsleep<T>(w: Worker<T>) { w.Asleep? }
  predicate IsSignalled<T>(w: Worker<T>) { w.Signalled? }

  function Initial<T>(n: nat): Pool<T>
  {
    Pool(seq(n, i => Ready), [], false, 0, Open, [], [], [])
  }

  predicate SomeAsleep<T>(p: Pool<T>)
  {
    exists i :: 0 <= i < |p.workers| && IsAsleep(p.workers[i])
  }

  /** A notification reaches some sleeper when there is one, and is lost when there is none. */
  predicate Enabled<T>(p: Pool<T>, a: Action<T>)
  {
    match a
    case Enqueue(_) => !p.stop
    case NotifyOne(i) => p.unnotified > 0 && (SomeAsleep(p) ==> i < |p.workers| && p.workers[i].Asleep?)
    case WakeSpuriously(i) => i < |p.workers| && p.workers[i].Asleep?
    case TakeTurn(i) => i < |p.workers| && (p.workers[i].Signalled? || p.workers[i].Ready?)
    case Complete(i) => i < |p.workers| && p.workers[i].Running?
    case RequestStop => p.closing.Open?
    case NotifyAll => p.closing.StopSet?
    case JoinNext => p.closing.Joining? && p.closing.joined < |p.workers| && p.workers[p.closing.joined].Exited?
  }

  /** One turn under the lock: wait on an empty queue, leave when stopped and empty, else pop the front. */
  function Turn<T>(p: Pool<T>, i: nat): Pool<T>
    requires i < |p.workers|
  {
    if p.tasks == [] && !p.stop then p.(workers := p.workers[i := Asleep])
    else if p.tasks == [] then p.(workers := p.workers[i := Exited])
    else p.(workers := p.workers[i := Running(p.tasks[0])], tasks := p.tasks[1..], started := p.started + [p.tasks[0]])
  }

  function WakeAll<T>(ws: seq<Worker<T>>): (r: seq<Worker<T>>)
    ensures |r| == |ws|
    ensures forall i :: 0 <= i < |ws| ==> r[i] == if ws[i].Asleep? then Signalled else ws[i]
  {
    seq(|ws|, i requires 0 <= i < |ws| => if ws[i].Asleep? then Signalled else ws[i])
  }

  function Step<T>(p: Pool<T>, a: Action<T>): Pool<T>
  {
    if !Enabled(p, a) then p
    else match a
      case Enqueue(t) => p.(tasks := p.tasks + [t], accepted := p.accepted + [t], unnotified := p.unnotified + 1)
      case NotifyOne(i) =>
        if SomeAsleep(p) then p.(workers := p.workers[i := Signalled], unnotified := p.unnotified - 1)
        else p.(unnotified := p.unnotified - 1)
      case WakeSpuriously(i) => p.(workers := p.workers[i := Ready])
      case TakeTurn(i) => Turn(p, i)
      case Complete(i) => p.(workers := p.workers[i := Ready], finished := p.finished + [p.workers[i].task])
      case RequestStop => p.(stop := true, closing := StopSet)
      case NotifyAll => p.(workers := WakeAll(p.workers), closing := Joining(0))
      case JoinNext => p.(closing := Joining(p.closing.joined + 1))
  }

  // ---- The invariant, in five independent parts ----

  function Hand<T>(w: Worker<T>): multiset<T>
  {
    if w.Running? then multiset{w.task} else multiset{}
  }

  /** The tasks that workers are executing. */
  function InHand<T>(ws: seq<Worker<T>>): multiset<T>
  {
    if ws == [] then multiset{} else InHand(ws[..|ws| - 1]) + Hand(ws[|ws| - 1])
  }

  ghost predicate InOrder<T>(p: Pool<T>) { p.started + p.tasks == p.accepted }

  /** Every task has been started as often as it has finished or is being executed. */
  ghost predicate Accounted<T(!new)>(p: Pool<T>)
  {
    forall t :: multiset(p.started)[t] == multiset(p.finished)[t] + InHand(p.workers)[t]
  }

  ghost predicate ExitsAreFinal<T>(p: Pool<T>)
  {
    forall i :: 0 <= i < |p.workers| && p.workers[i].Exited? ==> p.stop && p.tasks == []
  }

  ghost predicate NoLostWakeup<T>(p: Pool<T>)
  {
    !p.stop && SomeAsleep(p) ==> |p.tasks| <= Count(IsSignalled<T>, p.workers) + p.unnotified
  }

  ghost predicate ClosingOk<T>(p: Pool<T>)
  {
    && (p.stop <==> !p.closing.Open?)
    && (p.closing.Joining? ==>
          && !SomeAsleep(p)
          && p.closing.joined <= |p.workers|
          && forall i :: 0 <= i < p.closing.joined ==> p.workers[i].Exited?)
  }

  ghost predicate Inv<T(!new)>(p: Pool<T>)
  {
    InOrder(p) && Accounted(p) && ExitsAreFinal(p) && NoLostWakeup(p) && ClosingOk(p)
  }

  // ---- Facts about the workers of a pool ----

  lemma {:induction false} InHandUpdate<T>(ws: seq<Worker<T>>, i: nat, w: Worker<T>, t: T)
    requires i < |ws|
    ensures InHand(ws[i := w])[t] + Hand(ws[i])[t] == InHand(ws)[t] + Hand(w)[t]
  {
    var last := |ws| - 1;
    if i == last {
      assert ws[i := w][..last] == ws[..last];
    } else {
      assert ws[i := w][..last] == ws[..last][i := w];
      InHandUpdate(ws[..last], i, w, t);
    }
  }

  lemma {:induction false} InHandSame<T>(ws: seq<Worker<T>>, us: seq<Worker<T>>)
    requires |ws| == |us| && forall i :: 0 <= i < |ws| ==> Hand(ws[i]) == Hand(us[i])
    ensures InHand(ws) == InHand(us)
  {
    if ws != [] {
      InHandSame(ws[..|ws| - 1], us[..|us| - 1]);
    }
  }

  lemma {:induction false} InHandMember<T>(ws: seq<Worker<T>>, t: T)
    ensures t in InHand(ws) <==> exists i :: 0 <= i < |ws| && ws[i] == Running(t)
  {
    if ws != [] {
      var last := |ws| - 1;
      InHandMember(ws[..last], t);
      if i :| 0 <= i < |ws| && ws[i] == Running(t) {
        assert i < last ==> ws[..last][i] == Running(t);
      }
    }
  }

  lemma {:induction false} InHandNone<T>(ws: seq<Worker<T>>)
    requires forall i :: 0 <= i < |ws| ==> !ws[i].Running?
    ensures InHand(ws) == multiset{}
  {
    if ws != [] {
      InHandNone(ws[..|ws| - 1]);
    }
  }

  // ---- Every step keeps the invariant ----

  lemma InitialInv<T(!new)>(n: nat)
    ensures Inv(Initial<T>(n))
  {
    InHandNone(Initial<T>(n).workers);
  }

  lemma StepKeepsOrder<T>(p: Pool<T>, a: Action<T>)
    requires InOrder(p)
    ensures InOrder(Step(p, a))
  {}

  /** A change at one worker keeps the accounts when the histories grow by what entered and left its hand. */
  lemma AccountsAfterChange<T(!new)>(p: Pool<T>, q: Pool<T>, i: nat)
    requires Accounted(p)
    requires i < |p.workers| == |q.workers| && q.workers == p.workers[i := q.workers[i]]
    requires q.started == p.started + (if q.workers[i].Running? then [q.workers[i].task] else [])
    requires q.finished == p.finished + (if p.workers[i].Running? then [p.workers[i].task] else [])
    ensures Accounted(q)
  {
    forall t
      ensures multiset(q.started)[t] == multiset(q.finished)[t] + InHand(q.workers)[t]
    {
      InHandUpdate(p.workers, i, q.workers[i], t);
    }
  }

  predicate TouchesOneWorker<T>(p: Pool<T>, a: Action<T>)
  {
    Enabled(p, a) && match a
    case NotifyOne(_) => SomeAsleep(p)
    case WakeSpuriously(_) | TakeTurn(_) | Complete(_) => true
    case _ => false
  }

  lemma HistoriesFollowHands<T>(p: Pool<T>, a: Action<T>)
    requires TouchesOneWorker(p, a)
    ensures var q := Step(p, a); var i := if a.NotifyOne? then a.pick else a.who;
      && i < |p.workers| == |q.workers| && q.workers == p.workers[i := q.workers[i]]
      && q.started == p.started + (if q.workers[i].Running? then [q.workers[i].task] else [])
      && q.finished == p.finished + (if p.workers[i].Running? then [p.workers[i].task] else [])
  {}

  lemma StepKeepsAccounts<T(!new)>(p: Pool<T>, a: Action<T>)
    requires Accounted(p)
    ensures Accounted(Step(p, a))
  {
    var q := Step(p, a);
    if TouchesOneWorker(p, a) {
      HistoriesFollowHands(p, a);
      AccountsAfterChange(p, q, if a.NotifyOne? then a.pick else a.who);
    } else {
      InHandSame(p.workers, q.workers);
    }
  }

  lemma StepKeepsWakeups<T>(p: Pool<T>, a: Action<T>)
    requires NoLostWakeup(p)
    ensures NoLostWakeup(Step(p, a))
  {
    if Enabled(p, a) {
      var q := Step(p, a);
      match a
      case NotifyOne(i) => if SomeAsleep(p) { CountUpdate(IsSignalled<T>, p.workers, i, Signalled); }
      case WakeSpuriously(i) => CountUpdate(IsSignalled<T>, p.workers, i, Ready);
      case TakeTurn(i) => CountUpdate(IsSignalled<T>, p.workers, i, q.workers[i]);
      case Complete(i) => CountUpdate(IsSignalled<T>, p.workers, i, Ready);
      case _ =>
    }
  }

  lemma HistoriesGrow<T>(p: Pool<T>, a: Action<T>)
    ensures var q := Step(p, a); p.accepted <= q.accepted && p.started <= q.started && p.finished <= q.finished
    ensures !a.Enqueue? || p.stop ==> Step(p, a).accepted == p.accepted
  {}

  lemma StepKeepsExits<T>(p: Pool<T>, a: Action<T>)
    requires ExitsAreFinal(p)
    ensures ExitsAreFinal(Step(p, a))
  {}

  lemma StepKeepsClosing<T>(p: Pool<T>, a: Action<T>)
    requires ClosingOk(p)
    ensures ClosingOk(Step(p, a)) && |Step(p, a).workers| == |p.workers|
  {}

  lemma StepKeepsInv<T(!new)>(p: Pool<T>, a: Action<T>)
    requires Inv(p)
    ensures Inv(Step(p, a)) && |Step(p, a).workers| == |p.workers|
  {
    StepKeepsOrder(p, a);
    StepKeepsAccounts(p, a);
    StepKeepsExits(p, a);
    StepKeepsWakeups(p, a);
    StepKeepsClosing(p, a);
    assert Inv(Step(p, a));
  }
}
