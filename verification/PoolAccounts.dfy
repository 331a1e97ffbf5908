/** What becomes of every task and every worker of the pool (core/src/ThreadPool.cpp). */
module PoolAccounts {
  import opened Runs
  import opened PoolProtocol
  import opened PoolTheorems

  /** The tasks that the run enqueues while the pool is running, in order. */
  function Enqueued<T>(n: nat, run: seq<Action<T>>): seq<T>
  {
    if run == [] then []
    else
      var front, a := run[..|run| - 1], run[|run| - 1];
      Enqueued(n, front) + if a.Enqueue? && !After(n, front).stop then [a.task] else []
  }

  /** The pool accepts exactly the callers' tasks, in the order of their calls, and starts a prefix of them. */
  lemma {:induction false} AcceptedExactly<T(!new)>(n: nat, run: seq<Action<T>>)
    ensures After(n, run).accepted == Enqueued(n, run)
    ensures After(n, run).started <= Enqueued(n, run)
  {
    if run != [] {
      AcceptedExactly(n, run[..|run| - 1]);
      HistoriesGrow(After(n, run[..|run| - 1]), run[|run| - 1]);
    }
    SoundAlways(n, run);
    assert After(n, run).started <= After(n, run).accepted;
  }

  /** What one step can do to one worker: it is woken; it takes its turn, in which it starts the front task,
      falls asleep, or exits; it ends the very task it was executing. */
  lemma WorkerMoves<T>(p: Pool<T>, a: Action<T>, i: nat)
    requires i < |p.workers|
    ensures |Step(p, a).workers| == |p.workers|
    ensures
      var q := Step(p, a);
      match q.workers[i]
      case Asleep => p.workers[i].Asleep? || (TakesTurn(p, a, i) && p.tasks == [] && !p.stop)
      case Exited => p.workers[i].Exited? || (TakesTurn(p, a, i) && p.tasks == [] && p.stop)
      case Running(t) => p.workers[i] == Running(t) || (TakesTurn(p, a, i) && p.tasks == [t] + q.tasks && q.started == p.started + [t])
      case Ready =>
        p.workers[i].Ready? || (p.workers[i].Running? && q.finished == p.finished + [p.workers[i].task])
        || (a == WakeSpuriously(i) && p.workers[i].Asleep?)
      case Signalled => p.workers[i].Signalled? || p.workers[i].Asleep?
    ensures TakesTurn(p, a, i) ==> Step(p, a).workers[i].Asleep? || Step(p, a).workers[i].Exited? || Step(p, a).workers[i].Running?
  {}

  predicate TakesTurn<T>(p: Pool<T>, a: Action<T>, i: nat)
  {
    a == TakeTurn(i) && Enabled(p, a)
  }

  /** A worker that finds nothing to do falls asleep. */
  lemma WorkerCanSleep<T>(n: nat)
    requires n > 0
    ensures SomeAsleep(After<T>(n, [TakeTurn(0)]))
  {
    var none: seq<Action<T>> := [];
    ExecOne(Step<T>, Initial<T>(n), none, TakeTurn(0));
    assert none + [TakeTurn(0)] == [TakeTurn(0)];
    assert Step(Initial<T>(n), TakeTurn(0)).workers[0].Asleep?;
    assert IsAsleep(Step(Initial<T>(n), TakeTurn(0)).workers[0]);
  }
}
