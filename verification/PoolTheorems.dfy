/** What every run of the worker pool guarantees. */
module PoolTheorems {
  import opened Runs
  import opened PoolProtocol

  /** The state a pool of `n` workers is in after `run`. */
  function After<T>(n: nat, run: seq<Action<T>>): Pool<T>
  {
    Exec(Step<T>, Initial<T>(n), run)
  }

  ghost predicate Sound<T(!new)>(p: Pool<T>, n: nat)
  {
    Inv(p) && |p.workers| == n && (n == 0 ==> p.started == [] && p.finished == [])
  }

  lemma SoundAlways<T(!new)>(n: nat, run: seq<Action<T>>)
    ensures Sound(After(n, run), n)
  {
    InitialInv<T>(n);
    SoundFrom(Initial<T>(n), n, run);
  }

  lemma SoundFrom<T(!new)>(p: Pool<T>, n: nat, run: seq<Action<T>>)
    requires Sound(p, n)
    ensures Sound(Exec(Step<T>, p, run), n)
  {
    forall q: Pool<T>, a: Action<T> | Sound(q, n)
      ensures Sound(Step(q, a), n)
    {
      StepKeepsInv(q, a);
    }
    Always(Step<T>, (q: Pool<T>) => Sound(q, n), p, run);
  }

  // ---- Each accepted task is started exactly once, in enqueue order ----

  lemma StartedOnceInOrder<T(!new)>(n: nat, run: seq<Action<T>>)
    ensures var p := After(n, run);
      && p.started + p.tasks == p.accepted
      && forall t :: multiset(p.started)[t] == multiset(p.finished)[t] + InHand(p.workers)[t]
  {
    SoundAlways(n, run);
  }

  // ---- No lost wakeup, and none after the destructor's notification ----

  lemma SleepersAreNotForgotten<T(!new)>(n: nat, run: seq<Action<T>>)
    ensures var p := After(n, run);
      !p.stop && SomeAsleep(p) ==> |p.tasks| <= Count(IsSignalled<T>, p.workers) + p.unnotified
  {
    SoundAlways(n, run);
  }

  predicate IsAwake<T>(w: Worker<T>) { w.Signalled? || w.Ready? || w.Running? }

  /** With work queued, a running pool always has a worker awake or an enqueuer about to wake one. */
  lemma QueuedWorkIsNeverStranded<T(!new)>(n: nat, run: seq<Action<T>>)
    requires n > 0
    ensures var p := After(n, run);
      !p.stop && p.tasks != [] ==> p.unnotified > 0 || exists w :: w in p.workers && IsAwake(w)
  {
    SoundAlways(n, run);
    var p := After(n, run);
    if !p.stop && p.tasks != [] {
      assert !p.workers[0].Exited?;
      CountPositive(IsSignalled<T>, p.workers);
      if p.workers[0].Asleep? {
        assert IsAsleep(p.workers[0]);
        if i :| 0 <= i < |p.workers| && IsSignalled(p.workers[i]) {
          assert IsAwake(p.workers[i]);
        }
      } else {
        assert IsAwake(p.workers[0]);
      }
    }
  }

  lemma NobodySleepsAfterNotifyAll<T(!new)>(n: nat, run: seq<Action<T>>, more: seq<Action<T>>)
    requires After(n, run).closing.Joining?
    ensures !SomeAsleep(Exec(Step<T>, After(n, run), more))
  {
    SoundAlways(n, run);
    Always(Step<T>, (p: Pool<T>) => ClosingOk(p) && p.closing.Joining?, After(n, run), more);
  }

  // ---- An exited worker means the pool is stopped and empty for good ----

  lemma ExitMeansEmptyForever<T(!new)>(n: nat, run: seq<Action<T>>, i: nat, more: seq<Action<T>>)
    requires i < n && |After(n, run).workers| == n && After(n, run).workers[i].Exited?
    ensures var later := Exec(Step<T>, After(n, run), more);
      later.stop && later.tasks == [] && later.accepted == After(n, run).accepted
  {
    SoundAlways(n, run);
    var accepted := After(n, run).accepted;
    Always(Step<T>, (p: Pool<T>) => p.stop && p.tasks == [] && p.accepted == accepted, After(n, run), more);
  }

  // ---- The destructor ----

  ghost predicate Drained<T(!new)>(p: Pool<T>)
  {
    forall t :: multiset(p.finished)[t] == multiset(p.accepted)[t]
  }

  lemma JoinedPoolIsDrained<T(!new)>(p: Pool<T>, n: nat)
    requires Sound(p, n) && p.closing == Joining(n)
    ensures Drained(p) <==> n > 0 || p.accepted == []
  {
    if n > 0 {
      assert p.workers[0].Exited?;
      InHandNone(p.workers);
      assert p.started == p.accepted;
    } else if p.accepted != [] {
      assert multiset(p.accepted)[p.accepted[0]] > 0;
    }
  }

  /** When the destructor has joined every worker, everything accepted has finished; a pool without
      workers is the one exception, and only when something was enqueued. */
  lemma DestructorDrains<T(!new)>(n: nat, run: seq<Action<T>>)
    requires After(n, run).closing == Joining(n)
    ensures Drained(After(n, run)) <==> n > 0 || After(n, run).accepted == []
  {
    SoundAlways(n, run);
    JoinedPoolIsDrained(After(n, run), n);
  }

  function Weight<T>(w: Worker<T>): nat
  {
    match w
    case Asleep | Running(_) => 2
    case Signalled | Ready => 1
    case Exited => 0
  }

  /** The steps a stopped pool can still make. */
  function Effort<T>(p: Pool<T>): nat
    requires ClosingOk(p)
  {
    var joins := match p.closing
      case Open => |p.workers| + 2
      case StopSet => |p.workers| + 1
      case Joining(k) => |p.workers| - k;
    3 * |p.tasks| + Sum(Weight<T>, p.workers) + p.unnotified + joins
  }

  lemma EveryStepSpendsEffort<T>(p: Pool<T>, a: Action<T>)
    requires ClosingOk(p) && p.stop && Enabled(p, a)
    ensures ClosingOk(Step(p, a)) && Step(p, a).stop
    ensures Effort(Step(p, a)) < Effort(p)
  {
    var q := Step(p, a);
    StepKeepsClosing(p, a);
    match a
    case NotifyOne(i) => if SomeAsleep(p) { SumUpdate(Weight<T>, p.workers, i, Signalled); }
    case WakeSpuriously(i) => SumUpdate(Weight<T>, p.workers, i, Ready);
    case TakeTurn(i) => SumUpdate(Weight<T>, p.workers, i, q.workers[i]);
    case Complete(i) => SumUpdate(Weight<T>, p.workers, i, Ready);
    case NotifyAll => SumIsMonotone(Weight<T>, WakeAll(p.workers), p.workers);
    case _ =>
  }

  /** Every action of the run happens at a moment when it is enabled. */
  predicate NoStutter<T>(p: Pool<T>, run: seq<Action<T>>)
  {
    run != [] ==>
      && NoStutter(p, run[..|run| - 1])
      && Enabled(Exec(Step<T>, p, run[..|run| - 1]), run[|run| - 1])
  }

  lemma {:induction false} ShutdownIsBounded<T>(p: Pool<T>, run: seq<Action<T>>)
    requires ClosingOk(p) && p.stop && NoStutter(p, run)
    ensures var q := Exec(Step<T>, p, run);
      ClosingOk(q) && q.stop && |q.workers| == |p.workers| && |run| + Effort(q) <= Effort(p)
  {
    if run != [] {
      var mid := Exec(Step<T>, p, run[..|run| - 1]);
      ShutdownIsBounded(p, run[..|run| - 1]);
      EveryStepSpendsEffort(mid, run[|run| - 1]);
      StepKeepsClosing(mid, run[|run| - 1]);
    }
  }

  /** A stopped pool that is not fully joined can always make a step. */
  lemma ShutdownNeverSticks<T(!new)>(p: Pool<T>) returns (a: Action<T>)
    requires Inv(p) && p.stop && p.closing != Joining(|p.workers|)
    ensures Enabled(p, a)
  {
    if p.closing.StopSet? {
      a := NotifyAll;
    } else {
      var k := p.closing.joined;
      assert !IsAsleep(p.workers[k]);
      a := match p.workers[k]
        case Running(_) => Complete(k)
        case Exited => JoinNext
        case _ => TakeTurn(k);
    }
  }

  /** Once stop is requested, at most `Effort` steps remain, whatever the schedule. */
  lemma DestructorTerminates<T(!new)>(n: nat, run: seq<Action<T>>, more: seq<Action<T>>)
    requires After(n, run).stop && NoStutter(After(n, run), more)
    ensures ClosingOk(After(n, run)) && |more| <= Effort(After(n, run))
  {
    SoundAlways(n, run);
    ShutdownIsBounded(After(n, run), more);
  }

  /** After a stop request every schedule can go on until the destructor has returned, and then
      everything accepted has finished. */
  lemma ShutdownRunsToTheEnd<T(!new)>(n: nat, run: seq<Action<T>>)
    requires n > 0 && After(n, run).stop
    ensures (exists a :: Enabled(After(n, run), a))
         || (After(n, run).closing == Joining(n) && Drained(After(n, run)))
  {
    SoundAlways(n, run);
    if After(n, run).closing != Joining(n) {
      var a := ShutdownNeverSticks(After(n, run));
    } else {
      DestructorDrains(n, run);
    }
  }
}
