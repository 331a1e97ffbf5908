/** The pool object itself (core/src/ThreadPool.cpp): the fields it updates in place, one method for
    each critical section, and the destructor under an arbitrary schedule. */
module ThreadPoolObject {
  import opened PoolProtocol
  import opened PoolTheorems

  class ThreadPool<T(!new)> {
    var workers: seq<Worker<T>>
    var tasks: seq<T>
    var stop: bool
    var unnotified: nat
    ghost var closing: Closing
    ghost var accepted: seq<T>
    ghost var started: seq<T>
    ghost var finished: seq<T>

    ghost function View(): Pool<T>
      reads this
    {
      Pool(workers, tasks, stop, unnotified, closing, accepted, started, finished)
    }

    ghost predicate Valid()
      reads this
    {
      Sound(View(), |workers|)
    }

    constructor (threads: nat)
      ensures Valid() && View() == Initial(threads)
    {
      stop, tasks, workers := false, [], [];
      unnotified, closing := 0, Open;
      accepted, started, finished := [], [], [];
      new;
      for i := 0 to threads
        invariant workers == seq(i, j => Ready)
        invariant tasks == [] && !stop && unnotified == 0 && closing == Open
        invariant accepted == started == finished == []
      {
        workers := workers + [Ready];
      }
      InitialInv<T>(threads);
    }

    /** The locked part of `enqueue`; `false` is the exception on a stopped pool. */
    method Push(task: T) returns (ok: bool)
      requires Valid()
      modifies this
      ensures Valid() && ok == !old(stop)
      ensures View() == Step(old(View()), PoolProtocol.Enqueue(task))
    {
      StepKeepsInv(View(), PoolProtocol.Enqueue(task));
      if stop {
        return false;
      }
      tasks := tasks + [task];
      accepted, unnotified := accepted + [task], unnotified + 1;
      return true;
    }

    /** The `notify_one` after the lock is released; it reaches one sleeper if there is one. */
    method NotifyOne()
      requires Valid() && unnotified > 0
      modifies this
      ensures Valid()
      ensures exists pick :: View() == Step(old(View()), PoolProtocol.NotifyOne(pick))
                          && Enabled(old(View()), PoolProtocol.NotifyOne(pick))
      ensures unnotified == old(unnotified) - 1
      ensures View() == old(View()).(unnotified := unnotified, workers := workers)
    {
      ghost var before := View();
      if i :| 0 <= i < |workers| && workers[i].Asleep? {
        assert IsAsleep(before.workers[i]);
        StepKeepsInv(before, PoolProtocol.NotifyOne(i));
        workers := workers[i := Signalled];
        unnotified := unnotified - 1;
        assert View() == Step(before, PoolProtocol.NotifyOne(i));
      } else {
        assert !SomeAsleep(before);
        StepKeepsInv(before, PoolProtocol.NotifyOne(0));
        unnotified := unnotified - 1;
        assert View() == Step(before, PoolProtocol.NotifyOne(0));
      }
    }

    /** `enqueue`: on a running pool the task is accepted last and some sleeper, if any, is woken. */
    method Enqueue(task: T) returns (ok: bool)
      requires Valid()
      modifies this
      ensures Valid() && ok == !old(stop)
      ensures accepted == old(accepted) + if ok then [task] else []
      ensures tasks == old(tasks) + if ok then [task] else []
      ensures if ok then
          View() == old(View()).(tasks := tasks, accepted := accepted, workers := workers)
          && (exists pick :: View() == Step(Step(old(View()), PoolProtocol.Enqueue(task)), PoolProtocol.NotifyOne(pick)))
        else View() == old(View())
      ensures ok ==> accepted == old(accepted) + [task] && tasks == old(tasks) + [task]
    {
      ok := Push(task);
      if ok {
        NotifyOne();
      }
    }

    /** One turn of the worker loop under the lock. */
    method TakeTurn(i: nat)
      requires Valid() && Enabled(View(), PoolProtocol.TakeTurn(i))
      modifies this
      ensures Valid() && View() == Step(old(View()), PoolProtocol.TakeTurn(i))
    {
      StepKeepsInv(View(), PoolProtocol.TakeTurn(i));
      if tasks == [] && !stop {
        workers := workers[i := Asleep];
      } else if stop && tasks == [] {
        workers := workers[i := Exited];
      } else {
        var task := tasks[0];
        tasks := tasks[1..];
        workers := workers[i := Running(task)];
        started := started + [task];
      }
    }

    /** The task a worker was executing returns. */
    method Complete(i: nat)
      requires Valid() && Enabled(View(), PoolProtocol.Complete(i))
      modifies this
      ensures Valid() && View() == Step(old(View()), PoolProtocol.Complete(i))
    {
      StepKeepsInv(View(), PoolProtocol.Complete(i));
      finished := finished + [workers[i].task];
      workers := workers[i := Ready];
    }

    method WakeSpuriously(i: nat)
      requires Valid() && Enabled(View(), PoolProtocol.WakeSpuriously(i))
      modifies this
      ensures Valid() && View() == Step(old(View()), PoolProtocol.WakeSpuriously(i))
    {
      StepKeepsInv(View(), PoolProtocol.WakeSpuriously(i));
      workers := workers[i := Ready];
    }

    /** After stop, worker `i` or an enqueuer that has not notified yet makes a step; only an exited worker
        may have none to make. */
    method SomeoneSteps(i: nat) returns (acted: bool)
      requires Valid() && stop && i < |workers|
      modifies this
      ensures Valid() && stop && closing == old(closing) && |workers| == old(|workers|) && accepted == old(accepted)
      ensures acted ==> Effort(View()) < old(Effort(View()))
      ensures !acted ==> old(workers[i].Exited?) && View() == old(View())
    {
      ghost var before := View();
      acted := true;
      if {
        case workers[i].Running? =>
          EveryStepSpendsEffort(before, PoolProtocol.Complete(i));
          Complete(i);
        case workers[i].Signalled? || workers[i].Ready? =>
          EveryStepSpendsEffort(before, PoolProtocol.TakeTurn(i));
          TakeTurn(i);
        case workers[i].Asleep? =>
          EveryStepSpendsEffort(before, PoolProtocol.WakeSpuriously(i));
          WakeSpuriously(i);
        case workers[i].Exited? => acted := false;
        case unnotified > 0 =>
          NotifyOne();
          ghost var pick :| View() == Step(before, PoolProtocol.NotifyOne(pick)) && Enabled(before, PoolProtocol.NotifyOne(pick));
          EveryStepSpendsEffort(before, PoolProtocol.NotifyOne(pick));
      }
    }

    /** The other threads make any number of steps. */
    method OthersAct()
      requires Valid() && stop
      modifies this
      ensures Valid() && stop && closing == old(closing) && |workers| == old(|workers|) && accepted == old(accepted)
    {
      var more: bool := *;
      while more && workers != []
        invariant Valid() && stop && closing == old(closing) && |workers| == old(|workers|) && accepted == old(accepted)
        decreases Effort(View()), more
      {
        var i :| 0 <= i < |workers|;
        var acted := SomeoneSteps(i);
        more := *;
        if !acted { more := false; }
      }
    }

    /** Wait for worker `k` to exit, under any schedule. */
    method Join(k: nat)
      requires Valid() && closing == Joining(k) && k < |workers|
      modifies this
      ensures Valid() && closing == Joining(k + 1)
      ensures |workers| == old(|workers|) && accepted == old(accepted)
    {
      OthersAct();
      while !workers[k].Exited?
        invariant Valid() && closing == Joining(k) && |workers| == old(|workers|) && accepted == old(accepted)
        decreases Effort(View())
      {
        var i :| 0 <= i < |workers| && !workers[i].Exited?;
        var _ := SomeoneSteps(i);
      }
      JoinReturns(k);
    }

    ghost method JoinReturns(k: nat)
      requires Valid() && closing == Joining(k) && k < |workers| && workers[k].Exited?
      modifies this`closing
      ensures Valid() && closing == Joining(k + 1)
    {
      ghost var before := View();
      StepKeepsInv(before, JoinNext);
      closing := Joining(k + 1);
      assert View() == Step(before, JoinNext);
    }

    /** Set the stop flag under the lock. */
    method RequestStop()
      requires Valid() && closing.Open?
      modifies this
      ensures Valid() && View() == Step(old(View()), PoolProtocol.RequestStop)
      ensures closing == StopSet && accepted == old(accepted) && workers == old(workers)
    {
      ghost var before := View();
      StepKeepsInv(before, PoolProtocol.RequestStop);
      stop, closing := true, StopSet;
      assert View() == Step(before, PoolProtocol.RequestStop);
    }

    method NotifyAll()
      requires Valid() && closing.StopSet?
      modifies this
      ensures Valid() && View() == Step(old(View()), PoolProtocol.NotifyAll)
      ensures closing == Joining(0) && accepted == old(accepted) && |workers| == old(|workers|)
    {
      ghost var before := View();
      StepKeepsInv(before, PoolProtocol.NotifyAll);
      workers, closing := WakeAll(workers), Joining(0);
      assert View() == Step(before, PoolProtocol.NotifyAll);
    }

    method JoinAll()
      requires Valid() && closing == Joining(0)
      modifies this
      ensures Valid() && closing == Joining(|workers|)
      ensures |workers| == old(|workers|) && accepted == old(accepted)
    {
      for k := 0 to |workers|
        invariant Valid() && closing == Joining(k) && |workers| == old(|workers|) && accepted == old(accepted)
      {
        Join(k);
      }
    }

    /** `~ThreadPool`: it terminates under every schedule, and everything accepted has then finished,
        unless there never was a worker to run it. */
    method Destroy()
      requires Valid() && closing.Open?
      modifies this
      ensures Valid() && closing == Joining(|workers|) && |workers| == old(|workers|)
      ensures accepted == old(accepted)
      ensures Drained(View()) <==> |workers| > 0 || accepted == []
    {
      RequestStop();
      OthersAct();
      NotifyAll();
      JoinAll();
      JoinedPoolIsDrained(View(), |workers|);
    }
  }
}
