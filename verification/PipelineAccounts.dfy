/** What the pipeline publishes, queues and commits, in terms of the events of a run
    (app/src/Application.cpp). */
module PipelineAccounts {
  import opened Runs
  import opened PoolProtocol
  import opened Pipeline

  function Before(n: nat, run: seq<Event>, k: nat): System
    requires k <= |run|
  {
    After(n, run[..k])
  }

  lemma LastEvent(n: nat, run: seq<Event>)
    requires run != []
    ensures var front, e := run[..|run| - 1], run[|run| - 1];
      run == front + [e] && After(n, run) == Next(After(n, front), e)
      && forall k :: 0 <= k <= |front| ==> Before(n, run, k) == Before(n, front, k)
  {
    var front := run[..|run| - 1];
    assert forall k :: 0 <= k <= |front| ==> run[..k] == front[..k];
  }

  /** A submission's INSERT is published exactly when somebody has submitted it. */
  lemma {:induction false} InsertedExactly(n: nat, run: seq<Event>, sub: Submission)
    ensures InsertRow(sub) in After(n, run).published <==> Submit(sub) in run
  {
    if run != [] {
      LastEvent(n, run);
      InsertedExactly(n, run[..|run| - 1], sub);
      GoodAlways(n, run[..|run| - 1]);
    }
  }

  /** In event `k` the judge task of `sub` reports `status`, for the first time. */
  predicate FirstReports(n: nat, run: seq<Event>, k: nat, sub: Submission, status: Status)
    requires k < |run|
  {
    run[k].Report? && run[k].status == status && status.Judged?
    && Executes(Before(n, run, k), run[k].who, Judge(sub)) && sub !in Before(n, run, k).reported
  }

  /** A submission's UPDATE is published exactly with the status its judge task has reported first. */
  lemma {:induction false} UpdatedExactly(n: nat, run: seq<Event>, sub: Submission, status: Status)
    ensures UpdateRow(sub, status) in After(n, run).published
       <==> exists k :: 0 <= k < |run| && FirstReports(n, run, k, sub, status)
  {
    if run != [] {
      var front, last := run[..|run| - 1], |run| - 1;
      LastEvent(n, run);
      UpdatedExactly(n, front, sub, status);
      assert forall k :: 0 <= k < last ==> (FirstReports(n, run, k, sub, status) <==> FirstReports(n, front, k, sub, status));
      assert UpdateRow(sub, status) in After(n, run).published
        <==> UpdateRow(sub, status) in After(n, front).published || FirstReports(n, run, last, sub, status);
    }
  }

  /** In event `k` the judge task of a submitted `sub` is queued on a running pool, for the first time. */
  predicate FirstQueues(n: nat, run: seq<Event>, k: nat, sub: Submission)
    requires k < |run|
  {
    var s := Before(n, run, k);
    run[k] == QueueJudge(sub) && sub in s.submitted && sub !in s.queued && !s.pool.stop
  }

  /** A judge task is accepted exactly when it has been queued for a submission that was published. */
  lemma {:induction false} JudgedExactly(n: nat, run: seq<Event>, sub: Submission)
    ensures Judge(sub) in After(n, run).pool.accepted
       <==> exists k :: 0 <= k < |run| && FirstQueues(n, run, k, sub)
  {
    if run != [] {
      var front, last := run[..|run| - 1], |run| - 1;
      LastEvent(n, run);
      JudgedExactly(n, front, sub);
      assert forall k :: 0 <= k < last ==> (FirstQueues(n, run, k, sub) <==> FirstQueues(n, front, k, sub));
      assert Judge(sub) in After(n, run).pool.accepted
        <==> Judge(sub) in After(n, front).pool.accepted || FirstQueues(n, run, last, sub);
    }
  }

  /** In event `k` the SQL of operation `j` takes effect on the worker that executes it. */
  predicate Commits(n: nat, run: seq<Event>, k: nat, j: nat)
    requires k < |run|
  {
    run[k].Commit? && Executes(Before(n, run, k), run[k].who, DbOperation(j))
  }

  /** An operation has taken effect exactly when a worker executing it has committed it. */
  lemma {:induction false} CommittedExactly(n: nat, run: seq<Event>, j: nat)
    ensures j in After(n, run).committed <==> exists k :: 0 <= k < |run| && Commits(n, run, k, j)
  {
    if run != [] {
      var front, last := run[..|run| - 1], |run| - 1;
      LastEvent(n, run);
      CommittedExactly(n, front, j);
      assert forall k :: 0 <= k < last ==> (Commits(n, run, k, j) <==> Commits(n, front, k, j));
      assert j in After(n, run).committed <==> j in After(n, front).committed || Commits(n, run, last, j);
    }
  }
}
