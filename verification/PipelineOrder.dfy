/** How far the pipeline can reorder database operations, as a function of the number of workers. */
module PipelineOrder {
  import opened Runs
  import opened PoolProtocol
  import opened Pipeline

  /** The operations published before number `k` that have not finished. */
  function Unfinished(s: System, k: nat): set<nat>
  {
    set j | 0 <= j < k && DbOperation(j) !in s.pool.finished
  }

  predicate ConsumerEnded(s: System) { Consumer in s.pool.finished }

  // ---- Starts follow publish order ----

  lemma {:induction false} DistinctNumbers(ts: seq<Task>, k: nat)
    ensures multiset(ts)[DbOperation(k)] == multiset(Numbers(ts))[k]
  {
    if ts != [] {
      var last := |ts| - 1;
      DistinctNumbers(ts[..last], k);
      assert ts == ts[..last] + [ts[last]];
    }
  }

  lemma StartedNumbers(s: System, n: nat)
    requires Good(s, n)
    ensures Numbers(s.pool.started) == Iota(|Numbers(s.pool.started)|)
    ensures |Numbers(s.pool.started)| <= |s.published|
  {
    NumbersConcat(s.pool.started, s.pool.tasks);
    var started, rest := Numbers(s.pool.started), Numbers(s.pool.tasks) + s.channel;
    assert started + rest == Numbers(s.pool.accepted) + s.channel;
    assert forall i :: 0 <= i < |started| ==> started[i] == (started + rest)[i];
  }

  lemma {:induction false} IotaOnce(m: nat, k: nat)
    ensures multiset(Iota(m))[k] == if k < m then 1 else 0
  {
    if m > 0 {
      IotaOnce(m - 1, k);
      assert Iota(m) == Iota(m - 1) + [m - 1];
    }
  }

  /** A started operation is executed by exactly one worker until it has finished. */
  lemma RunningXorFinished(s: System, n: nat, k: nat)
    requires Good(s, n)
    ensures DbOperation(k) in s.pool.started <==> k < |Numbers(s.pool.started)|
    ensures multiset(s.pool.finished)[DbOperation(k)] + InHand(s.pool.workers)[DbOperation(k)]
         == if k < |Numbers(s.pool.started)| then 1 else 0
  {
    StartedNumbers(s, n);
    NumbersMember(s.pool.started, k);
    DistinctNumbers(s.pool.started, k);
    IotaOnce(|Numbers(s.pool.started)|, k);
  }

  lemma UnfinishedIsRunning(s: System, n: nat, w: nat, k: nat, j: nat) returns (i: nat)
    requires Good(s, n) && Executes(s, w, DbOperation(k)) && j in Unfinished(s, k)
    ensures i < n && s.pool.workers[i] == Running(DbOperation(j))
  {
    ExecutingWasStarted(s, w, DbOperation(k));
    RunningXorFinished(s, n, k);
    RunningXorFinished(s, n, j);
    assert DbOperation(j) !in multiset(s.pool.finished);
    InHandMember(s.pool.workers, DbOperation(j));
    i :| 0 <= i < |s.pool.workers| && s.pool.workers[i] == Running(DbOperation(j));
  }

  // ---- The reordering bound ----

  lemma {:induction false} OneWorkerEach(js: set<nat>, ws: seq<Worker<Task>>, idle: set<nat>)
    requires forall j :: j in js ==> exists i :: i in idle && i < |ws| && ws[i] == Running(DbOperation(j))
    ensures |js| <= |idle|
  {
    if j :| j in js {
      var i :| i in idle && i < |ws| && ws[i] == Running(DbOperation(j));
      OneWorkerEach(js - {j}, ws, idle - {i});
    }
  }

  lemma {:induction false} IndexSet(n: nat) returns (all: set<nat>)
    ensures |all| == n && forall i: nat :: i in all <==> i < n
  {
    all := {};
    for k := 0 to n
      invariant |all| == k && forall i: nat :: i in all <==> i < k
    {
      all := all + {k};
    }
  }

  /** Whenever a worker executes operation `k`, at most `n - 1` earlier operations are unfinished, and at
      most `n - 2` as long as the consumer occupies a worker. */
  lemma ReorderingIsBounded(n: nat, run: seq<Event>, w: nat, k: nat)
    requires Executes(After(n, run), w, DbOperation(k))
    ensures |Unfinished(After(n, run), k)| <= n - if ConsumerEnded(After(n, run)) then 1 else 2
  {
    GoodAlways(n, run);
    BoundInGoodState(After(n, run), n, w, k);
  }

  lemma BoundInGoodState(s: System, n: nat, w: nat, k: nat)
    requires Good(s, n) && Executes(s, w, DbOperation(k))
    ensures |Unfinished(s, k)| <= n - if ConsumerEnded(s) then 1 else 2
  {
    var others := IndexSet(n);
    others := others - {w};
    if !ConsumerEnded(s) {
      var c := ConsumerIsRunning(s, n, w, k);
      others := others - {c};
    }
    forall j | j in Unfinished(s, k)
      ensures exists i :: i in others && i < |s.pool.workers| && s.pool.workers[i] == Running(DbOperation(j))
    {
      var i := UnfinishedIsRunning(s, n, w, k, j);
      assert i in others;
    }
    OneWorkerEach(Unfinished(s, k), s.pool.workers, others);
  }

  lemma ConsumerIsRunning(s: System, n: nat, w: nat, k: nat) returns (c: nat)
    requires Good(s, n) && Executes(s, w, DbOperation(k)) && !ConsumerEnded(s)
    ensures c < n && s.pool.workers[c] == Running(Consumer)
  {
    ExecutingWasStarted(s, w, DbOperation(k));
    assert s.pool.started[0] == s.pool.accepted[0];
    assert Consumer in multiset(s.pool.started) && Consumer !in multiset(s.pool.finished);
    InHandMember(s.pool.workers, Consumer);
    c :| 0 <= c < |s.pool.workers| && s.pool.workers[c] == Running(Consumer);
  }

  // ---- One operation at a time: strict publish order ----

  /** No operation runs beside another: a single worker, or two of which the consumer occupies one. */
  predicate OneAtATime(s: System, n: nat)
  {
    n <= 1 || (n <= 2 && !ConsumerEnded(s))
  }

  predicate Increasing(ks: seq<nat>)
  {
    forall i, j :: 0 <= i < j < |ks| ==> ks[i] < ks[j]
  }

  /** Operations have finished exactly in publish order; the SQL of at most one more has taken effect. */
  ghost predicate Sequential(s: System)
  {
    var done := |Numbers(s.pool.finished)|;
    && Numbers(s.pool.finished) == Iota(done)
    && Increasing(s.committed)
    && forall k :: k in s.committed ==> k <= done
  }

  lemma ExecutedIsNext(s: System, n: nat, w: nat, k: nat)
    requires Good(s, n) && OneAtATime(s, n) && Sequential(s) && Executes(s, w, DbOperation(k))
    ensures k == |Numbers(s.pool.finished)|
  {
    var done := |Numbers(s.pool.finished)|;
    ExecutingWasStarted(s, w, DbOperation(k));
    RunningXorFinished(s, n, k);
    InHandMember(s.pool.workers, DbOperation(k));
    assert InHand(s.pool.workers)[DbOperation(k)] > 0;
    assert DbOperation(k) !in multiset(s.pool.finished);
    NumbersMember(s.pool.finished, k);
    NumbersMember(s.pool.finished, done);
    IotaMember(done, k);
    IotaMember(done, done);
    BoundInGoodState(s, n, w, k);
    assert Unfinished(s, k) == {};
    assert done !in Unfinished(s, k);
  }

  lemma IotaMember(m: nat, k: nat)
    ensures k in Iota(m) <==> k < m
  {
    if k < m { assert Iota(m)[k] == k; }
  }

  lemma CompleteFinishes(p: Pool<Task>, a: Action<Task>)
    ensures var q := Step(p, a);
      if Enabled(p, a) && a.Complete? then
        q.finished == p.finished + [p.workers[a.who].task]
        && Numbers(q.finished) == Numbers(p.finished) + Numbers([p.workers[a.who].task])
      else q.finished == p.finished
  {
    if Enabled(p, a) && a.Complete? {
      NumbersConcat(p.finished, [p.workers[a.who].task]);
    }
  }

  lemma NextKeepsSequence(s: System, e: Event, n: nat)
    requires Good(s, n) && OneAtATime(s, n) && Sequential(s)
    ensures Sequential(Next(s, e))
  {
    if e.Commit? && Outside(s, e) != s {
      CommitKeepsSequence(s, e.who, Executing(s, e.who).value.number, n);
    } else if OnPool(s, e).Some? {
      PoolKeepsSequence(s, Next(s, e), OnPool(s, e).value, n);
    }
  }

  lemma CommitKeepsSequence(s: System, w: nat, k: nat, n: nat)
    requires Good(s, n) && OneAtATime(s, n) && Sequential(s)
    requires Executes(s, w, DbOperation(k)) && k !in s.committed
    ensures Sequential(s.(committed := s.committed + [k]))
  {
    ExecutedIsNext(s, n, w, k);
    assert forall i :: 0 <= i < |s.committed| ==> s.committed[i] in s.committed;
  }

  lemma PoolKeepsSequence(s: System, q: System, a: Action<Task>, n: nat)
    requires Good(s, n) && OneAtATime(s, n) && Sequential(s)
    requires q.committed == s.committed && q.pool == Step(s.pool, a)
    ensures Sequential(q)
  {
    CompleteFinishes(s.pool, a);
    if Enabled(s.pool, a) && a.Complete? {
      var t := s.pool.workers[a.who].task;
      assert [t][..0] == [];
      if t.DbOperation? {
        ExecutedIsNext(s, n, a.who, t.number);
        assert Iota(t.number + 1) == Iota(t.number) + [t.number];
      }
    }
  }

  lemma ConsumerStaysEnded(s: System, e: Event)
    requires ConsumerEnded(s)
    ensures ConsumerEnded(Next(s, e))
  {
    if OnPool(s, e).Some? {
      HistoriesGrow(s.pool, OnPool(s, e).value);
    }
  }

  lemma NextKeepsOrder(s: System, e: Event, n: nat)
    requires Good(s, n) && (OneAtATime(s, n) ==> Sequential(s))
    ensures Good(Next(s, e), n) && (OneAtATime(Next(s, e), n) ==> Sequential(Next(s, e)))
  {
    NextKeepsGood(s, e, n);
    if OneAtATime(s, n) {
      NextKeepsSequence(s, e, n);
    } else if ConsumerEnded(s) {
      ConsumerStaysEnded(s, e);
    }
  }

  /** Publish order is kept as long as operations run one at a time. */
  lemma OrderIsKept(n: nat, run: seq<Event>)
    requires OneAtATime(After(n, run), n)
    ensures Sequential(After(n, run))
  {
    forall s, e | Good(s, n) && (OneAtATime(s, n) ==> Sequential(s))
      ensures Good(Next(s, e), n) && (OneAtATime(Next(s, e), n) ==> Sequential(Next(s, e)))
    {
      NextKeepsOrder(s, e, n);
    }
    StartIsGood(n);
    assert Iota(0) == [];
    Always(Next, (s: System) => Good(s, n) && (OneAtATime(s, n) ==> Sequential(s)), Start(n), run);
  }

  lemma TwoWorkersKeepOrder(n: nat, run: seq<Event>)
    requires n <= 2 && !ConsumerEnded(After(n, run))
    ensures Sequential(After(n, run))
  {
    OrderIsKept(n, run);
  }

  // ---- A single worker serves nobody but the consumer ----

  ghost predicate OnlyConsumes(s: System)
  {
    |s.pool.started| <= 1 && s.committed == [] && s.reported == {}
  }

  lemma ExecutesOnlyConsumer(s: System, n: nat, i: nat, t: Task)
    requires Good(s, n) && |s.pool.started| <= 1 && Executes(s, i, t)
    ensures t == Consumer
  {
    ExecutingWasStarted(s, i, t);
  }

  /** The only worker is the consumer's. */
  lemma NoFreeWorker(s: System, n: nat, i: nat)
    requires Good(s, n) && n <= 1 && !ConsumerEnded(s) && s.pool.started != []
    ensures !Enabled(s.pool, TakeTurn(i))
  {
    assert s.pool.started[0] == s.pool.accepted[0];
    assert Consumer in multiset(s.pool.started) && Consumer !in multiset(s.pool.finished);
    InHandMember(s.pool.workers, Consumer);
  }

  lemma NextOnlyConsumes(s: System, e: Event, n: nat)
    requires Good(s, n) && n <= 1 && !ConsumerEnded(s) && OnlyConsumes(s)
    ensures OnlyConsumes(Next(s, e))
  {
    if (e.Commit? || e.Report?) && Executing(s, e.who).Some? {
      ExecutesOnlyConsumer(s, n, e.who, Executing(s, e.who).value);
    }
    if e.PoolStep? && e.action.TakeTurn? && Enabled(s.pool, e.action) && s.pool.started != [] {
      NoFreeWorker(s, n, e.action.who);
    }
  }

  /** With one worker, or none, no operation and no judge task starts while the consumer is alive. */
  lemma OneWorkerOnlyConsumes(n: nat, run: seq<Event>)
    requires n <= 1 && !ConsumerEnded(After(n, run))
    ensures var s := After(n, run);
      s.pool.started <= [Consumer] && s.committed == [] && s.reported == {}
  {
    forall s, e | Good(s, n) && (ConsumerEnded(s) || OnlyConsumes(s))
      ensures Good(Next(s, e), n) && (ConsumerEnded(Next(s, e)) || OnlyConsumes(Next(s, e)))
    {
      NextKeepsGood(s, e, n);
      if ConsumerEnded(s) {
        ConsumerStaysEnded(s, e);
      } else {
        NextOnlyConsumes(s, e, n);
      }
    }
    StartIsGood(n);
    Always(Next, (s: System) => Good(s, n) && (ConsumerEnded(s) || OnlyConsumes(s)), Start(n), run);
    assert After(n, run).pool.started <= After(n, run).pool.accepted;
  }
}
