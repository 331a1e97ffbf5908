/** What the pipeline leaves in the submissions table, and runs that reach the reordering bound. */
module PipelineRows {
  import opened Runs
  import opened PoolProtocol
  import opened Pipeline
  import opened PipelineOrder

  type Table = map<Submission, Status>

  /** The SQL of one operation: an UPDATE of a missing row changes nothing. */
  function Apply(rows: Table, op: Operation): Table
  {
    match op
    case InsertRow(sub) => rows[sub := Pending]
    case UpdateRow(sub, status) => if sub in rows then rows[sub := status] else rows
    case Other => rows
  }

  function Rows(published: seq<Operation>, committed: seq<nat>): Table
  {
    if committed == [] then map[]
    else
      var rows, k := Rows(published, committed[..|committed| - 1]), committed[|committed| - 1];
      if k < |published| then Apply(rows, published[k]) else rows
  }

  /** With commits in publish order a row is absent, then pending, then judged. */
  lemma {:induction false} RowHistory(published: seq<Operation>, committed: seq<nat>, sub: Submission, ins: nat, upd: nat)
    requires ins < upd < |published| && published[ins] == InsertRow(sub)
    requires published[upd].UpdateRow? && published[upd].sub == sub
    requires forall i :: 0 <= i < |published| && i != ins ==> published[i] != InsertRow(sub)
    requires forall u :: 0 <= u < |published| && u != upd && published[u].UpdateRow? ==> published[u].sub != sub
    requires Increasing(committed)
    ensures var rows := Rows(published, committed);
      if ins in committed then sub in rows && rows[sub] == (if upd in committed then published[upd].status else Pending)
      else sub !in rows
  {
    if committed != [] {
      var front, k := committed[..|committed| - 1], committed[|committed| - 1];
      assert committed == front + [k];
      assert forall i :: 0 <= i < |front| ==> front[i] < k;
      RowHistory(published, front, sub, ins, upd);
      if k < |published| && k != ins && k != upd {
        Untouched(Rows(published, front), published[k], sub);
      }
    }
  }

  lemma Untouched(rows: Table, op: Operation, sub: Submission)
    requires op != InsertRow(sub) && (op.UpdateRow? ==> op.sub != sub)
    ensures sub in Apply(rows, op) <==> sub in rows
    ensures sub in rows ==> Apply(rows, op)[sub] == rows[sub]
  {}

  /** Every submission whose INSERT and UPDATE have both taken effect shows its judged status. */
  ghost predicate ShowsVerdicts(s: System)
  {
    var rows := Rows(s.published, s.committed);
    forall ins, upd :: 0 <= ins < |s.published| && 0 <= upd < |s.published| && ins in s.committed && upd in s.committed
      && s.published[upd].UpdateRow? && s.published[ins] == InsertRow(s.published[upd].sub)
      ==> s.published[upd].sub in rows && rows[s.published[upd].sub] == s.published[upd].status
  }

  lemma SequentialShowsVerdicts(s: System, n: nat)
    requires Good(s, n) && Sequential(s)
    ensures ShowsVerdicts(s)
  {
    forall ins, upd | 0 <= ins < |s.published| && 0 <= upd < |s.published| && ins in s.committed && upd in s.committed
      && s.published[upd].UpdateRow? && s.published[ins] == InsertRow(s.published[upd].sub)
      ensures var rows, sub := Rows(s.published, s.committed), s.published[upd].sub;
        sub in rows && rows[sub] == s.published[upd].status
    {
      var sub := s.published[upd].sub;
      assert InsertRow(sub) in s.published[..upd];
      RowHistory(s.published, s.committed, sub, ins, upd);
    }
  }

  lemma VerdictsAreShown(n: nat, run: seq<Event>)
    requires OneAtATime(After(n, run), n)
    ensures Increasing(After(n, run).committed) && ShowsVerdicts(After(n, run))
  {
    GoodAlways(n, run);
    OrderIsKept(n, run);
    SequentialShowsVerdicts(After(n, run), n);
  }

  // ---- Every worker but the consumer's busy with its own operation ----

  function JamRun(m: nat): seq<Event>
  {
    if m == 0 then [PoolStep(TakeTurn(0))]
    else JamRun(m - 1) + [PublishOther] + [Consume(0)] + [PoolStep(TakeTurn(m))]
  }

  function JamTasks(m: nat): (ts: seq<Task>)
    ensures |ts| == m + 1
  {
    seq(m + 1, i requires 0 <= i => if i == 0 then Consumer else DbOperation(i - 1))
  }

  function Jammed(n: nat, m: nat): System
    requires m < n
  {
    var ts := JamTasks(m);
    System(Pool(seq(n, i requires 0 <= i => if i <= m then Running(ts[i]) else Ready), [], false, m + 1, Open, ts, ts, []),
           seq(m, i => Other), [], [], {}, {}, {})
  }

  /** Operation `m - 1` in the channel, and then in the queue of the pool. */
  function JamPublished(n: nat, m: nat): System
    requires 0 < m < n
  {
    Jammed(n, m - 1).(published := seq(m, i => Other), channel := [m - 1])
  }

  function JamQueued(n: nat, m: nat): System
    requires 0 < m < n
  {
    var p := Jammed(n, m - 1).pool;
    JamPublished(n, m).(channel := [], pool := p.(tasks := [DbOperation(m - 1)], accepted := JamTasks(m), unnotified := m + 1))
  }

  lemma JamConsumes(n: nat, m: nat)
    requires 0 < m < n
    ensures Next(JamPublished(n, m), Consume(0)) == JamQueued(n, m)
  {
    assert JamTasks(m) == JamTasks(m - 1) + [DbOperation(m - 1)];
  }

  lemma JamStarts(n: nat, m: nat)
    requires 0 < m < n
    ensures Next(JamQueued(n, m), PoolStep(TakeTurn(m))) == Jammed(n, m)
  {
    assert JamTasks(m) == JamTasks(m - 1) + [DbOperation(m - 1)];
    assert JamQueued(n, m).pool.workers[m := Running(DbOperation(m - 1))] == Jammed(n, m).pool.workers;
  }

  lemma Follow(n: nat, run: seq<Event>, s: System, e: Event, t: System)
    requires After(n, run) == s && Next(s, e) == t
    ensures After(n, run + [e]) == t
  {
    ExecOne(Next, Start(n), run, e);
  }

  /** One more operation is published, consumed and started by the next free worker. */
  lemma JamStep(n: nat, m: nat, run: seq<Event>)
    requires 0 < m < n && After(n, run) == Jammed(n, m - 1)
    ensures After(n, run + [PublishOther] + [Consume(0)] + [PoolStep(TakeTurn(m))]) == Jammed(n, m)
  {
    var r1 := run + [PublishOther];
    assert After(n, r1) == JamPublished(n, m) by {
      Follow(n, run, Jammed(n, m - 1), PublishOther, JamPublished(n, m));
    }
    assert After(n, r1 + [Consume(0)]) == JamQueued(n, m) by {
      JamConsumes(n, m);
      Follow(n, r1, JamPublished(n, m), Consume(0), JamQueued(n, m));
    }
    JamStarts(n, m);
    Follow(n, r1 + [Consume(0)], JamQueued(n, m), PoolStep(TakeTurn(m)), Jammed(n, m));
  }

  lemma JamStart(n: nat)
    requires 0 < n
    ensures After(n, JamRun(0)) == Jammed(n, 0)
  {
    ExecOne(Next, Start(n), [], PoolStep(TakeTurn(0)));
    assert [] + [PoolStep(TakeTurn(0))] == JamRun(0);
    assert Next(Start(n), PoolStep(TakeTurn(0))).pool.workers == Jammed(n, 0).pool.workers;
  }

  lemma {:induction false} JamReached(n: nat, m: nat)
    requires m < n
    ensures After(n, JamRun(m)) == Jammed(n, m)
  {
    if m == 0 {
      JamStart(n);
    } else {
      JamReached(n, m - 1);
      JamStep(n, m, JamRun(m - 1));
    }
  }

  /** The bound is reached: with `n >= 2` workers some operation runs while `n - 2` earlier ones are unfinished. */
  lemma BoundIsTight(n: nat)
    requires n >= 2
    ensures exists run, w, k :: Executes(After(n, run), w, DbOperation(k)) && !ConsumerEnded(After(n, run))
                             && |Unfinished(After(n, run), k)| == n - 2
  {
    JamReached(n, n - 1);
    var s := After(n, JamRun(n - 1));
    assert Executes(s, n - 1, DbOperation(n - 2));
    var all := IndexSet(n - 2);
    assert Unfinished(s, n - 2) == all;
  }

  /** One more operation is queued, the consumer ends, and its worker takes the operation. */
  function JamOverRun(n: nat): seq<Event>
    requires n >= 1
  {
    JamRun(n - 1) + [PublishOther] + [Consume(0)] + [PoolStep(Complete(0))] + [PoolStep(TakeTurn(0))]
  }

  lemma OneIsQueued(s: System)
    requires Executes(s, 0, Consumer) && s.channel == [] && s.pool.tasks == [] && !s.pool.stop
    ensures var q := Next(Next(s, PublishOther), Consume(0));
      q.pool.tasks == [DbOperation(|s.published|)] && q.pool.workers == s.pool.workers
      && q.pool.finished == s.pool.finished
  {
    assert Next(s, PublishOther).channel == [|s.published|];
  }

  lemma ConsumerHandsOver(s: System, k: nat)
    requires Executes(s, 0, Consumer) && s.pool.tasks == [DbOperation(k)]
    ensures var q := Next(Next(s, PoolStep(Complete(0))), PoolStep(TakeTurn(0)));
      Executes(q, 0, DbOperation(k)) && q.pool.finished == s.pool.finished + [Consumer]
  {}

  lemma TwoEvents(n: nat, run: seq<Event>, s: System, d: Event, e: Event)
    requires After(n, run) == s
    ensures After(n, run + [d] + [e]) == Next(Next(s, d), e)
  {
    ExecOne(Next, Start(n), run, d);
    ExecOne(Next, Start(n), run + [d], e);
  }

  lemma JamOver(n: nat)
    requires n >= 1
    ensures var s := After(n, JamOverRun(n));
      Executes(s, 0, DbOperation(n - 1)) && s.pool.finished == [Consumer]
  {
    var r, s := JamRun(n - 1), Jammed(n, n - 1);
    var r2 := r + [PublishOther] + [Consume(0)];
    JamReached(n, n - 1);
    OneIsQueued(s);
    TwoEvents(n, r, s, PublishOther, Consume(0));
    var s2 := After(n, r2);
    ConsumerHandsOver(s2, n - 1);
    TwoEvents(n, r2, s2, PoolStep(Complete(0)), PoolStep(TakeTurn(0)));
  }

  /** After the consumer has ended, some operation can run while `n - 1` earlier ones are unfinished. */
  lemma BoundIsTightWithoutConsumer(n: nat)
    requires n >= 1
    ensures exists run, w, k :: Executes(After(n, run), w, DbOperation(k)) && ConsumerEnded(After(n, run))
                             && |Unfinished(After(n, run), k)| == n - 1
  {
    JamOver(n);
    var s := After(n, JamOverRun(n));
    var all := IndexSet(n - 1);
    assert Unfinished(s, n - 1) == all;
  }

  // ---- With a third worker the UPDATE can overtake the INSERT ----

  function Overtaken(n: nat, w1: Worker<Task>, w2: Worker<Task>, accepted: seq<Task>, finished: seq<Task>,
                     published: seq<Operation>, channel: seq<nat>, committed: seq<nat>, done: set<Submission>): System
  {
    System(Pool(seq(n, i => if i == 0 then Running(Consumer) else if i == 1 then w1 else if i == 2 then w2 else Ready),
                [], false, |accepted|, Open, accepted, accepted, finished),
           published, channel, committed, {7}, done, done)
  }

  const INSERT7 := InsertRow(7)
  const UPDATE7 := UpdateRow(7, Judged(2))
  const INSERTING := [Consumer, DbOperation(0)]
  const JUDGING := [Consumer, DbOperation(0), Judge(7)]
  const UPDATING := [Consumer, DbOperation(0), Judge(7), DbOperation(1)]

  /** Submission 7 is published and its INSERT is started by worker 1. */
  lemma InsertStarts(n: nat, run: seq<Event>)
    requires n > 2 && After(n, run) == Jammed(n, 0)
    ensures After(n, run + [Submit(7)] + [Consume(0)] + [PoolStep(TakeTurn(1))])
         == Overtaken(n, Running(DbOperation(0)), Ready, INSERTING, [], [INSERT7], [], [], {})
  {
    var s2 := Next(Next(Jammed(n, 0), Submit(7)), Consume(0));
    assert s2.pool.accepted == INSERTING;
    assert s2.pool.workers[1 := Running(DbOperation(0))]
        == Overtaken(n, Running(DbOperation(0)), Ready, INSERTING, [], [INSERT7], [], [], {}).pool.workers;
    ExecThree(Next, Start(n), run, Submit(7), Consume(0), PoolStep(TakeTurn(1)));
  }

  /** Its judge task runs on worker 2 and publishes the UPDATE. */
  lemma JudgeReports(n: nat, run: seq<Event>)
    requires n > 2 && After(n, run) == Overtaken(n, Running(DbOperation(0)), Ready, INSERTING, [], [INSERT7], [], [], {})
    ensures After(n, run + [QueueJudge(7)] + [PoolStep(TakeTurn(2))] + [Report(2, Judged(2))])
         == Overtaken(n, Running(DbOperation(0)), Running(Judge(7)), JUDGING, [], [INSERT7, UPDATE7], [1], [], {7})
  {
    var s2 := Next(Next(After(n, run), QueueJudge(7)), PoolStep(TakeTurn(2)));
    assert s2.pool.workers
        == Overtaken(n, Running(DbOperation(0)), Running(Judge(7)), JUDGING, [], [INSERT7, UPDATE7], [1], [], {7}).pool.workers;
    ExecThree(Next, Start(n), run, QueueJudge(7), PoolStep(TakeTurn(2)), Report(2, Judged(2)));
  }

  /** Worker 2 is free again and starts the UPDATE. */
  lemma UpdateStarts(n: nat, run: seq<Event>)
    requires n > 2
    requires After(n, run) == Overtaken(n, Running(DbOperation(0)), Running(Judge(7)), JUDGING, [], [INSERT7, UPDATE7], [1], [], {7})
    ensures After(n, run + [PoolStep(Complete(2))] + [Consume(0)] + [PoolStep(TakeTurn(2))])
         == Overtaken(n, Running(DbOperation(0)), Running(DbOperation(1)), UPDATING, [Judge(7)], [INSERT7, UPDATE7], [], [], {7})
  {
    var s2 := Next(Next(After(n, run), PoolStep(Complete(2))), Consume(0));
    assert s2.pool.workers[2 := Running(DbOperation(1))]
        == Overtaken(n, Running(DbOperation(0)), Running(DbOperation(1)), UPDATING, [Judge(7)], [INSERT7, UPDATE7], [], [], {7}).pool.workers;
    ExecThree(Next, Start(n), run, PoolStep(Complete(2)), Consume(0), PoolStep(TakeTurn(2)));
  }

  function OvertakingRun(): seq<Event>
  {
    JamRun(0) + [Submit(7)] + [Consume(0)] + [PoolStep(TakeTurn(1))]
    + [QueueJudge(7)] + [PoolStep(TakeTurn(2))] + [Report(2, Judged(2))]
    + [PoolStep(Complete(2))] + [Consume(0)] + [PoolStep(TakeTurn(2))]
    + [Commit(2)] + [Commit(1)]
  }

  /** The UPDATE finds no row, and then the INSERT leaves the judged submission pending. */
  lemma UpdateOvertakesInsert(n: nat)
    requires n > 2
    ensures var s := After(n, OvertakingRun());
      && s.published == [InsertRow(7), UpdateRow(7, Judged(2))] && s.committed == [1, 0]
      && !ConsumerEnded(s) && s.channel == [] && s.pool.tasks == []
      && Rows(s.published, s.committed) == map[7 := Pending]
  {
    var r0 := JamRun(0);
    var r1 := r0 + [Submit(7)] + [Consume(0)] + [PoolStep(TakeTurn(1))];
    var r2 := r1 + [QueueJudge(7)] + [PoolStep(TakeTurn(2))] + [Report(2, Judged(2))];
    var r3 := r2 + [PoolStep(Complete(2))] + [Consume(0)] + [PoolStep(TakeTurn(2))];
    JamReached(n, 0);
    InsertStarts(n, r0);
    JudgeReports(n, r1);
    UpdateStarts(n, r2);
    TwoEvents(n, r3, After(n, r3), Commit(2), Commit(1));
    assert OvertakingRun() == r3 + [Commit(2)] + [Commit(1)];
    OvertakenRows();
  }

  lemma OvertakenRows()
    ensures Rows([INSERT7, UPDATE7], [1, 0]) == map[7 := Pending]
  {
    assert [1, 0][..1] == [1] && [1][..0] == [];
    assert Rows([INSERT7, UPDATE7], []) == map[];
    assert Rows([INSERT7, UPDATE7], [1]) == map[];
  }

  /** Commits follow publish order, and judged rows show their verdict, in every run whose consumer is
      alive exactly when there are at most two workers. */
  lemma OrderedExactlyUpToTwoWorkers(n: nat)
    ensures (forall run :: ConsumerEnded(After(n, run)) || Increasing(After(n, run).committed)) <==> n <= 2
    ensures (forall run :: ConsumerEnded(After(n, run)) || ShowsVerdicts(After(n, run))) <==> n <= 2
  {
    if n <= 2 {
      forall run | !ConsumerEnded(After(n, run))
        ensures Increasing(After(n, run).committed) && ShowsVerdicts(After(n, run))
      {
        VerdictsAreShown(n, run);
      }
    } else {
      UpdateOvertakesInsert(n);
      NotShown(After(n, OvertakingRun()));
    }
  }

  lemma NotShown(s: System)
    requires s.published == [INSERT7, UPDATE7] && s.committed == [1, 0]
    ensures !Increasing(s.committed) && !ShowsVerdicts(s)
  {
    OvertakenRows();
    assert s.committed[0] == 1 && s.committed[1] == 0;
    assert s.published[0] == InsertRow(s.published[1].sub) && 0 in s.committed && 1 in s.committed;
  }

  // ---- Once the consumer has ended, a second worker is enough ----

  /** The first two workers and the pool's histories; nobody but the first two has done anything. */
  function Late(n: nat, w0: Worker<Task>, w1: Worker<Task>, tasks: seq<Task>, started: seq<Task>, finished: seq<Task>,
                published: seq<Operation>, channel: seq<nat>, done: set<Submission>): System
  {
    System(Pool(seq(n, i => if i == 0 then w0 else if i == 1 then w1 else Ready),
                tasks, false, |started + tasks|, Open, started + tasks, started, finished),
           published, channel, [], {7}, {7}, done)
  }

  const BOTH := [DbOperation(0), DbOperation(1)]

  /** Submission 7 is published, and worker 1 judges it. */
  lemma LateJudge(n: nat, run: seq<Event>)
    requires n > 1 && After(n, run) == Jammed(n, 0)
    ensures After(n, run + [Submit(7)] + [QueueJudge(7)] + [PoolStep(TakeTurn(1))])
         == Late(n, Running(Consumer), Running(Judge(7)), [], [Consumer, Judge(7)], [], [INSERT7], [0], {})
  {
    var s2 := Next(Next(Jammed(n, 0), Submit(7)), QueueJudge(7));
    var q := Late(n, Running(Consumer), Running(Judge(7)), [], [Consumer, Judge(7)], [], [INSERT7], [0], {});
    assert s2.pool.accepted == [Consumer, Judge(7)];
    assert s2.pool.workers[1 := Running(Judge(7))] == q.pool.workers;
    ExecThree(Next, Start(n), run, Submit(7), QueueJudge(7), PoolStep(TakeTurn(1)));
  }

  /** The UPDATE is published. */
  lemma LateReport(n: nat, run: seq<Event>)
    requires n > 1
    requires After(n, run) == Late(n, Running(Consumer), Running(Judge(7)), [], [Consumer, Judge(7)], [], [INSERT7], [0], {})
    ensures After(n, run + [Report(1, Judged(2))])
         == Late(n, Running(Consumer), Running(Judge(7)), [], [Consumer, Judge(7)], [], [INSERT7, UPDATE7], [0, 1], {7})
  {
    ExecOne(Next, Start(n), run, Report(1, Judged(2)));
  }

  /** The consumer queues both operations. */
  lemma LateConsume(n: nat, run: seq<Event>)
    requires n > 1
    requires After(n, run) == Late(n, Running(Consumer), Running(Judge(7)), [], [Consumer, Judge(7)], [], [INSERT7, UPDATE7], [0, 1], {7})
    ensures After(n, run + [Consume(0)] + [Consume(0)])
         == Late(n, Running(Consumer), Running(Judge(7)), BOTH, [Consumer, Judge(7)], [], [INSERT7, UPDATE7], [], {7})
  {
    var s1 := Next(After(n, run), Consume(0));
    assert s1.channel == [1] && s1.pool.tasks == [DbOperation(0)];
    assert Next(s1, Consume(0)).pool.accepted == [Consumer, Judge(7)] + BOTH;
    TwoEvents(n, run, After(n, run), Consume(0), Consume(0));
  }

  /** Judge task and consumer end. */
  lemma LateEnds(n: nat, run: seq<Event>)
    requires n > 1
    requires After(n, run) == Late(n, Running(Consumer), Running(Judge(7)), BOTH, [Consumer, Judge(7)], [], [INSERT7, UPDATE7], [], {7})
    ensures After(n, run + [PoolStep(Complete(1))] + [PoolStep(Complete(0))])
         == Late(n, Ready, Ready, BOTH, [Consumer, Judge(7)], [Judge(7), Consumer], [INSERT7, UPDATE7], [], {7})
  {
    var q := Late(n, Ready, Ready, BOTH, [Consumer, Judge(7)], [Judge(7), Consumer], [INSERT7, UPDATE7], [], {7});
    var s2 := Next(Next(After(n, run), PoolStep(Complete(1))), PoolStep(Complete(0)));
    assert s2.pool.workers == q.pool.workers && s2.pool.finished == q.pool.finished;
    TwoEvents(n, run, After(n, run), PoolStep(Complete(1)), PoolStep(Complete(0)));
  }

  /** Two workers take one operation each. */
  lemma LateStarts(n: nat, run: seq<Event>)
    requires n > 1
    requires After(n, run) == Late(n, Ready, Ready, BOTH, [Consumer, Judge(7)], [Judge(7), Consumer], [INSERT7, UPDATE7], [], {7})
    ensures After(n, run + [PoolStep(TakeTurn(0))] + [PoolStep(TakeTurn(1))])
         == Late(n, Running(DbOperation(0)), Running(DbOperation(1)), [], [Consumer, Judge(7)] + BOTH,
                 [Judge(7), Consumer], [INSERT7, UPDATE7], [], {7})
  {
    var q := Late(n, Running(DbOperation(0)), Running(DbOperation(1)), [], [Consumer, Judge(7)] + BOTH,
                  [Judge(7), Consumer], [INSERT7, UPDATE7], [], {7});
    var s2 := Next(Next(After(n, run), PoolStep(TakeTurn(0))), PoolStep(TakeTurn(1)));
    assert s2.pool.workers == q.pool.workers && s2.pool.started == q.pool.started;
    TwoEvents(n, run, After(n, run), PoolStep(TakeTurn(0)), PoolStep(TakeTurn(1)));
  }

  function LateRun(): seq<Event>
  {
    JamRun(0) + [Submit(7)] + [QueueJudge(7)] + [PoolStep(TakeTurn(1))]
    + [Report(1, Judged(2))] + [Consume(0)] + [Consume(0)]
    + [PoolStep(Complete(1))] + [PoolStep(Complete(0))]
    + [PoolStep(TakeTurn(0))] + [PoolStep(TakeTurn(1))]
    + [Commit(1)] + [Commit(0)]
  }

  /** Operations still queued when the consumer ends are executed side by side by as few as two workers. */
  lemma LateUpdateOvertakesInsert(n: nat)
    requires n > 1
    ensures var s := After(n, LateRun());
      s.published == [INSERT7, UPDATE7] && s.committed == [1, 0] && Rows(s.published, s.committed) == map[7 := Pending]
  {
    var r0 := JamRun(0);
    var r1 := r0 + [Submit(7)] + [QueueJudge(7)] + [PoolStep(TakeTurn(1))];
    var r2 := r1 + [Report(1, Judged(2))] + [Consume(0)] + [Consume(0)];
    var r3 := r2 + [PoolStep(Complete(1))] + [PoolStep(Complete(0))];
    var r4 := r3 + [PoolStep(TakeTurn(0))] + [PoolStep(TakeTurn(1))];
    JamReached(n, 0);
    LateJudge(n, r0);
    LateReport(n, r1);
    LateConsume(n, r1 + [Report(1, Judged(2))]);
    LateEnds(n, r2);
    LateStarts(n, r3);
    TwoEvents(n, r4, After(n, r4), Commit(1), Commit(0));
    assert LateRun() == r4 + [Commit(1)] + [Commit(0)];
    OvertakenRows();
  }

  /** Without regard to the consumer, order and verdicts are safe in every run exactly with one worker. */
  lemma OrderedOnEveryRunExactlyWithOneWorker(n: nat)
    ensures (forall run :: Increasing(After(n, run).committed)) <==> n <= 1
    ensures (forall run :: ShowsVerdicts(After(n, run))) <==> n <= 1
  {
    if n <= 1 {
      forall run
        ensures Increasing(After(n, run).committed) && ShowsVerdicts(After(n, run))
      {
        VerdictsAreShown(n, run);
      }
    } else {
      LateUpdateOvertakesInsert(n);
      NotShown(After(n, LateRun()));
    }
  }
}
