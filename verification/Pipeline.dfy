/** The database-operation pipeline (app/src/Application.cpp) on top of the worker pool.

    Operations are numbered in publish order.  They travel through a FIFO channel to the consumer, which
    is itself a task of the pool and re-enqueues each of them into that pool. */
module Pipeline {
  import opened Runs
  import opened Wrappers
  import opened PoolProtocol
  import PT = PoolTheorems

  type Submission = nat
  datatype Status = Pending | Judged(code: nat)

  /** `Other` stands for every operation that does not touch a row of the submissions table. */
  datatype Operation = InsertRow(sub: Submission) | UpdateRow(sub: Submission, status: Status) | Other

  datatype Task = Consumer | DbOperation(number: nat) | Judge(sub: Submission)

  /** `submitted`: submissions whose INSERT is published; `queued`: whose judge task is enqueued too;
      `reported`: whose judge task has published its verdict.  `committed` lists the operations whose
      SQL has taken effect, in that order. */
  datatype System = System(
    pool: Pool<Task>, published: seq<Operation>, channel: seq<nat>, committed: seq<nat>,
    submitted: set<Submission>, queued: set<Submission>, reported: set<Submission>)

  datatype Event =
    | PublishOther
    | Submit(sub: Submission)
    | QueueJudge(sub: Submission)
    | Report(who: nat, status: Status)
    | Consume(who: nat)
    | Commit(who: nat)
    | PoolStep(action: Action<Task>)

  /** `run` enqueues the consumer before the server starts to listen. */
  function Start(n: nat): System
  {
    System(Step(Initial<Task>(n), Enqueue(Consumer)), [], [], [], {}, {}, {})
  }

  function Publish(s: System, op: Operation): System
  {
    s.(published := s.published + [op], channel := s.channel + [|s.published|])
  }

  predicate Executes(s: System, i: nat, t: Task)
  {
    i < |s.pool.workers| && s.pool.workers[i] == Running(t)
  }

  /** The pool action an event performs.  On a stopped pool the consumer's enqueue throws, which ends the
      consumer and leaves its message unprocessed. */
  function OnPool(s: System, e: Event): Option<Action<Task>>
  {
    match e
    case QueueJudge(sub) => if sub in s.submitted && sub !in s.queued then Some(Enqueue(Judge(sub))) else None
    case Consume(i) =>
      if !Executes(s, i, Consumer) || s.channel == [] then None
      else if s.pool.stop then Some(Complete(i))
      else Some(Enqueue(DbOperation(s.channel[0])))
    case PoolStep(a) => if a.Enqueue? then None else Some(a)
    case _ => None
  }

  function Executing(s: System, i: nat): Option<Task>
  {
    if i < |s.pool.workers| && s.pool.workers[i].Running? then Some(s.pool.workers[i].task) else None
  }

  /** What an event does outside the pool. */
  function Outside(s: System, e: Event): System
  {
    match e
    case PublishOther => Publish(s, Other)
    case Submit(sub) =>
      if sub in s.submitted then s else Publish(s, InsertRow(sub)).(submitted := s.submitted + {sub})
    case QueueJudge(sub) => if sub in s.submitted then s.(queued := s.queued + {sub}) else s
    case Report(i, status) =>
      (match Executing(s, i)
       case Some(Judge(sub)) =>
         if sub in s.reported || !status.Judged? then s
         else Publish(s, UpdateRow(sub, status)).(reported := s.reported + {sub})
       case _ => s)
    case Consume(i) =>
      if Executes(s, i, Consumer) && s.channel != [] && !s.pool.stop then s.(channel := s.channel[1..]) else s
    case Commit(i) =>
      (match Executing(s, i)
       case Some(DbOperation(k)) => if k in s.committed then s else s.(committed := s.committed + [k])
       case _ => s)
    case PoolStep(_) => s
  }

  function Next(s: System, e: Event): System
  {
    var q := Outside(s, e);
    match OnPool(s, e)
    case None => q
    case Some(a) => q.(pool := Step(s.pool, a))
  }

  function After(n: nat, run: seq<Event>): System
  {
    Exec(Next, Start(n), run)
  }

  // ---- Conservation: started, queued and still unread operations are 0, 1, 2, ... in order ----

  function Numbers(ts: seq<Task>): seq<nat>
  {
    if ts == [] then [] else Numbers(ts[..|ts| - 1]) + (if ts[|ts| - 1].DbOperation? then [ts[|ts| - 1].number] else [])
  }

  lemma {:induction false} NumbersConcat(a: seq<Task>, b: seq<Task>)
    ensures Numbers(a + b) == Numbers(a) + Numbers(b)
  {
    if b == [] {
      assert a + b == a;
    } else {
      assert (a + b)[..|a + b| - 1] == a + b[..|b| - 1];
      NumbersConcat(a, b[..|b| - 1]);
    }
  }

  lemma {:induction false} NumbersMember(ts: seq<Task>, k: nat)
    ensures k in Numbers(ts) <==> DbOperation(k) in ts
  {
    if ts != [] {
      var last := |ts| - 1;
      NumbersMember(ts[..last], k);
      assert ts == ts[..last] + [ts[last]];
    }
  }

  ghost predicate Conserved(s: System)
  {
    && InOrder(s.pool)
    && Numbers(s.pool.accepted) + s.channel == Iota(|s.published|)
  }

  lemma PublishConserves(s: System, op: Operation)
    requires Conserved(s)
    ensures Conserved(Publish(s, op))
  {
    assert Iota(|s.published| + 1) == Iota(|s.published|) + [|s.published|];
  }

  lemma EnqueueExtendsNumbers(p: Pool<Task>, t: Task)
    requires InOrder(p) && !p.stop
    ensures var q := Step(p, Enqueue(t));
      InOrder(q) && Numbers(q.accepted) == Numbers(p.accepted) + if t.DbOperation? then [t.number] else []
  {
    assert (p.accepted + [t])[..|p.accepted|] == p.accepted;
  }

  lemma ConsumeConserves(s: System, i: nat)
    requires Conserved(s) && Executes(s, i, Consumer) && s.channel != [] && !s.pool.stop
    ensures Conserved(Next(s, Consume(i)))
  {
    EnqueueExtendsNumbers(s.pool, DbOperation(s.channel[0]));
    assert s.channel == [s.channel[0]] + s.channel[1..];
  }

  lemma PoolStepConserves(s: System, q: System, a: Action<Task>)
    requires Conserved(s) && q.channel == s.channel && q.published == s.published && q.pool == Step(s.pool, a)
    requires a.Enqueue? ==> a.task.Judge?
    ensures Conserved(q)
  {
    StepKeepsOrder(s.pool, a);
    HistoriesGrow(s.pool, a);
    if a.Enqueue? && !s.pool.stop {
      EnqueueExtendsNumbers(s.pool, a.task);
    }
  }

  lemma NextConserves(s: System, e: Event)
    requires Conserved(s)
    ensures Conserved(Next(s, e))
  {
    var q := Next(s, e);
    if e.Consume? && Outside(s, e) != s {
      ConsumeConserves(s, e.who);
    } else if OnPool(s, e).Some? {
      PoolStepConserves(s, q, OnPool(s, e).value);
    } else if q.published != s.published {
      PublishConserves(s, q.published[|s.published|]);
    }
  }

  // ---- The invariant of every run ----

  ghost predicate ConsumerIsFirst(s: System)
  {
    s.pool.accepted != [] && s.pool.accepted[0] == Consumer && Consumer !in s.pool.accepted[1..]
  }

  /** Each submission inserts its row once and updates it at most once, later. */
  ghost predicate RowsPublishedInOrder(published: seq<Operation>, submitted: set<Submission>, reported: set<Submission>)
  {
    && (forall sub :: sub in submitted <==> InsertRow(sub) in published)
    && (forall i, j :: 0 <= i < j < |published| && published[i].InsertRow? ==> published[j] != published[i])
    && (forall u :: 0 <= u < |published| && published[u].UpdateRow? ==>
          published[u].sub in reported && InsertRow(published[u].sub) in published[..u])
    && (forall u, v :: 0 <= u < v < |published| && published[u].UpdateRow? && published[v].UpdateRow? ==>
          published[u].sub != published[v].sub)
  }

  ghost predicate JudgedWereSubmitted(s: System)
  {
    forall sub :: Judge(sub) in s.pool.accepted ==> sub in s.submitted
  }

  ghost predicate CommitsStarted(s: System)
  {
    forall k :: k in s.committed ==> DbOperation(k) in s.pool.started
  }

  ghost predicate Good(s: System, n: nat)
  {
    PT.Sound(s.pool, n) && Conserved(s) && ConsumerIsFirst(s) && CommitsStarted(s)
    && JudgedWereSubmitted(s) && RowsPublishedInOrder(s.published, s.submitted, s.reported)
  }

  lemma ExecutingWasStarted(s: System, i: nat, t: Task)
    requires InOrder(s.pool) && Accounted(s.pool) && Executes(s, i, t)
    ensures t in s.pool.started && t in s.pool.accepted
  {
    InHandMember(s.pool.workers, t);
    assert multiset(s.pool.started)[t] > 0;
    assert t in multiset(s.pool.started);
  }

  lemma NextKeepsPool(s: System, e: Event, n: nat)
    requires PT.Sound(s.pool, n)
    ensures PT.Sound(Next(s, e).pool, n)
    ensures s.pool.started <= Next(s, e).pool.started
  {
    if OnPool(s, e).Some? {
      StepKeepsInv(s.pool, OnPool(s, e).value);
      HistoriesGrow(s.pool, OnPool(s, e).value);
    }
  }

  lemma NextKeepsConsumer(s: System, e: Event)
    requires ConsumerIsFirst(s)
    ensures ConsumerIsFirst(Next(s, e))
  {
    var q := Next(s, e);
    if q.pool.accepted != s.pool.accepted {
      assert q.pool.accepted[1..] == s.pool.accepted[1..] + [q.pool.accepted[|s.pool.accepted|]];
    }
  }

  lemma MoreStarted(s: System, q: System)
    requires CommitsStarted(s) && s.pool.started <= q.pool.started && q.committed == s.committed
    ensures CommitsStarted(q)
  {
    forall k | k in q.committed
      ensures DbOperation(k) in q.pool.started
    {
      assert DbOperation(k) in s.pool.started;
    }
  }

  lemma CommitIsOfStarted(s: System, i: nat, k: nat)
    requires InOrder(s.pool) && Accounted(s.pool) && CommitsStarted(s) && Executes(s, i, DbOperation(k))
    ensures CommitsStarted(s.(committed := s.committed + [k]))
  {
    ExecutingWasStarted(s, i, DbOperation(k));
  }

  lemma NextKeepsCommits(s: System, e: Event, n: nat)
    requires PT.Sound(s.pool, n) && CommitsStarted(s)
    ensures CommitsStarted(Next(s, e))
  {
    if e.Commit? && Outside(s, e) != s {
      CommitIsOfStarted(s, e.who, Executing(s, e.who).value.number);
    } else {
      NextKeepsPool(s, e, n);
      MoreStarted(s, Next(s, e));
    }
  }

  lemma AppendInsert(published: seq<Operation>, submitted: set<Submission>, reported: set<Submission>, sub: Submission)
    requires RowsPublishedInOrder(published, submitted, reported) && sub !in submitted
    ensures RowsPublishedInOrder(published + [InsertRow(sub)], submitted + {sub}, reported)
  {
    var after := published + [InsertRow(sub)];
    forall u | 0 <= u < |after| && after[u].UpdateRow?
      ensures InsertRow(after[u].sub) in after[..u]
    {
      assert after[..u] == published[..u];
    }
  }

  lemma AppendUpdate(published: seq<Operation>, submitted: set<Submission>, reported: set<Submission>, sub: Submission, status: Status)
    requires RowsPublishedInOrder(published, submitted, reported) && sub in submitted && sub !in reported
    ensures RowsPublishedInOrder(published + [UpdateRow(sub, status)], submitted, reported + {sub})
  {
    var after := published + [UpdateRow(sub, status)];
    forall u | 0 <= u < |after| && after[u].UpdateRow?
      ensures InsertRow(after[u].sub) in after[..u]
    {
      assert after[..u] == published[..u];
    }
  }

  lemma AppendOther(published: seq<Operation>, submitted: set<Submission>, reported: set<Submission>)
    requires RowsPublishedInOrder(published, submitted, reported)
    ensures RowsPublishedInOrder(published + [Other], submitted, reported)
  {
    var after := published + [Other];
    forall u | 0 <= u < |after| && after[u].UpdateRow?
      ensures InsertRow(after[u].sub) in after[..u]
    {
      assert after[..u] == published[..u];
    }
  }

  lemma NextKeepsRows(s: System, e: Event, n: nat)
    requires Good(s, n)
    ensures var q := Next(s, e); JudgedWereSubmitted(q) && RowsPublishedInOrder(q.published, q.submitted, q.reported)
  {
    match e
    case PublishOther => AppendOther(s.published, s.submitted, s.reported);
    case Submit(sub) => if sub !in s.submitted { AppendInsert(s.published, s.submitted, s.reported, sub); }
    case Report(i, status) =>
      if Executing(s, i).Some? && Executing(s, i).value.Judge? && Next(s, e) != s {
        var sub := Executing(s, i).value.sub;
        ExecutingWasStarted(s, i, Judge(sub));
        AppendUpdate(s.published, s.submitted, s.reported, sub, status);
      }
    case _ =>
  }

  lemma StartIsGood(n: nat)
    ensures Good(Start(n), n)
  {
    InitialInv<Task>(n);
    StepKeepsInv(Initial<Task>(n), Enqueue(Consumer));
    EnqueueExtendsNumbers(Initial<Task>(n), Consumer);
    assert Start(n).pool.accepted == [Consumer];
  }

  lemma NextKeepsGood(s: System, e: Event, n: nat)
    requires Good(s, n)
    ensures Good(Next(s, e), n)
  {
    NextKeepsPool(s, e, n);
    NextConserves(s, e);
    NextKeepsConsumer(s, e);
    NextKeepsCommits(s, e, n);
    NextKeepsRows(s, e, n);
  }

  lemma GoodAlways(n: nat, run: seq<Event>)
    ensures Good(After(n, run), n)
  {
    StartIsGood(n);
    forall s, e | Good(s, n)
      ensures Good(Next(s, e), n)
    {
      NextKeepsGood(s, e, n);
    }
    Always(Next, (s: System) => Good(s, n), Start(n), run);
  }
}
