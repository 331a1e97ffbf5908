/** What becomes of every call of the queue (core/include/Queue.inl): the pushed item is the caller's, and
    calls return, wait and miss only for the reasons the source gives. */
module QueueAccounts {
  import opened Runs
  import opened QueueProtocol
  import opened QueueTheorems

  // ---- One step and its client ----

  predicate PushesItem<T>(c: Client<T>) { c.WantPush? || c.PushAsleep? || c.PushSignalled? }
  predicate IsPop<T>(c: Client<T>) { c.WantPop? || c.PopExpired? || c.PopAsleep? || c.PopSignalled? }

  ghost predicate IsPushOf<T>(c: Client<T>, x: T) { PushesItem(c) && c.item == x }

  /** A step leaves the other clients alone, except that sleepers may be signalled. */
  lemma OthersOnlyWake<T>(q: Queue<T>, a: Action<T>, c: nat)
    requires c < |q.clients| && c != a.who
    ensures var r := Step(q, a);
      |r.clients| == |q.clients|
      && (r.clients[c] == q.clients[c]
          || (q.clients[c].PopAsleep? && r.clients[c].PopSignalled?)
          || (q.clients[c].PushAsleep? && r.clients[c] == PushSignalled(q.clients[c].item)))
  {
    match a
    case Turn(who, pick) =>
      if Enabled(q, a) {
        match q.clients[who]
        case FlagSet =>
        case PoppersWoken =>
        case _ =>
      }
    case _ =>
  }

  /** A pending push goes on with the same item until that very item is stored last, or refused after
      shutdown. */
  lemma PushKeepsItsItem<T>(q: Queue<T>, a: Action<T>, c: nat)
    requires c < |q.clients| && PushesItem(q.clients[c])
    ensures var r, x := Step(q, a), q.clients[c].item;
      |r.clients| == |q.clients|
      && (IsPushOf(r.clients[c], x)
          || (r.clients[c].Idle? && a.Turn? && a.who == c && r.items == q.items + [x] && r.pushed == q.pushed + [x])
          || (r.clients[c].Idle? && a.Turn? && a.who == c && q.down && r.items == q.items && r.refused == q.refused + [x]))
  {
    if a.who != c {
      OthersOnlyWake(q, a, c);
    }
  }

  /** A pending pop goes on until it is handed the front item, or returns without one because the queue is
      empty and either shut down or its time has expired. */
  lemma PopReturnsOnlyFor<T>(q: Queue<T>, a: Action<T>, c: nat)
    requires c < |q.clients| && IsPop(q.clients[c])
    ensures var r := Step(q, a);
      |r.clients| == |q.clients|
      && (IsPop(r.clients[c])
          || (r.clients[c].Idle? && a.Turn? && a.who == c && q.items != [] && r.popped == q.popped + [q.items[0]])
          || (r.clients[c].Idle? && a.Turn? && a.who == c && q.items == [] && (q.down || q.clients[c].PopExpired?)
              && r.popped == q.popped && r.missed == q.missed + 1))
    ensures !q.clients[c].PopExpired? && Step(q, a).clients[c].PopExpired? ==> a == TimeOut(c) && q.clients[c].PopAsleep?
  {
    if a.who != c {
      OthersOnlyWake(q, a, c);
    }
  }

  /** A pop whose time has expired returns at its next turn, with an item if there is one. */
  lemma ExpiredPopReturns<T>(q: Queue<T>, c: nat, pick: nat)
    requires Enabled(q, TimeOut(c)) && Enabled(Step(q, TimeOut(c)), Turn(c, pick))
    ensures var r := Step(Step(q, TimeOut(c)), Turn(c, pick));
      c < |r.clients| && r.clients[c].Idle?
      && r.popped == q.popped + if q.items == [] then [] else [q.items[0]]
  {}

  /** A pushing client falls asleep only, and always, when its turn finds the queue full. */
  lemma PusherSleepsExactly<T>(q: Queue<T>, a: Action<T>, c: nat)
    requires c < |q.clients|
    ensures |Step(q, a).clients| == |q.clients|
    ensures !IsPushAsleep(q.clients[c]) && IsPushAsleep(Step(q, a).clients[c])
       <==> Enabled(q, a) && a.Turn? && a.who == c && PushesItem(q.clients[c]) && !q.down && |q.items| >= q.capacity
  {
    if a.who != c {
      OthersOnlyWake(q, a, c);
    }
  }

  /** A popping client falls asleep only, and always, when its turn finds the queue empty in time. */
  lemma PopperSleepsExactly<T>(q: Queue<T>, a: Action<T>, c: nat)
    requires c < |q.clients|
    ensures |Step(q, a).clients| == |q.clients|
    ensures !IsPopAsleep(q.clients[c]) && IsPopAsleep(Step(q, a).clients[c])
       <==> Enabled(q, a) && a.Turn? && a.who == c && IsPop(q.clients[c]) && !q.clients[c].PopExpired? && !q.down && q.items == []
  {
    if a.who != c {
      OthersOnlyWake(q, a, c);
    }
  }

  // ---- Every push and every pop of a run is accounted for ----

  ghost function PushOf<T(!new)>(x: T): Client<T> -> bool
  {
    c => IsPushOf(c, x)
  }

  ghost function PushCount<T(!new)>(q: Queue<T>, x: T): nat
  {
    multiset(q.pushed)[x] + multiset(q.refused)[x] + Count(PushOf(x), q.clients)
  }

  function PopCount<T>(q: Queue<T>): nat
  {
    |q.popped| + q.missed + Count(IsPop<T>, q.clients)
  }

  lemma SignalsKeepPushes<T(!new)>(cs: seq<Client<T>>, pick: nat, x: T)
    ensures Count(PushOf(x), SignalPopper(cs, pick)) == Count(PushOf(x), cs)
    ensures Count(PushOf(x), SignalPusher(cs, pick)) == Count(PushOf(x), cs)
    ensures Count(PushOf(x), WakePoppers(cs)) == Count(PushOf(x), cs)
    ensures Count(PushOf(x), WakePushers(cs)) == Count(PushOf(x), cs)
  {
    CountSame(PushOf(x), SignalPopper(cs, pick), cs);
    CountSame(PushOf(x), SignalPusher(cs, pick), cs);
    CountSame(PushOf(x), WakePoppers(cs), cs);
    CountSame(PushOf(x), WakePushers(cs), cs);
  }

  lemma SignalsKeepPops<T>(cs: seq<Client<T>>, pick: nat)
    ensures Count(IsPop<T>, SignalPopper(cs, pick)) == Count(IsPop<T>, cs)
    ensures Count(IsPop<T>, SignalPusher(cs, pick)) == Count(IsPop<T>, cs)
    ensures Count(IsPop<T>, WakePoppers(cs)) == Count(IsPop<T>, cs)
    ensures Count(IsPop<T>, WakePushers(cs)) == Count(IsPop<T>, cs)
  {
    CountSame(IsPop<T>, SignalPopper(cs, pick), cs);
    CountSame(IsPop<T>, SignalPusher(cs, pick), cs);
    CountSame(IsPop<T>, WakePoppers(cs), cs);
    CountSame(IsPop<T>, WakePushers(cs), cs);
  }

  /** A client moves, and sleepers may be signalled. */
  lemma MoveAccounts<T(!new)>(cs: seq<Client<T>>, who: nat, c: Client<T>, pick: nat, x: T, after: seq<Client<T>>)
    requires who < |cs|
    requires var mid := cs[who := c];
      after in {mid, SignalPopper(mid, pick), SignalPusher(mid, pick), WakePoppers(mid), WakePushers(mid)}
    ensures Count(PushOf(x), after) + (if IsPushOf(cs[who], x) then 1 else 0) == Count(PushOf(x), cs) + if IsPushOf(c, x) then 1 else 0
    ensures Count(IsPop<T>, after) + (if IsPop(cs[who]) then 1 else 0) == Count(IsPop<T>, cs) + if IsPop(c) then 1 else 0
  {
    CountUpdate(PushOf(x), cs, who, c);
    CountUpdate(IsPop<T>, cs, who, c);
    SignalsKeepPushes(cs[who := c], pick, x);
    SignalsKeepPops(cs[who := c], pick);
  }

  lemma PushTurnAccounts<T(!new)>(q: Queue<T>, who: nat, y: T, pick: nat, x: T)
    requires who < |q.clients| && IsPushOf(q.clients[who], y)
    ensures PushCount(PushTurn(q, who, y, pick), x) == PushCount(q, x)
    ensures PopCount(PushTurn(q, who, y, pick)) == PopCount(q)
  {
    MoveAccounts(q.clients, who, if q.down || |q.items| < q.capacity then Idle else PushAsleep(y), pick, x,
                 PushTurn(q, who, y, pick).clients);
  }

  lemma PopTurnAccounts<T(!new)>(q: Queue<T>, who: nat, pick: nat, x: T)
    requires who < |q.clients| && IsPop(q.clients[who])
    ensures PushCount(PopTurn(q, who, pick), x) == PushCount(q, x)
    ensures PopCount(PopTurn(q, who, pick)) == PopCount(q)
  {
    MoveAccounts(q.clients, who, if q.items == [] && !q.down && !q.clients[who].PopExpired? then PopAsleep else Idle, pick, x,
                 PopTurn(q, who, pick).clients);
  }

  lemma ShutdownTurnAccounts<T(!new)>(q: Queue<T>, who: nat, pick: nat, x: T)
    requires who < |q.clients| && (q.clients[who].FlagSet? || q.clients[who].PoppersWoken?)
    ensures var r := Step(q, Turn(who, pick)); PushCount(r, x) == PushCount(q, x) && PopCount(r) == PopCount(q)
  {
    var r := Step(q, Turn(who, pick));
    if q.clients[who].FlagSet? {
      assert r.clients == WakePoppers(q.clients[who := PoppersWoken]);
      MoveAccounts(q.clients, who, PoppersWoken, pick, x, r.clients);
    } else {
      assert r.clients == WakePushers(q.clients[who := Idle]);
      MoveAccounts(q.clients, who, Idle, pick, x, r.clients);
    }
  }

  lemma TurnAccounts<T(!new)>(q: Queue<T>, who: nat, pick: nat, x: T)
    requires Enabled(q, Turn(who, pick))
    ensures var r := Step(q, Turn(who, pick)); PushCount(r, x) == PushCount(q, x) && PopCount(r) == PopCount(q)
  {
    match q.clients[who]
    case WantPush(y) => PushTurnAccounts(q, who, y, pick, x);
    case PushSignalled(y) => PushTurnAccounts(q, who, y, pick, x);
    case FlagSet => ShutdownTurnAccounts(q, who, pick, x);
    case PoppersWoken => ShutdownTurnAccounts(q, who, pick, x);
    case _ => PopTurnAccounts(q, who, pick, x);
  }

  ghost predicate Calls<T>(q: Queue<T>, a: Action<T>, x: T)
  {
    Enabled(q, a) && a.CallPush? && a.item == x
  }

  lemma OtherActionAccounts<T(!new)>(q: Queue<T>, a: Action<T>, x: T)
    requires Enabled(q, a) && !a.Turn?
    ensures PushCount(Step(q, a), x) == PushCount(q, x) + if Calls(q, a, x) then 1 else 0
    ensures PopCount(Step(q, a)) == PopCount(q) + if a.CallPop? then 1 else 0
  {
    var r := Step(q, a);
    assert r.clients == q.clients[a.who := r.clients[a.who]];
    MoveAccounts(q.clients, a.who, r.clients[a.who], 0, x, r.clients);
  }

  lemma StepAccounts<T(!new)>(q: Queue<T>, a: Action<T>, x: T)
    ensures PushCount(Step(q, a), x) == PushCount(q, x) + if Calls(q, a, x) then 1 else 0
    ensures PopCount(Step(q, a)) == PopCount(q) + if Enabled(q, a) && a.CallPop? then 1 else 0
  {
    if Enabled(q, a) {
      match a
      case Turn(who, pick) => TurnAccounts(q, who, pick, x);
      case _ => OtherActionAccounts(q, a, x);
    }
  }

  /** How often the run calls `push` with item `x`, and how often it calls `pop`. */
  ghost function PushCalls<T>(capacity: nat, clients: nat, run: seq<Action<T>>, x: T): nat
  {
    if run == [] then 0
    else
      PushCalls(capacity, clients, run[..|run| - 1], x)
      + if Calls(After(capacity, clients, run[..|run| - 1]), run[|run| - 1], x) then 1 else 0
  }

  function PopCalls<T>(capacity: nat, clients: nat, run: seq<Action<T>>): nat
  {
    if run == [] then 0
    else
      PopCalls(capacity, clients, run[..|run| - 1])
      + if Enabled(After(capacity, clients, run[..|run| - 1]), run[|run| - 1]) && run[|run| - 1].CallPop? then 1 else 0
  }

  /** On every run each item has been stored, been refused, or is still being pushed, together exactly as
      often as some caller has called `push` with it; and every `pop` has been handed an item, has missed,
      or is pending. */
  lemma {:induction false} EveryCallIsAccountedFor<T(!new)>(capacity: nat, clients: nat, run: seq<Action<T>>, x: T)
    ensures PushCount(After(capacity, clients, run), x) == PushCalls(capacity, clients, run, x)
    ensures PopCount(After(capacity, clients, run)) == PopCalls(capacity, clients, run)
  {
    if run == [] {
      CountNone(PushOf(x), Initial<T>(capacity, clients).clients);
      CountNone(IsPop<T>, Initial<T>(capacity, clients).clients);
    } else {
      EveryCallIsAccountedFor(capacity, clients, run[..|run| - 1], x);
      StepAccounts(After(capacity, clients, run[..|run| - 1]), run[|run| - 1], x);
    }
  }

  // ---- Sleepers exist ----

  function PopperRun<T>(): seq<Action<T>> { [CallPop(0)] + [Turn(0, 0)] }

  /** A pop on the empty queue falls asleep. */
  lemma PopperCanSleep<T>(capacity: nat, clients: nat)
    requires clients > 0
    ensures Poppers(After<T>(capacity, clients, PopperRun()).clients)
  {
    var q := Initial<T>(capacity, clients);
    ExecTwo(Step<T>, q, CallPop(0), Turn(0, 0));
    var p := Step(q, CallPop(0));
    assert forall c :: 0 <= c < |p.clients| ==> !IsPushAsleep(p.clients[c]);
    assert IsPopAsleep(Step(p, Turn(0, 0)).clients[0]);
  }

  function FillRun<T>(n: nat, x: T): seq<Action<T>>
  {
    if n == 0 then [] else FillRun(n - 1, x) + [CallPush(0, x)] + [Turn(0, 0)]
  }

  lemma {:induction false} Filled<T(!new)>(capacity: nat, clients: nat, n: nat, x: T)
    requires clients > 0 && n <= capacity
    ensures var q := After(capacity, clients, FillRun(n, x));
      |q.items| == n && q.capacity == capacity && !q.down && q.clients == Initial<T>(capacity, clients).clients
  {
    if n > 0 {
      Filled(capacity, clients, n - 1, x);
      var q := After(capacity, clients, FillRun(n - 1, x));
      PushOnce(q, x);
      ExecOne(Step<T>, Initial<T>(capacity, clients), FillRun(n - 1, x), CallPush(0, x));
      ExecOne(Step<T>, Initial<T>(capacity, clients), FillRun(n - 1, x) + [CallPush(0, x)], Turn(0, 0));
    }
  }

  lemma PushOnce<T>(q: Queue<T>, x: T)
    requires q.clients != [] && !q.down && forall c :: 0 <= c < |q.clients| ==> q.clients[c].Idle?
    ensures var r := Step(Step(q, CallPush(0, x)), Turn(0, 0));
      r.capacity == q.capacity && !r.down
      && (if |q.items| < q.capacity then |r.items| == |q.items| + 1 && r.clients == q.clients else Pushers(r.clients))
  {
    var p := Step(q, CallPush(0, x));
    assert forall c :: 0 <= c < |p.clients| ==> !IsPopAsleep(p.clients[c]);
    assert p.clients[0 := Idle] == q.clients;
    assert |q.items| >= q.capacity ==> IsPushAsleep(Step(p, Turn(0, 0)).clients[0]);
  }

  /** A push on the full queue falls asleep, whatever the capacity. */
  lemma PusherCanSleep<T(!new)>(capacity: nat, clients: nat, x: T)
    requires clients > 0
    ensures Pushers(After(capacity, clients, FillRun(capacity + 1, x)).clients)
  {
    Filled(capacity, clients, capacity, x);
    PushOnce(After(capacity, clients, FillRun(capacity, x)), x);
    ExecOne(Step<T>, Initial<T>(capacity, clients), FillRun(capacity, x), CallPush(0, x));
    ExecOne(Step<T>, Initial<T>(capacity, clients), FillRun(capacity, x) + [CallPush(0, x)], Turn(0, 0));
  }
}
