/** The bounded blocking queue (core/include/Queue.inl) as a step relation, and the queue object. */
module QueueProtocol {
  import opened Runs

  /** Where a client of the queue stands.
      - `WantPush(x)`, `WantPop`: about to take the lock; `PopExpired` when a pop's wait has timed out.
      - `PushAsleep(x)`, `PopAsleep`: waiting on one of the two conditions.
      - `PushSignalled(x)`, `PopSignalled`: woken by a notification, has not yet re-taken the lock.
      - `FlagSet`: in `shutdown`, flag set, both notifications to come; `PoppersWoken`: one to come. */
  datatype Client<T> =
    | Idle
    | WantPush(item: T) | PushAsleep(item: T) | PushSignalled(item: T)
    | WantPop | PopExpired | PopAsleep | PopSignalled
    | FlagSet | PoppersWoken

  /** `pushed`: items whose push returned true, in order; `refused`: items whose push returned false;
      `popped`: items handed out, in order; `missed`: pops that returned without an item.  `announced` and `freed` record that some shutdown has done its first, its second `notify_all`. */
  datatype Queue<T> = Queue(
    items: seq<T>, capacity: nat, down: bool, clients: seq<Client<T>>,
    pushed: seq<T>, refused: seq<T>, popped: seq<T>, missed: nat, announced: bool, freed: bool)

  datatype Action<T> =
    | CallPush(who: nat, item: T)
    | CallPop(who: nat)
    | CallShutdown(who: nat)
    | Turn(who: nat, pick: nat)
    | TimeOut(who: nat)
    | WakeSpuriously(who: nat)

  predicate IsPushAsleep<T>(c: Client<T>) { c.PushAsleep? }
  predicate IsPopAsleep<T>(c: Client<T>) { c.PopAsleep? }
  predicate IsPushSignalled<T>(c: Client<T>) { c.PushSignalled? }
  predicate IsPopSignalled<T>(c: Client<T>) { c.PopSignalled? }

  predicate Pushers<T>(cs: seq<Client<T>>) { exists c :: 0 <= c < |cs| && IsPushAsleep(cs[c]) }
  predicate Poppers<T>(cs: seq<Client<T>>) { exists c :: 0 <= c < |cs| && IsPopAsleep(cs[c]) }

  function Initial<T>(capacity: nat, clients: nat): Queue<T>
  {
    Queue([], capacity, false, seq(clients, i => Idle), [], [], [], 0, false, false)
  }

  /** `notify_one` on "not empty": some sleeping popper is signalled, if there is one. */
  function SignalPopper<T>(cs: seq<Client<T>>, pick: nat): seq<Client<T>>
  {
    if pick < |cs| && cs[pick].PopAsleep? then cs[pick := PopSignalled] else cs
  }

  function SignalPusher<T>(cs: seq<Client<T>>, pick: nat): seq<Client<T>>
  {
    if pick < |cs| && cs[pick].PushAsleep? then cs[pick := PushSignalled(cs[pick].item)] else cs
  }

  function WakePoppers<T>(cs: seq<Client<T>>): (r: seq<Client<T>>)
    ensures |r| == |cs| && forall i :: 0 <= i < |cs| ==> r[i] == if cs[i].PopAsleep? then PopSignalled else cs[i]
  {
    seq(|cs|, i requires 0 <= i < |cs| => if cs[i].PopAsleep? then PopSignalled else cs[i])
  }

  function WakePushers<T>(cs: seq<Client<T>>): (r: seq<Client<T>>)
    ensures |r| == |cs| && forall i :: 0 <= i < |cs| ==> r[i] == if cs[i].PushAsleep? then PushSignalled(cs[i].item) else cs[i]
  {
    seq(|cs|, i requires 0 <= i < |cs| => if cs[i].PushAsleep? then PushSignalled(cs[i].item) else cs[i])
  }

  /** A turn of `push` under the lock. */
  function PushTurn<T>(q: Queue<T>, who: nat, x: T, pick: nat): Queue<T>
    requires who < |q.clients|
  {
    if q.down then q.(clients := q.clients[who := Idle], refused := q.refused + [x])
    else if |q.items| < q.capacity then
      q.(items := q.items + [x], pushed := q.pushed + [x], clients := SignalPopper(q.clients[who := Idle], pick))
    else q.(clients := q.clients[who := PushAsleep(x)])
  }

  /** A turn of `pop` under the lock; an expired wait gives up when there is nothing to take. */
  function PopTurn<T>(q: Queue<T>, who: nat, pick: nat): Queue<T>
    requires who < |q.clients|
  {
    if q.items != [] then
      q.(items := q.items[1..], popped := q.popped + [q.items[0]], clients := SignalPusher(q.clients[who := Idle], pick))
    else if q.down || q.clients[who].PopExpired? then q.(clients := q.clients[who := Idle], missed := q.missed + 1)
    else q.(clients := q.clients[who := PopAsleep])
  }

  /** A turn that may notify reaches a sleeper on that condition when there is one. */
  predicate Enabled<T>(q: Queue<T>, a: Action<T>)
  {
    && a.who < |q.clients|
    && var c := q.clients[a.who];
       match a
       case CallPush(_, _) | CallPop(_) | CallShutdown(_) => c.Idle?
       case Turn(_, pick) =>
         (match c
          case WantPush(_) | PushSignalled(_) => Poppers(q.clients) ==> pick < |q.clients| && q.clients[pick].PopAsleep?
          case WantPop | PopExpired | PopSignalled => Pushers(q.clients) ==> pick < |q.clients| && q.clients[pick].PushAsleep?
          case FlagSet | PoppersWoken => true
          case _ => false)
       case TimeOut(_) => c.PopAsleep?
       case WakeSpuriously(_) => c.PopAsleep? || c.PushAsleep?
  }

  function Step<T>(q: Queue<T>, a: Action<T>): Queue<T>
  {
    if !Enabled(q, a) then q
    else
      var who, c := a.who, q.clients[a.who];
      match a
      case CallPush(_, x) => q.(clients := q.clients[who := WantPush(x)])
      case CallPop(_) => q.(clients := q.clients[who := WantPop])
      case CallShutdown(_) => q.(clients := q.clients[who := FlagSet], down := true)
      case Turn(_, pick) =>
        (match c
         case WantPush(x) => PushTurn(q, who, x, pick)
         case PushSignalled(x) => PushTurn(q, who, x, pick)
         case FlagSet => q.(clients := WakePoppers(q.clients[who := PoppersWoken]), announced := true)
         case PoppersWoken => q.(clients := WakePushers(q.clients[who := Idle]), freed := true)
         case _ => PopTurn(q, who, pick))
      case TimeOut(_) => q.(clients := q.clients[who := PopExpired])
      case WakeSpuriously(_) => q.(clients := q.clients[who := if c.PopAsleep? then WantPop else WantPush(c.item)])
  }

  // ---- The invariant ----

  ghost predicate Fifo<T>(q: Queue<T>)
  {
    q.popped + q.items == q.pushed && |q.items| <= q.capacity
  }

  ghost predicate PoppersServed<T>(cs: seq<Client<T>>, items: int)
  {
    Poppers(cs) ==> items <= Count(IsPopSignalled<T>, cs)
  }

  ghost predicate PushersServed<T>(cs: seq<Client<T>>, room: int)
  {
    Pushers(cs) ==> room <= Count(IsPushSignalled<T>, cs)
  }

  /** Before shutdown, nobody sleeps on a condition that more items, or more free places, than signalled
      clients could satisfy. */
  ghost predicate NoLostWakeup<T>(q: Queue<T>)
  {
    !q.down ==> PoppersServed(q.clients, |q.items|) && PushersServed(q.clients, q.capacity - |q.items|)
  }

  /** A shutdown that notifies has set the flag, and after its notifications the sleepers are gone. */
  predicate ClientOk<T>(c: Client<T>, down: bool, announced: bool, freed: bool)
  {
    && (c.FlagSet? ==> down) && (c.PoppersWoken? ==> announced)
    && (announced ==> !c.PopAsleep?) && (freed ==> !c.PushAsleep?)
  }

  ghost predicate ShutdownOk<T>(q: Queue<T>)
  {
    && (q.announced ==> q.down) && (q.freed ==> q.announced)
    && forall i :: 0 <= i < |q.clients| ==> ClientOk(q.clients[i], q.down, q.announced, q.freed)
  }

  predicate ShutsDown<T>(c: Client<T>) { c.FlagSet? || c.PoppersWoken? }

  /** Whoever has set the flag goes on to notify. */
  ghost predicate ShutdownGoesOn<T>(q: Queue<T>)
  {
    q.down ==> q.freed || exists c :: 0 <= c < |q.clients| && ShutsDown(q.clients[c])
  }

  ghost predicate Inv<T>(q: Queue<T>)
  {
    Fifo(q) && NoLostWakeup(q) && ShutdownOk(q) && ShutdownGoesOn(q)
  }

  lemma PushKeepsFifo<T>(q: Queue<T>, who: nat, x: T, pick: nat)
    requires Fifo(q) && who < |q.clients|
    ensures Fifo(PushTurn(q, who, x, pick))
  {}

  lemma PopKeepsFifo<T>(q: Queue<T>, who: nat, pick: nat)
    requires Fifo(q) && who < |q.clients|
    ensures Fifo(PopTurn(q, who, pick))
  {
    if q.items != [] {
      assert q.items == [q.items[0]] + q.items[1..];
    }
  }

  lemma StepKeepsFifo<T>(q: Queue<T>, a: Action<T>)
    requires Fifo(q)
    ensures Fifo(Step(q, a)) && Step(q, a).capacity == q.capacity && |Step(q, a).clients| == |q.clients|
  {
    match a
    case Turn(who, pick) => if Enabled(q, a) { TurnKeepsFifo(q, who, pick); }
    case _ =>
  }

  lemma TurnKeepsFifo<T>(q: Queue<T>, who: nat, pick: nat)
    requires Fifo(q) && Enabled(q, Turn(who, pick))
    ensures var r := Step(q, Turn(who, pick)); Fifo(r) && r.capacity == q.capacity && |r.clients| == |q.clients|
  {
    match q.clients[who]
    case WantPush(x) => PushKeepsFifo(q, who, x, pick);
    case PushSignalled(x) => PushKeepsFifo(q, who, x, pick);
    case FlagSet =>
    case PoppersWoken =>
    case _ => PopKeepsFifo(q, who, pick);
  }

  lemma ChangeCounts<T>(cs: seq<Client<T>>, who: nat, c: Client<T>)
    requires who < |cs|
    ensures Count(IsPopSignalled<T>, cs[who := c]) + (if cs[who].PopSignalled? then 1 else 0)
         == Count(IsPopSignalled<T>, cs) + if c.PopSignalled? then 1 else 0
    ensures Count(IsPushSignalled<T>, cs[who := c]) + (if cs[who].PushSignalled? then 1 else 0)
         == Count(IsPushSignalled<T>, cs) + if c.PushSignalled? then 1 else 0
  {
    CountUpdate(IsPopSignalled<T>, cs, who, c);
    CountUpdate(IsPushSignalled<T>, cs, who, c);
  }

  /** A push uses up one free place and one pusher, and signals a popper for the new item. */
  lemma PushServes<T>(cs: seq<Client<T>>, who: nat, pick: nat, items: int, room: int)
    requires who < |cs| && (cs[who].WantPush? || cs[who].PushSignalled?)
    requires PoppersServed(cs, items) && PushersServed(cs, room)
    requires Poppers(cs) ==> pick < |cs| && cs[pick].PopAsleep?
    ensures PoppersServed(SignalPopper(cs[who := Idle], pick), items + 1)
    ensures PushersServed(SignalPopper(cs[who := Idle], pick), room - 1)
  {
    var mid := cs[who := Idle];
    ChangeCounts(cs, who, Idle);
    if i :| 0 <= i < |mid| && IsPushAsleep(mid[i]) { assert IsPushAsleep(cs[i]); }
    if pick < |mid| && mid[pick].PopAsleep? {
      var after := mid[pick := PopSignalled];
      ChangeCounts(mid, pick, PopSignalled);
      assert IsPopAsleep(cs[pick]);
      if i :| 0 <= i < |after| && IsPushAsleep(after[i]) { assert IsPushAsleep(mid[i]); }
    } else if i :| 0 <= i < |mid| && IsPopAsleep(mid[i]) {
      assert IsPopAsleep(cs[i]);
    }
  }

  /** A pop uses up one item and one popper, and signals a pusher for the new place. */
  lemma PopServes<T>(cs: seq<Client<T>>, who: nat, pick: nat, items: int, room: int)
    requires who < |cs| && (cs[who].WantPop? || cs[who].PopExpired? || cs[who].PopSignalled?)
    requires PoppersServed(cs, items) && PushersServed(cs, room)
    requires Pushers(cs) ==> pick < |cs| && cs[pick].PushAsleep?
    ensures PoppersServed(SignalPusher(cs[who := Idle], pick), items - 1)
    ensures PushersServed(SignalPusher(cs[who := Idle], pick), room + 1)
  {
    var mid := cs[who := Idle];
    ChangeCounts(cs, who, Idle);
    if i :| 0 <= i < |mid| && IsPopAsleep(mid[i]) { assert IsPopAsleep(cs[i]); }
    if pick < |mid| && mid[pick].PushAsleep? {
      var after := mid[pick := PushSignalled(mid[pick].item)];
      ChangeCounts(mid, pick, after[pick]);
      assert IsPushAsleep(cs[pick]);
      if i :| 0 <= i < |after| && IsPopAsleep(after[i]) { assert IsPopAsleep(mid[i]); }
    } else if i :| 0 <= i < |mid| && IsPushAsleep(mid[i]) {
      assert IsPushAsleep(cs[i]);
    }
  }

  /** Any other move of one client: it may fall asleep only on a condition that is false. */
  lemma MoveServes<T>(cs: seq<Client<T>>, who: nat, c: Client<T>, items: int, room: int)
    requires who < |cs| && PoppersServed(cs, items) && PushersServed(cs, room)
    requires cs[who].PopSignalled? || c.PopAsleep? ==> items <= 0
    requires cs[who].PushSignalled? || c.PushAsleep? ==> room <= 0
    ensures PoppersServed(cs[who := c], items) && PushersServed(cs[who := c], room)
  {
    ChangeCounts(cs, who, c);
    var after := cs[who := c];
    if i :| 0 <= i < |cs| && IsPopAsleep(after[i]) {
      assert i != who ==> IsPopAsleep(cs[i]);
    }
    if i :| 0 <= i < |cs| && IsPushAsleep(after[i]) {
      assert i != who ==> IsPushAsleep(cs[i]);
    }
  }

  lemma StepKeepsWakeups<T>(q: Queue<T>, a: Action<T>)
    requires Fifo(q) && NoLostWakeup(q) && ShutdownOk(q)
    ensures NoLostWakeup(Step(q, a))
  {
    if Enabled(q, a) && !Step(q, a).down {
      var cs, c, items, room := q.clients, q.clients[a.who], |q.items|, q.capacity - |q.items|;
      assert ClientOk(c, q.down, q.announced, q.freed);
      if a.Turn? && (c.WantPush? || c.PushSignalled?) && room > 0 {
        PushServes(cs, a.who, a.pick, items, room);
      } else if a.Turn? && (c.WantPop? || c.PopExpired? || c.PopSignalled?) && items > 0 {
        PopServes(cs, a.who, a.pick, items, room);
      } else {
        MoveServes(cs, a.who, Step(q, a).clients[a.who], items, room);
      }
    }
  }

  lemma PushKeepsShutdown<T>(q: Queue<T>, who: nat, x: T, pick: nat)
    requires ShutdownOk(q) && who < |q.clients|
    ensures ShutdownOk(PushTurn(q, who, x, pick))
  {}

  lemma PopKeepsShutdown<T>(q: Queue<T>, who: nat, pick: nat)
    requires ShutdownOk(q) && who < |q.clients|
    ensures ShutdownOk(PopTurn(q, who, pick))
  {}

  lemma TurnKeepsShutdown<T>(q: Queue<T>, who: nat, pick: nat)
    requires ShutdownOk(q) && Enabled(q, Turn(who, pick))
    ensures ShutdownOk(Step(q, Turn(who, pick)))
  {
    match q.clients[who]
    case WantPush(x) => PushKeepsShutdown(q, who, x, pick);
    case PushSignalled(x) => PushKeepsShutdown(q, who, x, pick);
    case FlagSet =>
    case PoppersWoken =>
    case _ => PopKeepsShutdown(q, who, pick);
  }

  lemma StepKeepsShutdown<T>(q: Queue<T>, a: Action<T>)
    requires ShutdownOk(q)
    ensures ShutdownOk(Step(q, a))
  {
    match a
    case Turn(who, pick) => if Enabled(q, a) { TurnKeepsShutdown(q, who, pick); }
    case _ =>
  }

  lemma StepKeepsShutdownGoing<T>(q: Queue<T>, a: Action<T>)
    requires ShutdownGoesOn(q)
    ensures ShutdownGoesOn(Step(q, a))
  {
    if Enabled(q, a) && !Step(q, a).freed {
      var r := Step(q, a);
      if a.CallShutdown? {
        assert ShutsDown(r.clients[a.who]);
      } else if q.down {
        var c :| 0 <= c < |q.clients| && ShutsDown(q.clients[c]);
        assert ShutsDown(r.clients[c]);
      }
    }
  }

  lemma StepKeepsInv<T>(q: Queue<T>, a: Action<T>)
    requires Inv(q)
    ensures Inv(Step(q, a)) && Step(q, a).capacity == q.capacity
  {
    StepKeepsFifo(q, a);
    StepKeepsWakeups(q, a);
    StepKeepsShutdown(q, a);
    StepKeepsShutdownGoing(q, a);
  }
}

/** What every run of the queue guarantees. */
module QueueTheorems {
  import opened Runs
  import opened QueueProtocol

  function After<T>(capacity: nat, clients: nat, run: seq<Action<T>>): Queue<T>
  {
    Exec(Step<T>, Initial<T>(capacity, clients), run)
  }

  lemma InvAlways<T(!new)>(capacity: nat, clients: nat, run: seq<Action<T>>)
    ensures Inv(After(capacity, clients, run)) && After(capacity, clients, run).capacity == capacity
  {
    forall q: Queue<T>, a: Action<T> | Inv(q) && q.capacity == capacity
      ensures Inv(Step(q, a)) && Step(q, a).capacity == capacity
    {
      StepKeepsInv(q, a);
    }
    Always(Step<T>, (q: Queue<T>) => Inv(q) && q.capacity == capacity, Initial<T>(capacity, clients), run);
  }

  /** Items come out in the order in which their pushes succeeded, and the bound is respected. */
  lemma FirstInFirstOut<T(!new)>(capacity: nat, clients: nat, run: seq<Action<T>>)
    ensures var q := After(capacity, clients, run); q.popped + q.items == q.pushed && |q.items| <= capacity
  {
    InvAlways(capacity, clients, run);
  }

  /** Before shutdown, with pop timeouts and spurious wakeups, no sleeper is left behind. */
  lemma SleepersAreNotForgotten<T(!new)>(capacity: nat, clients: nat, run: seq<Action<T>>)
    ensures var q := After(capacity, clients, run);
      !q.down ==>
        && (Poppers(q.clients) ==> |q.items| <= Count(IsPopSignalled<T>, q.clients))
        && (Pushers(q.clients) ==> capacity - |q.items| <= Count(IsPushSignalled<T>, q.clients))
  {
    InvAlways(capacity, clients, run);
  }

  /** Once some shutdown has done both its notifications, nobody sleeps and nobody ever will. */
  lemma NobodySleepsAfterShutdown<T(!new)>(capacity: nat, clients: nat, run: seq<Action<T>>, more: seq<Action<T>>)
    requires After(capacity, clients, run).freed
    ensures var q := Exec(Step<T>, After(capacity, clients, run), more);
      !Poppers(q.clients) && !Pushers(q.clients)
  {
    InvAlways(capacity, clients, run);
    forall q: Queue<T>, a: Action<T> | ShutdownOk(q) && q.freed
      ensures ShutdownOk(Step(q, a)) && Step(q, a).freed
    {
      StepKeepsShutdown(q, a);
    }
    Always(Step<T>, (q: Queue<T>) => ShutdownOk(q) && q.freed, After(capacity, clients, run), more);
  }

  lemma DownStep<T>(q: Queue<T>, a: Action<T>)
    requires q.down
    ensures Step(q, a).down && Step(q, a).pushed == q.pushed && q.popped <= Step(q, a).popped
  {}

  /** After shutdown no push succeeds, and what was in the queue can only leave it in order. */
  lemma ShutdownFreezesInput<T(!new)>(capacity: nat, clients: nat, run: seq<Action<T>>, more: seq<Action<T>>)
    requires After(capacity, clients, run).down
    ensures var p, q := After(capacity, clients, run), Exec(Step<T>, After(capacity, clients, run), more);
      q.down && q.pushed == p.pushed && p.popped <= q.popped && q.popped + q.items == p.popped + p.items
  {
    var p := After(capacity, clients, run);
    InvAlways(capacity, clients, run);
    InvAlways(capacity, clients, run + more);
    ExecConcat(Step<T>, Initial<T>(capacity, clients), run, more);
    forall q: Queue<T>, a: Action<T> | q.down && q.pushed == p.pushed && p.popped <= q.popped
      ensures Step(q, a).down && Step(q, a).pushed == p.pushed && p.popped <= Step(q, a).popped
    {
      DownStep(q, a);
    }
    Always(Step<T>, (q: Queue<T>) => q.down && q.pushed == p.pushed && p.popped <= q.popped, p, more);
  }

  // ---- After shutdown every pending call returns ----

  /** The turns and wakeups a client may still need before it is idle. */
  function Weight<T>(c: Client<T>): nat
  {
    match c
    case Idle => 0
    case PushAsleep(_) | PopAsleep | FlagSet => 2
    case _ => 1
  }

  function Effort<T>(q: Queue<T>): nat
  {
    Sum(Weight<T>, q.clients)
  }

  predicate IsCall<T>(a: Action<T>) { a.CallPush? || a.CallPop? || a.CallShutdown? }

  lemma WakingCostsNothing<T>(cs: seq<Client<T>>, pick: nat)
    ensures Sum(Weight<T>, WakePoppers(cs)) <= Sum(Weight<T>, cs)
    ensures Sum(Weight<T>, WakePushers(cs)) <= Sum(Weight<T>, cs)
    ensures Sum(Weight<T>, SignalPusher(cs, pick)) <= Sum(Weight<T>, cs)
  {
    SumIsMonotone(Weight<T>, WakePoppers(cs), cs);
    SumIsMonotone(Weight<T>, WakePushers(cs), cs);
    SumIsMonotone(Weight<T>, SignalPusher(cs, pick), cs);
  }

  lemma PushTurnReturns<T>(q: Queue<T>, who: nat, x: T, pick: nat)
    requires q.down && who < |q.clients| && Weight(q.clients[who]) == 1
    ensures Sum(Weight<T>, PushTurn(q, who, x, pick).clients) < Effort(q)
    ensures PushTurn(q, who, x, pick).clients[who].Idle?
  {
    SumUpdate(Weight<T>, q.clients, who, Idle);
  }

  lemma PopTurnReturns<T>(q: Queue<T>, who: nat, pick: nat)
    requires q.down && who < |q.clients| && Weight(q.clients[who]) == 1
    ensures Sum(Weight<T>, PopTurn(q, who, pick).clients) < Effort(q)
    ensures PopTurn(q, who, pick).clients[who].Idle?
  {
    SumUpdate(Weight<T>, q.clients, who, Idle);
    WakingCostsNothing(q.clients[who := Idle], pick);
  }

  lemma ShutdownTurnSpends<T>(q: Queue<T>, who: nat, c: Client<T>)
    requires who < |q.clients| && Weight(c) < Weight(q.clients[who])
    ensures Sum(Weight<T>, WakePoppers(q.clients[who := c])) < Effort(q)
    ensures Sum(Weight<T>, WakePushers(q.clients[who := c])) < Effort(q)
  {
    SumUpdate(Weight<T>, q.clients, who, c);
    WakingCostsNothing(q.clients[who := c], 0);
  }

  lemma TurnSpendsEffort<T>(q: Queue<T>, who: nat, pick: nat)
    requires q.down && Enabled(q, Turn(who, pick))
    ensures Effort(Step(q, Turn(who, pick))) < Effort(q)
    ensures !q.clients[who].FlagSet? ==> Step(q, Turn(who, pick)).clients[who].Idle?
  {
    match q.clients[who]
    case WantPush(x) => PushTurnReturns(q, who, x, pick);
    case PushSignalled(x) => PushTurnReturns(q, who, x, pick);
    case FlagSet => ShutdownTurnSpends(q, who, PoppersWoken);
    case PoppersWoken => ShutdownTurnSpends(q, who, Idle);
    case _ => PopTurnReturns(q, who, pick);
  }

  /** After the flag is set every step but a new call brings the pending calls nearer to their return, and
      a pending push or pop returns at its very next turn. */
  lemma EveryStepSpendsEffort<T>(q: Queue<T>, a: Action<T>)
    requires q.down && Enabled(q, a) && !IsCall(a)
    ensures Step(q, a).down && Effort(Step(q, a)) < Effort(q)
  {
    if a.Turn? {
      TurnSpendsEffort(q, a.who, a.pick);
    } else {
      SumUpdate(Weight<T>, q.clients, a.who, Step(q, a).clients[a.who]);
    }
  }

  predicate NoStutter<T>(q: Queue<T>, run: seq<Action<T>>)
  {
    run != [] ==>
      && NoStutter(q, run[..|run| - 1])
      && Enabled(Exec(Step<T>, q, run[..|run| - 1]), run[|run| - 1])
      && !IsCall(run[|run| - 1])
  }

  /** Without new calls, the steps after the flag is set are bounded, whatever the schedule. */
  lemma {:induction false} ShutdownIsBounded<T>(q: Queue<T>, run: seq<Action<T>>)
    requires q.down && NoStutter(q, run)
    ensures Exec(Step<T>, q, run).down && |run| + Effort(Exec(Step<T>, q, run)) <= Effort(q)
  {
    if run != [] {
      ShutdownIsBounded(q, run[..|run| - 1]);
      EveryStepSpendsEffort(Exec(Step<T>, q, run[..|run| - 1]), run[|run| - 1]);
    }
  }

  lemma SomeoneToNotify<T>(cs: seq<Client<T>>) returns (popper: nat, pusher: nat)
    ensures Poppers(cs) ==> popper < |cs| && cs[popper].PopAsleep?
    ensures Pushers(cs) ==> pusher < |cs| && cs[pusher].PushAsleep?
  {
    popper, pusher := 0, 0;
    if c :| 0 <= c < |cs| && IsPopAsleep(cs[c]) { popper := c; }
    if c :| 0 <= c < |cs| && IsPushAsleep(cs[c]) { pusher := c; }
  }

  /** As long as a call is pending after shutdown, some client can take a turn: no timeout or spurious
      wakeup is needed. */
  lemma ShutdownNeverSticks<T(!new)>(capacity: nat, clients: nat, run: seq<Action<T>>, who: nat) returns (a: Action<T>)
    requires After(capacity, clients, run).down
    requires who < |After(capacity, clients, run).clients| && !After(capacity, clients, run).clients[who].Idle?
    ensures a.Turn? && Enabled(After(capacity, clients, run), a)
  {
    InvAlways(capacity, clients, run);
    var q := After(capacity, clients, run);
    var popper, pusher := SomeoneToNotify(q.clients);
    var next := who;
    if q.clients[who].PushAsleep? || q.clients[who].PopAsleep? {
      assert IsPushAsleep(q.clients[who]) || IsPopAsleep(q.clients[who]);
      var c :| 0 <= c < |q.clients| && ShutsDown(q.clients[c]);
      next := c;
    }
    a := Turn(next, if q.clients[next].WantPush? || q.clients[next].PushSignalled? then popper else pusher);
  }
}

/** The queue object: its fields are updated in place, one method for each critical section.  Its waiting
    clients are the threads blocked on one of the two conditions or about to take the lock. */
module QueueObject {
  import opened QueueProtocol
  import opened QueueTheorems

  /** What a turn under the lock tells its caller. */
  datatype Outcome<T> = MustWait | Refused | Done(item: T)

  /** A turn of the protocol, which signals some sleeper that it may signal. */
  ghost predicate IsTurn<T>(q: Queue<T>, who: nat, r: Queue<T>)
  {
    exists pick :: Enabled(q, Turn(who, pick)) && r == Step(q, Turn(who, pick))
  }

  lemma PushTurnIsTurn<T>(q: Queue<T>, who: nat, pick: nat)
    requires Inv(q) && who < |q.clients| && (q.clients[who].WantPush? || q.clients[who].PushSignalled?)
    requires Poppers(q.clients) ==> pick < |q.clients| && q.clients[pick].PopAsleep?
    ensures var r := QueueProtocol.PushTurn(q, who, q.clients[who].item, pick); IsTurn(q, who, r) && Inv(r)
  {
    StepKeepsInv(q, Turn(who, pick));
    assert Enabled(q, Turn(who, pick));
  }

  lemma PopTurnIsTurn<T>(q: Queue<T>, who: nat, pick: nat)
    requires Inv(q) && who < |q.clients| && (q.clients[who].WantPop? || q.clients[who].PopExpired? || q.clients[who].PopSignalled?)
    requires Pushers(q.clients) ==> pick < |q.clients| && q.clients[pick].PushAsleep?
    ensures var r := QueueProtocol.PopTurn(q, who, pick); IsTurn(q, who, r) && Inv(r)
  {
    StepKeepsInv(q, Turn(who, pick));
    assert Enabled(q, Turn(who, pick));
  }

  /** What a turn of `pop` does to the contents and to its own client. */
  lemma PopTurnTakes<T>(q: Queue<T>, who: nat, pick: nat)
    requires who < |q.clients| && !q.clients[who].PushAsleep?
    ensures var r, waits := QueueProtocol.PopTurn(q, who, pick), q.items == [] && !q.down && !q.clients[who].PopExpired?;
      && q.items == (if q.items != [] then [q.items[0]] else []) + r.items
      && |r.clients| == |q.clients| && r.clients[who] == if waits then PopAsleep else Idle
  {
  }

  class BlockingQueue<T> {
    const maxSize: nat
    var items: seq<T>
    var down: bool
    var clients: seq<Client<T>>
    ghost var pushed: seq<T>
    ghost var refused: seq<T>
    ghost var popped: seq<T>
    ghost var missed: nat
    ghost var announced: bool
    ghost var freed: bool

    ghost function View(): Queue<T>
      reads this
    {
      Queue(items, maxSize, down, clients, pushed, refused, popped, missed, announced, freed)
    }

    ghost predicate Valid()
      reads this
    {
      Inv(View())
    }

    constructor (users: nat, maxSize: nat := 128)
      ensures Valid() && View() == Initial(maxSize, users)
    {
      this.maxSize := maxSize;
      items, down, clients := [], false, seq(users, i => Idle);
      pushed, refused, popped, missed, announced, freed := [], [], [], 0, false, false;
    }

    method BeginPush(who: nat, item: T)
      requires Valid() && who < |clients| && clients[who].Idle?
      modifies this
      ensures Valid() && View() == Step(old(View()), CallPush(who, item))
      ensures items == old(items) && down == old(down) && |clients| == old(|clients|) && clients[who] == WantPush(item)
    {
      StepKeepsInv(View(), CallPush(who, item));
      clients := clients[who := WantPush(item)];
    }

    method BeginPop(who: nat)
      requires Valid() && who < |clients| && clients[who].Idle?
      modifies this
      ensures Valid() && View() == Step(old(View()), CallPop(who))
      ensures items == old(items) && down == old(down) && |clients| == old(|clients|) && clients[who] == WantPop
    {
      StepKeepsInv(View(), CallPop(who));
      clients := clients[who := WantPop];
    }

    method SleepingPopper() returns (c: nat)
      ensures Poppers(clients) ==> c < |clients| && clients[c].PopAsleep?
    {
      c := 0;
      if d :| 0 <= d < |clients| && IsPopAsleep(clients[d]) { c := d; }
    }

    method SleepingPusher() returns (c: nat)
      ensures Pushers(clients) ==> c < |clients| && clients[c].PushAsleep?
    {
      c := 0;
      if d :| 0 <= d < |clients| && IsPushAsleep(clients[d]) { c := d; }
    }

    /** A push that finds room or a shutdown; otherwise it has to wait.  A push that succeeds wakes some
        sleeping popper if there is one. */
    method PushTurn(who: nat) returns (r: Outcome<T>)
      requires Valid() && who < |clients| && (clients[who].WantPush? || clients[who].PushSignalled?)
      modifies this
      ensures Valid()
      ensures IsTurn(old(View()), who, View())
      ensures r == if down then Refused else if |old(items)| < maxSize then Done(old(clients[who].item)) else MustWait
      ensures items == old(items) + if r.Done? then [r.item] else []
      ensures down == old(down) && |clients| == old(|clients|)
      ensures clients[who] == if r.MustWait? then PushAsleep(old(clients[who].item)) else Idle
    {
      var popper := SleepingPopper();
      PushTurnIsTurn(View(), who, popper);
      var item := clients[who].item;
      if |items| >= maxSize && !down {
        clients := clients[who := PushAsleep(item)];
        return MustWait;
      }
      clients := clients[who := Idle];
      if down {
        refused := refused + [item];
        return Refused;
      }
      items := items + [item];
      pushed := pushed + [item];
      clients := SignalPopper(clients, popper);
      return Done(item);
    }

    /** A pop that finds an item or a shutdown; otherwise it has to wait, until its time has expired.  A pop
        that succeeds wakes some sleeping pusher if there is one. */
    method PopTurn(who: nat) returns (r: Outcome<T>)
      requires Valid() && who < |clients| && (clients[who].WantPop? || clients[who].PopExpired? || clients[who].PopSignalled?)
      modifies this
      ensures Valid()
      ensures IsTurn(old(View()), who, View())
      ensures r == if old(items) != [] then Done(old(items[0])) else if down || old(clients[who].PopExpired?) then Refused else MustWait
      ensures old(items) == (if r.Done? then [r.item] else []) + items
      ensures down == old(down) && |clients| == old(|clients|)
      ensures clients[who] == if r.MustWait? then PopAsleep else Idle
    {
      var pusher := SleepingPusher();
      PopTurnIsTurn(View(), who, pusher);
      PopTurnTakes(View(), who, pusher);
      r := AnswerPop(who, pusher);
    }

    /** The section of `pop` under the lock; `pusher` is the sleeper its notification reaches. */
    method AnswerPop(who: nat, pusher: nat) returns (r: Outcome<T>)
      requires who < |clients|
      modifies this
      ensures View() == QueueProtocol.PopTurn(old(View()), who, pusher)
      ensures r == if old(items) != [] then Done(old(items[0])) else if down || old(clients[who].PopExpired?) then Refused else MustWait
    {
      if items == [] && !down && !clients[who].PopExpired? {
        clients := clients[who := PopAsleep];
        return MustWait;
      }
      clients := clients[who := Idle];
      if items == [] {
        missed := missed + 1;
        return Refused;
      }
      r := Done(items[0]);
      items, popped := items[1..], popped + [r.item];
      clients := SignalPusher(clients, pusher);
    }

    /** `push` up to its return or its first wait: the caller's item is stored last, or it waits with the
        caller, or it is refused. */
    method Push(who: nat, item: T) returns (r: Outcome<T>)
      requires Valid() && who < |clients| && clients[who].Idle?
      modifies this
      ensures Valid()
      ensures r == if old(down) then Refused else if |old(items)| < maxSize then Done(item) else MustWait
      ensures items == old(items) + if r.Done? then [item] else []
      ensures down == old(down) && |clients| == old(|clients|)
      ensures clients[who] == if r.MustWait? then PushAsleep(item) else Idle
    {
      BeginPush(who, item);
      r := PushTurn(who);
    }

    /** `pop` up to its return or its first wait. */
    method Pop(who: nat) returns (r: Outcome<T>)
      requires Valid() && who < |clients| && clients[who].Idle?
      modifies this
      ensures Valid() && down == old(down) && |clients| == old(|clients|)
      ensures r == if old(items) != [] then Done(old(items[0])) else if down then Refused else MustWait
      ensures old(items) == (if r.Done? then [r.item] else []) + items
      ensures popped == old(popped) + if r.Done? then [r.item] else []
      ensures clients[who] == if r.MustWait? then PopAsleep else Idle
    {
      BeginPop(who);
      r := PopTurn(who);
    }

    /** The three parts of `shutdown`: the flag, and a notification on each condition. */
    method RaiseFlag(who: nat)
      requires Valid() && who < |clients| && clients[who].Idle?
      modifies this
      ensures Valid() && View() == Step(old(View()), CallShutdown(who))
    {
      StepKeepsInv(View(), CallShutdown(who));
      down, clients := true, clients[who := FlagSet];
    }

    method NotifyPoppers(who: nat)
      requires Valid() && who < |clients| && clients[who].FlagSet?
      modifies this
      ensures Valid() && View() == Step(old(View()), Turn(who, 0)) && clients[who].PoppersWoken?
    {
      StepKeepsInv(View(), Turn(who, 0));
      clients, announced := WakePoppers(clients[who := PoppersWoken]), true;
    }

    method NotifyPushers(who: nat)
      requires Valid() && who < |clients| && clients[who].PoppersWoken?
      modifies this
      ensures Valid() && View() == Step(old(View()), Turn(who, 0)) && freed
    {
      StepKeepsInv(View(), Turn(who, 0));
      clients, freed := WakePushers(clients[who := Idle]), true;
    }

    method Shutdown(who: nat)
      requires Valid() && who < |clients| && clients[who].Idle?
      modifies this
      ensures Valid() && down && !Poppers(clients) && !Pushers(clients) && items == old(items)
    {
      RaiseFlag(who);
      NotifyPoppers(who);
      NotifyPushers(who);
      assert forall i :: 0 <= i < |clients| ==> ClientOk(clients[i], down, announced, freed);
    }

    /** After shutdown, popping until refused hands out everything that was left, in order. */
    method Drain(who: nat) returns (out: seq<T>)
      requires Valid() && down && who < |clients| && clients[who].Idle?
      modifies this
      ensures Valid() && out == old(items) && items == [] && popped == old(popped) + out
    {
      out := [];
      var r := Pop(who);
      while r.Done?
        invariant Valid() && down && who < |clients| && clients[who].Idle?
        invariant out + (if r.Done? then [r.item] else []) + items == old(items)
        invariant popped == old(popped) + out + if r.Done? then [r.item] else []
        invariant r.Done? || (r.Refused? && items == [])
        decreases |items|, r.Done?
      {
        out := out + [r.item];
        r := Pop(who);
      }
    }
  }
}
