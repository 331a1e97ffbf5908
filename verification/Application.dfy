/** The consumer task of the application object (app/src/Application.cpp): it moves published operations
    from the channel into the pool it runs in. */
module ApplicationObject {
  import opened Runs
  import opened PoolProtocol
  import opened Pipeline
  import opened ThreadPoolObject

  /** How one `consume` ends; the connection-closed path is not part of this model. */
  datatype Consumed = Message | TimedOut | Fatal

  class Application {
    const pool: ThreadPool<Task>
    var channel: seq<nat>

    constructor (pool: ThreadPool<Task>)
      ensures this.pool == pool && channel == []
    {
      this.pool, channel := pool, [];
    }

    /** `processDbOperateEvent`; `false` is the exception of a stopped pool. */
    method ProcessNext() returns (ok: bool)
      requires pool.Valid() && channel != []
      modifies this, pool
      ensures pool.Valid() && pool.stop == old(pool.stop) && ok == !pool.stop
      ensures ok ==> pool.accepted == old(pool.accepted) + [DbOperation(old(channel[0]))] && channel == old(channel)[1..]
      ensures !ok ==> pool.accepted == old(pool.accepted) && channel == old(channel)
      ensures Numbers(pool.accepted) + channel == Numbers(old(pool.accepted)) + old(channel)
    {
      ghost var before, all, k := pool.accepted, channel, channel[0];
      ok := pool.Enqueue(DbOperation(channel[0]));
      if ok {
        channel := channel[1..];
        NumbersConcat(before, [DbOperation(k)]);
        assert [DbOperation(k)][..0] == [];
        assert all == [k] + channel;
      } else {
        assert pool.accepted == before;
      }
    }

    /** The consumer's loop over one `consume` after another, until a fatal error or the exit flag ends it.
        Operations enter the pool in channel order, none is lost or doubled on the way, and on a running
        pool one is moved for every message before the first fatal error. */
    method RunConsumer(polls: seq<Consumed>) returns (moved: nat)
      requires pool.Valid()
      modifies this, pool
      ensures pool.Valid() && moved <= |old(channel)| && channel == old(channel)[moved..]
      ensures Numbers(pool.accepted) + channel == Numbers(old(pool.accepted)) + old(channel)
      ensures pool.stop == old(pool.stop)
      ensures moved == if pool.stop then 0 else Smaller(Messages(polls), |old(channel)|)
    {
      moved := 0;
      ghost var seen: nat := 0;
      for i := 0 to |polls|
        invariant pool.Valid() && pool.stop == old(pool.stop)
        invariant moved <= |old(channel)| && channel == old(channel)[moved..]
        invariant Numbers(pool.accepted) + channel == Numbers(old(pool.accepted)) + old(channel)
        invariant Messages(polls) == seen + Messages(polls[i..])
        invariant moved == if pool.stop then 0 else Smaller(seen, |old(channel)|)
      {
        if polls[i].Fatal? {
          return;
        }
        if polls[i].Message? && channel != [] {
          var ok := ProcessNext();
          if !ok {
            return;
          }
          moved := moved + 1;
        }
        seen := seen + if polls[i].Message? then 1 else 0;
        assert polls[i..][1..] == polls[i + 1..];
      }
    }
  }

  /** The messages before the first fatal error. */
  function Messages(polls: seq<Consumed>): nat
  {
    if polls == [] || polls[0].Fatal? then 0
    else (if polls[0].Message? then 1 else 0) + Messages(polls[1..])
  }

  predicate IsMessage(c: Consumed) { c.Message? }

  /** Every message before the first fatal error counts, and nothing else does. */
  lemma {:induction false} MessagesBeforeFatal(polls: seq<Consumed>, n: nat)
    requires n <= |polls| && forall i :: 0 <= i < n ==> !polls[i].Fatal?
    requires n < |polls| ==> polls[n].Fatal?
    ensures Messages(polls) == Count(IsMessage, polls[..n])
  {
    if n > 0 {
      MessagesBeforeFatal(polls[1..], n - 1);
      CountFromFront(polls[..n]);
      assert polls[..n][1..] == polls[1..][..n - 1];
    }
  }

  lemma {:induction false} CountFromFront(polls: seq<Consumed>)
    requires polls != []
    ensures Count(IsMessage, polls) == (if polls[0].Message? then 1 else 0) + Count(IsMessage, polls[1..])
  {
    var front, last := polls[..|polls| - 1], |polls| - 1;
    if last > 0 {
      CountFromFront(front);
      assert front[1..] == polls[1..][..last - 1];
    }
  }

  /** A timeout changes nothing, wherever it occurs. */
  lemma {:induction false} TimeoutsDoNotCount(before: seq<Consumed>, after: seq<Consumed>)
    ensures Messages(before + [TimedOut] + after) == Messages(before + after)
  {
    if before == [] {
      assert ([] + [TimedOut] + after)[1..] == after && [] + after == after;
    } else {
      TimeoutsDoNotCount(before[1..], after);
      assert (before + [TimedOut] + after)[1..] == before[1..] + [TimedOut] + after;
      assert (before + after)[1..] == before[1..] + after;
    }
  }

  function Smaller(a: nat, b: nat): nat { if a < b then a else b }
}
