/** The loop that watches a judged process (judge/src/actuators/Actuator.cpp, `monitorChild`).

    System calls are methods of `Sandbox` with nondeterministic outcomes; before each of them the child
    may act.  The child and its descendants act finitely often, and time passes between two readings of
    the clock. */
module Supervisor {
  newtype byte = x: int | 0 <= x < 256

  datatype ExitStatus = Exit(code: int) | Signal(number: int)

  /** One output pipe: all bytes written, those handed to the reader, those still inside, and whether its
      writers are gone. */
  datatype Pipe = Pipe(written: seq<byte>, delivered: seq<byte>, unread: seq<byte>, closed: bool)
  {
    predicate Valid() { delivered + unread == written }
    predicate Exhausted() { closed && unread == [] }

    function Take(n: nat): (p: Pipe)
      requires n <= |unread|
      ensures Valid() ==> p.Valid()
    {
      assert unread[..n] + unread[n..] == unread;
      this.(delivered := delivered + unread[..n], unread := unread[n..])
    }
  }

  /** What writers can do to a pipe. */
  predicate Grows(p: Pipe, q: Pipe)
  {
    && p.written <= q.written && q.delivered == p.delivered
    && (p.closed ==> q == p)
  }

  datatype Channel = Out | Err
  datatype ReadResult = Bytes(n: nat) | EndOfFile | TryAgain | Broken
  datatype WaitResult = Running | Reaped(status: ExitStatus) | NoSuchChild | WaitFailed
  /** Whether an exception has been thrown while captured output was appended. */
  datatype Failure = NoFailure | BeforeWait | AfterWait
  datatype PollResult = Interrupted | PollFailed | Ready(out: bool, err: bool)

  /** The pipes that a `poll` has found ready. */
  function Found(r: PollResult): set<Channel>
  {
    if !r.Ready? then {} else (if r.out then {Out} else {}) + if r.err then {Err} else {}
  }

  function Other(c: Channel): Channel { if c.Out? then Err else Out }

  const BUFFER_SIZE := 4096
  const NS_PER_MS := 1_000_000

  /** The conversion of a 64-bit count to a 32-bit `int`, which keeps the low 32 bits. */
  function ToInt32(x: int): (r: int)
    ensures -0x8000_0000 <= r < 0x8000_0000 && (r - x) % 0x1_0000_0000 == 0
    ensures -0x8000_0000 <= x < 0x8000_0000 ==> r == x
  {
    (x + 0x8000_0000) % 0x1_0000_0000 - 0x8000_0000
  }

  function Max(a: int, b: int): int { if a < b then b else a }
  function Min(a: int, b: int): int { if b < a then b else a }

  /** How long to poll, in milliseconds, with `remaining` nanoseconds left. */
  function PollTimeout(remaining: int): int
    requires remaining > 0
  {
    Max(10, Min(100, ToInt32(remaining / NS_PER_MS)))
  }

  /** A poll never outlasts the deadline by 10 ms, wrapped remaining times included. */
  lemma PollStaysNearDeadline(remaining: int)
    requires remaining > 0
    ensures 10 <= PollTimeout(remaining) <= 100
    ensures PollTimeout(remaining) * NS_PER_MS < remaining + 10 * NS_PER_MS
    ensures PollTimeout(remaining) > 10 ==> PollTimeout(remaining) * NS_PER_MS <= remaining
    ensures 100 * NS_PER_MS <= remaining < 0x8000_0000 * NS_PER_MS ==> PollTimeout(remaining) == 100
    ensures 10 * NS_PER_MS <= remaining < 100 * NS_PER_MS ==>
      0 <= remaining - PollTimeout(remaining) * NS_PER_MS < NS_PER_MS
  {
    var ms := remaining / NS_PER_MS;
    if ms >= 0x8000_0000 {
      assert remaining > 100 * NS_PER_MS;
    }
  }

  /** With a silent child only `poll` takes time: the timeout is noticed less than 10 ms late and within
      one poll for every started 10 ms of the time limit. */
  method WatchIdleChild(start: int, deadline: int) returns (now: int, polls: nat)
    ensures now >= deadline && polls <= (Max(0, deadline - start) + 10 * NS_PER_MS - 1) / (10 * NS_PER_MS)
    ensures start < deadline ==> now < deadline + 10 * NS_PER_MS
    ensures start >= deadline ==> now == start
  {
    now, polls := start, 0;
    while now < deadline
      invariant now >= start + polls * (10 * NS_PER_MS)
      invariant start < deadline ==> now < deadline + 10 * NS_PER_MS
      invariant start >= deadline ==> now == start && polls == 0
      invariant polls > 0 ==> start + (polls - 1) * (10 * NS_PER_MS) < deadline
      decreases deadline - now
    {
      PollStaysNearDeadline(deadline - now);
      now := now + PollTimeout(deadline - now) * NS_PER_MS;
      polls := polls + 1;
    }
  }

  class Sandbox {
    var out: Pipe
    var err: Pipe
    /** How the process ended, once it has. */
    var ended: bool
    var final: ExitStatus
    /** Its exit was observed by `waitpid`, or a blocking `waitpid` has returned. */
    var awaited: bool
    /** `waitpid` has answered that there is no such child. */
    var lost: bool
    var killed: bool
    var failure: Failure
    var lastRead: ReadResult
    /** A `poll` has failed other than by an interruption. */
    var pollFailed: bool
    /** The pipes on which a read has failed other than by finding nothing. */
    var broken: set<Channel>
    /** The pipes that the last `poll` found ready and that have not been read since. */
    var due: set<Channel>
    /** How often a `poll` has come back in order, and how often the process has been looked at. */
    var polls: nat
    var looks: nat
    var now: int
    var acts: nat

    ghost predicate Valid()
      reads this
    {
      out.Valid() && err.Valid()
    }

    /** Nothing has been read from the child, and nobody has waited for it. */
    ghost predicate Fresh()
      reads this
    {
      Valid() && !awaited && !lost && !killed && failure.NoFailure? && !pollFailed && due == {} && polls == looks == 0 && out.delivered == err.delivered == []
    }

    function At(c: Channel): Pipe
      reads this
    {
      if c.Out? then out else err
    }

    /** Nothing more can be read from the pipe, or reading it has failed. */
    predicate IsDone(c: Channel)
      reads this
    {
      At(c).Exhausted() || c in broken
    }

    constructor ()
      ensures Fresh()
    {
      out, err := Pipe([], [], [], false), Pipe([], [], [], false);
      final, ended, awaited, lost, killed, now := Exit(0), false, false, false, false, 0;
      failure, lastRead := NoFailure, TryAgain;
      pollFailed, broken, due, polls, looks := false, {}, {}, 0, 0;
      acts := *;
    }

    /** The child writes, closes a pipe, or ends, any number of times. */
    method ChildActs()
      requires Valid()
      modifies `out, `err, `ended, `final, `acts
      ensures Valid() && Grows(old(out), out) && Grows(old(err), err)
      ensures acts <= old(acts)
      ensures old(ended) ==> ended && final == old(final)
      ensures acts == old(acts) ==> out == old(out) && err == old(err)
    {
      var again: bool := *;
      while again && acts > 0
        invariant Valid() && Grows(old(out), out) && Grows(old(err), err)
        invariant acts <= old(acts)
        invariant old(ended) ==> ended && final == old(final)
        invariant acts == old(acts) ==> out == old(out) && err == old(err)
      {
        acts := acts - 1;
        again := *;
        var bytes: seq<byte>, closing: bool := *, *;
        if {
          case !out.closed => out := Pipe(out.written + bytes, out.delivered, out.unread + bytes, closing);
          case !err.closed => err := Pipe(err.written + bytes, err.delivered, err.unread + bytes, closing);
          case !ended => ended := true; final := *;
          case true =>
        }
      }
    }

    method ReadClock() returns (t: int)
      modifies `now
      ensures t == now > old(now)
    {
      var passed :| passed >= 0;
      now := now + passed + 1;
      t := now;
    }

    method Poll(timeout: int) returns (r: PollResult)
      requires Valid() && timeout > 0
      modifies `out, `err, `ended, `final, `acts, `now, `pollFailed, `due, `polls
      ensures Valid() && Grows(old(out), out) && Grows(old(err), err) && now >= old(now)
      ensures pollFailed <==> old(pollFailed) || r.PollFailed?
      ensures polls == old(polls) + if r.Ready? then 1 else 0
      ensures due == old(due) + Found(r)
      ensures forall c :: old(IsDone(c)) ==> IsDone(c)
    {
      var passed :| passed >= 0;
      now := now + passed;
      ChildActs();
      r := *;
      pollFailed := pollFailed || r.PollFailed?;
      due, polls := due + Found(r), polls + if r.Ready? then 1 else 0;
    }

    /** A short read: some of what the pipe holds. */
    static method CopyOut(p: Pipe, buffer: array<byte>) returns (n: nat)
      requires p.unread != [] && buffer.Length > 0
      modifies buffer
      ensures 0 < n <= |p.unread| && n <= buffer.Length && buffer[..n] == p.unread[..n]
    {
      n :| 0 < n <= |p.unread| && n <= buffer.Length;
      forall i | 0 <= i < n { buffer[i] := p.unread[i]; }
    }

    /** `read` into the buffer: at most what the pipe holds and the buffer takes.  Only when every writer
        is gone does it report the end; an empty pipe whose writers have nothing left to do is closed. */
    method Read(c: Channel, buffer: array<byte>) returns (r: ReadResult)
      requires Valid() && buffer.Length > 0
      modifies buffer, `out, `err, `ended, `final, `acts, `lastRead, `broken, `due
      ensures Valid() && r == lastRead
      ensures r.Bytes? ==> 0 < r.n <= buffer.Length
      ensures At(c).delivered == old(At(c).delivered) + if r.Bytes? then buffer[..r.n] else []
      ensures Grows(old(At(Other(c))), At(Other(c)))
      ensures r.EndOfFile? ==> At(c).Exhausted()
      ensures broken == old(broken) + if r.Broken? then {c} else {}
      ensures due == old(due) - {c}
      ensures old(At(c).Exhausted()) ==> At(c) == old(At(c))
      ensures old(ended) ==> ended && final == old(final)
      ensures acts <= old(acts)
      ensures r.TryAgain? ==> acts < old(acts)
      ensures r.Bytes? && acts == old(acts) ==> |At(c).unread| < old(|At(c).unread|)
    {
      ChildActs();
      var p := At(c);
      lastRead, due := Broken, due - {c};
      if * {
        broken := broken + {c};
        return lastRead;
      }
      if p.unread != [] {
        var n := CopyOut(p, buffer);
        r, p := Bytes(n), p.Take(n);
      } else if p.closed || acts == 0 {
        r, p := EndOfFile, p.(closed := true);
      } else {
        r, acts := TryAgain, acts - 1;
      }
      lastRead := r;
      if c.Out? { out := p; } else { err := p; }
    }

    /** Append to a captured string, which throws when it cannot grow. */
    method Append(data: seq<byte>, bytes: seq<byte>) returns (data': seq<byte>, threw: bool)
      requires failure.NoFailure?
      modifies `failure
      ensures data' == if threw then data else data + bytes
      ensures failure == if !threw then NoFailure else if awaited then AfterWait else BeforeWait
    {
      threw := *;
      if threw {
        failure := if awaited then AfterWait else BeforeWait;
        return data, true;
      }
      data' := data + bytes;
    }

    /** `waitpid` with WNOHANG. */
    method WaitNoHang() returns (w: WaitResult)
      requires Valid()
      modifies `out, `err, `ended, `final, `acts, `awaited, `lost, `looks
      ensures Valid() && Grows(old(out), out) && Grows(old(err), err)
      ensures looks == old(looks) + 1
      ensures forall c :: old(IsDone(c)) ==> IsDone(c)
      ensures lost <==> old(lost) || w.NoSuchChild?
      ensures w.Reaped? ==> ended && w.status == final
      ensures awaited <==> old(awaited) || w.Reaped? || w.NoSuchChild?
    {
      ChildActs();
      if {
        case ended => w := Reaped(final);
        case !ended => w := Running;
        case true => w := NoSuchChild;
        case true => w := WaitFailed;
      }
      looks := looks + 1;
      awaited := awaited || w.Reaped? || w.NoSuchChild?;
      lost := lost || w.NoSuchChild?;
    }

    /** A blocking `waitpid` on a child that has not been reaped before. */
    method WaitBlocking() returns (status: ExitStatus)
      requires Valid() && !awaited
      modifies `out, `err, `ended, `final, `acts, `awaited
      ensures Valid() && Grows(old(out), out) && Grows(old(err), err)
      ensures awaited && ended && status == final
    {
      ChildActs();
      if !ended {
        ended := true; final := *;
      }
      awaited := true;
      return final;
    }

    method Kill()
      modifies `killed
      ensures killed
    {
      killed := true;
    }
  }

  /** Append what is ready on one pipe, which goes on being polled unless it has ended or failed. */
  method ReadReady(box: Sandbox, c: Channel, buffer: array<byte>, data: seq<byte>)
    returns (data': seq<byte>, open: bool, threw: bool)
    requires box.Valid() && buffer.Length == BUFFER_SIZE && data == box.At(c).delivered && box.failure.NoFailure?
    modifies buffer, box`out, box`err, box`ended, box`final, box`acts, box`lastRead, box`broken, box`due, box`failure
    ensures box.Valid() && (!threw ==> data' == box.At(c).delivered && box.failure.NoFailure?)
    ensures threw ==> box.failure == if box.awaited then AfterWait else BeforeWait
    ensures open <==> box.lastRead.Bytes? || box.lastRead.TryAgain?
    ensures !open ==> box.IsDone(c)
    ensures box.due == old(box.due) - {c}
    ensures old(box.IsDone(Other(c))) ==> box.IsDone(Other(c))
    ensures box.At(Other(c)).delivered == old(box.At(Other(c)).delivered)
  {
    data', open, threw := data, true, false;
    var r := box.Read(c, buffer);
    match r
    case Bytes(n) => data', threw := box.Append(data, buffer[..n]);
    case EndOfFile => open := false;
    case TryAgain =>
    case Broken => open := false;
  }

  /** How a drain loop ends. */
  datatype Drained = AtEnd | Failed | Threw

  /** A drain loop: read until the end of the pipe, an error, or an exception. */
  method Drain(box: Sandbox, c: Channel, buffer: array<byte>, data: seq<byte>) returns (data': seq<byte>, end: Drained)
    requires box.Valid() && buffer.Length == BUFFER_SIZE && data == box.At(c).delivered && box.failure.NoFailure?
    modifies buffer, box`out, box`err, box`ended, box`final, box`acts, box`lastRead, box`broken, box`due, box`failure
    ensures box.Valid() && (!end.Threw? ==> data' == box.At(c).delivered && box.failure.NoFailure?)
    ensures end.Threw? ==> box.failure == if box.awaited then AfterWait else BeforeWait
    ensures end.AtEnd? ==> data' == box.At(c).written && box.At(c).Exhausted()
    ensures box.broken == old(box.broken) + if end.Failed? then {c} else {}
    ensures box.At(Other(c)).delivered == old(box.At(Other(c)).delivered)
    ensures old(box.ended) ==> box.ended && box.final == old(box.final)
    ensures old(box.At(Other(c)).Exhausted()) ==> box.At(Other(c)) == old(box.At(Other(c)))
  {
    ghost var other := Other(c);
    data' := data;
    while true
      invariant box.Valid() && data' == box.At(c).delivered && box.failure.NoFailure?
      invariant Grows(old(box.At(other)), box.At(other))
      invariant old(box.ended) ==> box.ended && box.final == old(box.final)
      invariant box.broken == old(box.broken)
      decreases box.acts, |box.At(c).unread|
    {
      var r := box.Read(c, buffer);
      match r {
        case Bytes(n) =>
          var threw;
          data', threw := box.Append(data', buffer[..n]);
          if threw {
            return data', Threw;
          }
        case EndOfFile => return data', AtEnd;
        case TryAgain =>
        case Broken => return data', Failed;
      }
    }
  }

  /** What the supervisor knows when it starts to classify the run; a stream is at its end when its drain
      loop has seen the end of the pipe. */
  datatype Report = Report(stdout: seq<byte>, stderr: seq<byte>, status: ExitStatus, timedOut: bool,
                           outAtEnd: bool, errAtEnd: bool)

  /** The pipes that are no longer polled. */
  function Unpolled(outOpen: bool, errOpen: bool): set<Channel>
  {
    (if outOpen then {} else {Out}) + if errOpen then {} else {Err}
  }

  /** How the watching loop was left. */
  datatype Watched = Watched(stdout: seq<byte>, stderr: seq<byte>, exited: bool, status: ExitStatus, timedOut: bool)

  /** Read what `poll` has found on the streams that are still polled. */
  method ReadBoth(box: Sandbox, buffer: array<byte>, ready: PollResult, w: Watched, outOpen: bool, errOpen: bool)
    returns (w': Watched, outOpen': bool, errOpen': bool, threw: bool)
    requires box.Valid() && buffer.Length == BUFFER_SIZE && ready.Ready? && box.failure.NoFailure?
    requires w.stdout == box.out.delivered && w.stderr == box.err.delivered
    modifies buffer, box`out, box`err, box`ended, box`final, box`acts, box`lastRead, box`broken, box`due, box`failure
    ensures box.Valid() && w' == w.(stdout := w'.stdout, stderr := w'.stderr)
    ensures !threw ==> w'.stdout == box.out.delivered && w'.stderr == box.err.delivered && box.failure.NoFailure?
    ensures threw ==> box.failure == if box.awaited then AfterWait else BeforeWait
    ensures !threw && old(box.due) <= Found(ready) + Unpolled(outOpen, errOpen) ==> box.due <= Unpolled(outOpen', errOpen')
    ensures !threw && (forall c :: c in Unpolled(outOpen, errOpen) ==> old(box.IsDone(c))) ==>
      forall c :: c in Unpolled(outOpen', errOpen') ==> box.IsDone(c)
  {
    w', outOpen', errOpen', threw := w, outOpen, errOpen, false;
    if ready.out && outOpen {
      var data, open;
      data, open, threw := ReadReady(box, Out, buffer, w.stdout);
      if threw {
        return;
      }
      w', outOpen' := w.(stdout := data), open;
    }
    if ready.err && errOpen {
      var data, open;
      data, open, threw := ReadReady(box, Err, buffer, w.stderr);
      if threw {
        return;
      }
      w', errOpen' := w'.(stderr := data), open;
    }
  }

  /** What holds between the steps of the watching loop: captured equals delivered, the loop goes on exactly
      until the exit is observed, and pipes are polled until they are done. */
  ghost predicate Watching(box: Sandbox, w: Watched, outOpen: bool, errOpen: bool)
    reads box
  {
    && box.Valid() && w.stdout == box.out.delivered && w.stderr == box.err.delivered
    && w.exited == box.awaited && (w.exited && !box.lost ==> box.ended && w.status == box.final)
    && !w.timedOut && (box.lost ==> w.exited) && box.failure.NoFailure? && !box.killed && !box.pollFailed
    && forall c :: c in Unpolled(outOpen, errOpen) ==> box.IsDone(c)
  }

  /** Read what is ready, then look at the process. */
  method HandleEvents(box: Sandbox, buffer: array<byte>, ready: PollResult, w: Watched, outOpen: bool, errOpen: bool)
    returns (w': Watched, outOpen': bool, errOpen': bool, threw: bool)
    requires Watching(box, w, outOpen, errOpen) && !w.exited && buffer.Length == BUFFER_SIZE && ready.Ready?
    requires box.due <= Found(ready) + Unpolled(outOpen, errOpen)
    modifies buffer, box`out, box`err, box`ended, box`final, box`acts, box`awaited, box`lost
    modifies box`lastRead, box`broken, box`due, box`failure, box`looks
    ensures !threw ==> Watching(box, w', outOpen', errOpen') && box.looks == old(box.looks) + 1
    ensures !threw ==> box.due <= Unpolled(outOpen', errOpen')
    ensures threw ==> box.Valid() && box.failure.BeforeWait? && !box.awaited && !box.lost && !w'.timedOut
  {
    w', outOpen', errOpen', threw := ReadBoth(box, buffer, ready, w, outOpen, errOpen);
    if threw {
      return;
    }
    var wait := box.WaitNoHang();
    match wait {
      case Reaped(status) => w' := w'.(exited := true, status := status);
      case NoSuchChild => w' := w'.(exited := true);
      case Running =>
      case WaitFailed =>
    }
  }

  /** What holds when the loop has been left without an exception.  It ends with the exit observed, at the
      deadline with the child killed, with a failed poll, or with both streams done; the process has been
      looked at after every poll, and what a poll has found has been read unless the stream was done. */
  ghost predicate Left(box: Sandbox, w: Watched, deadline: int)
    reads box
  {
    && box.Valid() && w.stdout == box.out.delivered && w.stderr == box.err.delivered && box.failure.NoFailure?
    && w.exited == box.awaited && (box.lost ==> w.exited)
    && (w.exited && !box.lost ==> box.ended && w.status == box.final)
    && (w.timedOut ==> !w.exited && box.now >= deadline)
    && (w.timedOut <==> box.killed)
    && (w.exited || w.timedOut || box.pollFailed || (box.IsDone(Out) && box.IsDone(Err)))
    && box.looks == box.polls
    && forall c :: c in box.due ==> box.IsDone(c)
  }

  datatype Next = GoOn | Leave | Throw

  /** One round: check the deadline, poll, handle what has happened. */
  method WatchOnce(box: Sandbox, buffer: array<byte>, deadline: int, w: Watched, outOpen: bool, errOpen: bool)
    returns (w': Watched, outOpen': bool, errOpen': bool, next: Next)
    requires Watching(box, w, outOpen, errOpen) && !w.exited && buffer.Length == BUFFER_SIZE
    requires box.looks == box.polls && box.due <= Unpolled(outOpen, errOpen)
    modifies box, buffer
    ensures next.GoOn? ==> Watching(box, w', outOpen', errOpen')
    ensures next.GoOn? ==> box.looks == box.polls && box.due <= Unpolled(outOpen', errOpen')
    ensures old(box.now) < box.now && (next.GoOn? ==> old(box.now) < deadline)
    ensures next.Leave? ==> Left(box, w', deadline)
    ensures next.Throw? ==> box.Valid() && box.failure.BeforeWait? && !box.awaited && !box.killed
  {
    w', outOpen', errOpen', next := w, outOpen, errOpen, GoOn;
    var now := box.ReadClock();
    if now >= deadline {
      box.Kill();
      return w.(timedOut := true), outOpen, errOpen, Leave;
    }
    PollStaysNearDeadline(deadline - now);
    var ready := box.Poll(PollTimeout(deadline - now));
    if ready.Interrupted? {
      return;
    }
    if ready.PollFailed? {
      return w, outOpen, errOpen, Leave;
    }
    var threw;
    w', outOpen', errOpen', threw := HandleEvents(box, buffer, ready, w, outOpen, errOpen);
    next := if threw then Throw else if !outOpen' && !errOpen' then Leave else GoOn;
  }

  /** `while (!process_exited)`: check the deadline, poll, read what is ready, look at the process.  An
      exception leaves the child neither killed nor waited for. */
  method Watch(box: Sandbox, buffer: array<byte>, deadline: int) returns (w: Watched, threw: bool)
    requires box.Fresh() && buffer.Length == BUFFER_SIZE
    modifies box, buffer
    ensures !threw ==> Left(box, w, deadline)
    ensures threw ==> box.Valid() && box.failure.BeforeWait? && !box.awaited && !box.killed
  {
    w, threw := Watched([], [], false, Exit(0), false), false;
    var outOpen, errOpen, next := true, true, GoOn;
    while !w.exited && next.GoOn?
      invariant next.GoOn? ==> Watching(box, w, outOpen, errOpen)
      invariant next.GoOn? ==> box.looks == box.polls && box.due <= Unpolled(outOpen, errOpen)
      invariant next.Leave? ==> Left(box, w, deadline)
      invariant next.Throw? ==> box.Valid() && box.failure.BeforeWait? && !box.awaited && !box.killed
      decreases Max(0, deadline - box.now), next.GoOn?
    {
      w, outOpen, errOpen, next := WatchOnce(box, buffer, deadline, w, outOpen, errOpen);
    }
    threw := next.Throw?;
  }

  /** Captured plus unread bytes are what the child wrote, on each stream by itself; a stream drained to
      its end is captured completely.  The exit has been observed, or waited for, before the status is
      used, and the status is the process's own unless it could not be found.  When an exception leaves
      the watching loop, and only then, nobody has waited for the child. */
  method MonitorChild(box: Sandbox, deadline: int) returns (r: Report, threw: bool)
    requires box.Fresh()
    modifies box
    ensures threw <==> !box.failure.NoFailure?
    ensures box.awaited <==> !box.failure.BeforeWait?
    ensures box.failure.BeforeWait? ==> !box.killed
    ensures !threw ==>
      && r.stdout + box.out.unread == box.out.written
      && r.stderr + box.err.unread == box.err.written
      && (r.outAtEnd ==> r.stdout == box.out.written)
      && (r.errAtEnd ==> r.stderr == box.err.written)
      && (!box.lost ==> box.ended && r.status == box.final)
      && (r.outAtEnd || Out in box.broken) && (r.errAtEnd || Err in box.broken)
      && (r.timedOut <==> box.killed)
      && (r.timedOut ==> box.now >= deadline && !box.lost)
  {
    var buffer := new byte[BUFFER_SIZE];
    var w;
    w, threw := Watch(box, buffer, deadline);
    r := Report(w.stdout, w.stderr, w.status, w.timedOut, false, false);
    if threw {
      return;
    }
    if !w.exited {
      var status := box.WaitBlocking();
      r := r.(status := status);
    }
    var stdout, outEnd := Drain(box, Out, buffer, w.stdout);
    if outEnd.Threw? {
      return r, true;
    }
    var stderr, errEnd := Drain(box, Err, buffer, w.stderr);
    if errEnd.Threw? {
      return r, true;
    }
    r := Report(stdout, stderr, r.status, w.timedOut, outEnd.AtEnd?, errEnd.AtEnd?);
  }
}
