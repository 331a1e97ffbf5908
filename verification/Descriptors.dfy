/** Descriptors, input and reaping around one judged process (judge/src/actuators/Actuator.cpp,
    `createPipes` and `execute`), for every pattern of failing system calls. */
module Descriptors {
  import opened Supervisor

  /** The read end and the write end of a pipe. */
  datatype Ends = Ends(r: nat, w: nat)

  /** The system calls that can fail, the last three of them standing for several. */
  datatype Call = PipeCall | FcntlCall | ForkCall | WriteCall | CgroupSetUp | StatisticsReading | CgroupRemoval

  class Kernel {
    var open: set<nat>
    /** Every `close` so far, in order. */
    var closed: seq<nat>
    var next: nat
    var input: seq<int>
    var childRunning: bool
    /** The calls that have failed so far. */
    var failures: set<Call>

    ghost predicate Valid()
      reads this
    {
      forall fd :: fd in open || fd in closed ==> fd < next
    }

    constructor ()
      ensures Valid() && open == {} && closed == [] && input == [] && !childRunning && failures == {}
    {
      open, closed, next, input := {}, [], 0, [];
      childRunning, failures := false, {};
    }

    method Pipe() returns (ok: bool, p: Ends)
      requires Valid()
      modifies `open, `next, `failures
      ensures Valid() && failures == old(failures) + if ok then {} else {PipeCall}
      ensures if ok then p == Ends(old(next), old(next) + 1) && next == old(next) + 2 && open == old(open) + {p.r, p.w}
              else open == old(open) && next == old(next)
    {
      ok, p := *, Ends(next, next + 1);
      if ok {
        open, next := open + {next, next + 1}, next + 2;
      } else {
        failures := failures + {PipeCall};
      }
    }

    method Close(fd: nat)
      requires Valid() && fd in open
      modifies `open, `closed
      ensures Valid() && open == old(open) - {fd} && closed == old(closed) + [fd]
    {
      open, closed := open - {fd}, closed + [fd];
    }

    method SetNonBlocking(fd: nat) returns (ok: bool)
      requires fd in open
      modifies `failures
      ensures failures == old(failures) + if ok then {} else {FcntlCall}
    {
      ok := Attempt(FcntlCall);
    }

    method Attempt(call: Call) returns (ok: bool)
      modifies `failures
      ensures failures == old(failures) + if ok then {} else {call}
    {
      ok := *;
      failures := failures + if ok then {} else {call};
    }

    method Fork() returns (ok: bool)
      modifies `childRunning, `failures
      ensures childRunning == (ok || old(childRunning))
      ensures failures == old(failures) + if ok then {} else {ForkCall}
    {
      ok := Attempt(ForkCall);
      childRunning := childRunning || ok;
    }

    /** `write` takes a non-empty part of the data, or fails. */
    method Write(fd: nat, data: seq<int>) returns (ok: bool, n: nat)
      requires fd in open && data != []
      modifies `input, `failures
      ensures failures == old(failures) + if ok then {} else {WriteCall}
      ensures ok ==> 0 < n <= |data| && input == old(input) + data[..n]
      ensures !ok ==> input == old(input)
    {
      ok := Attempt(WriteCall);
      n := 0;
      if ok {
        n :| 0 < n <= |data|;
        input := input + data[..n];
      }
    }
  }

  datatype Pipes = Pipes(stdin: Ends, stdout: Ends, stderr: Ends)

  /** Six consecutive new descriptors. */
  function NewPipes(first: nat): Pipes
  {
    Pipes(Ends(first, first + 1), Ends(first + 2, first + 3), Ends(first + 4, first + 5))
  }

  function Block(first: nat): set<nat>
  {
    {first, first + 1, first + 2, first + 3, first + 4, first + 5}
  }

  lemma BlockIsNew(open: set<nat>, next: nat)
    requires forall fd :: fd in open ==> fd < next
    ensures open + Block(next) - Block(next) == open
  {}

  method ClosePair(k: Kernel, p: Ends)
    requires k.Valid() && p.r in k.open && p.w in k.open && p.r != p.w
    modifies k`open, k`closed
    ensures k.Valid() && k.open == old(k.open) - {p.r, p.w}
  {
    k.Close(p.r);
    k.Close(p.w);
  }

  /** Six new open descriptors, or an exception and none more open than before. */
  method CreatePipes(k: Kernel) returns (ok: bool, p: Pipes)
    requires k.Valid() && k.failures == {}
    modifies k`open, k`closed, k`next, k`failures
    ensures k.Valid() && k.failures <= old(k.failures) + {PipeCall, FcntlCall}
    ensures ok <==> k.failures == old(k.failures)
    ensures ok ==> p == NewPipes(old(k.next)) && k.open == old(k.open) + Block(old(k.next)) && k.closed == old(k.closed)
    ensures !ok ==> k.open == old(k.open)
  {
    var okIn, stdin := k.Pipe();
    p := Pipes(stdin, stdin, stdin);
    if !okIn {
      return false, p;
    }
    var okOut, stdout := k.Pipe();
    if !okOut {
      ClosePair(k, stdin);
      return false, p;
    }
    var okErr, stderr := k.Pipe();
    if !okErr {
      ClosePair(k, stdin);
      ClosePair(k, stdout);
      return false, p;
    }
    p := Pipes(stdin, stdout, stderr);
    var nonBlocking := k.SetNonBlocking(stdout.r);
    if nonBlocking {
      nonBlocking := k.SetNonBlocking(stderr.r);
    }
    if !nonBlocking {
      ClosePair(k, stdin);
      ClosePair(k, stdout);
      ClosePair(k, stderr);
      return false, p;
    }
    return true, p;
  }

  /** How `execute` ends in the parent. */
  datatype End = NoPipes | NoFork | WriteFailed | CgroupFailed | MonitorFailed | CleanupFailed | Completed

  /** How `execute` ends for the failures that have occurred: the earliest decides, but a failing removal of
      the cgroup comes last.  There is a result exactly when nothing has failed. */
  function OutcomeOf(failures: set<Call>, append: Failure): End
  {
    if PipeCall in failures || FcntlCall in failures then NoPipes
    else if ForkCall in failures then NoFork
    else if WriteCall in failures then WriteFailed
    else if CgroupSetUp in failures then CgroupFailed
    else if StatisticsReading in failures || !append.NoFailure? then MonitorFailed
    else if CgroupRemoval in failures then CleanupFailed
    else Completed
  }

  lemma CompletedWithoutFailure(failures: set<Call>, append: Failure)
    ensures OutcomeOf(failures, append).Completed? <==> failures == {} && append.NoFailure?
  {
    if failures != {} {
      var c :| c in failures;
      match c
      case PipeCall | FcntlCall =>
      case ForkCall =>
      case WriteCall =>
      case CgroupSetUp =>
      case StatisticsReading =>
      case CgroupRemoval =>
    }
  }

  /** Feed the child: everything unless a write fails, and always an in-order prefix. */
  method Feed(k: Kernel, fd: nat, data: seq<int>) returns (ok: bool)
    requires fd in k.open && WriteCall !in k.failures
    modifies k`input, k`failures
    ensures k.failures == old(k.failures) + if ok then {} else {WriteCall}
    ensures ok ==> k.input == old(k.input) + data
    ensures exists n :: 0 <= n <= |data| && k.input == old(k.input) + data[..n]
  {
    var written := 0;
    assert k.input == old(k.input) + data[..0];
    while written < |data|
      invariant 0 <= written <= |data| && k.input == old(k.input) + data[..written] && k.failures == old(k.failures)
    {
      var wrote, n := k.Write(fd, data[written..]);
      if !wrote {
        return false;
      }
      assert data[..written] + data[written..][..n] == data[..written + n];
      written := written + n;
    }
    assert data[..written] == data;
    return true;
  }

  method CloseThree(k: Kernel, a: nat, b: nat, c: nat)
    requires k.Valid() && {a, b, c} <= k.open && a != b && b != c && a != c
    modifies k`open, k`closed
    ensures k.Valid() && k.open == old(k.open) - {a, b, c} && k.closed == old(k.closed) + [a, b, c]
  {
    k.Close(a);
    k.Close(b);
    k.Close(c);
  }

  /** Set up the cgroup, watch the child, read the statistics.  The child is left unreaped exactly when the
      cgroup is refused or an exception leaves the watching loop.  Its input has been closed before, so it
      can see the end of it. */
  method Monitor(k: Kernel, box: Sandbox, input: nat, deadline: int) returns (end: End)
    requires box.Fresh() && input !in k.open && k.failures == {}
    modifies k`failures, box
    ensures k.failures <= {CgroupSetUp, StatisticsReading}
    ensures box.awaited <==> CgroupSetUp !in k.failures && !box.failure.BeforeWait?
    ensures end == if CgroupSetUp in k.failures then CgroupFailed
                   else if k.failures == {} && box.failure.NoFailure? then Completed else MonitorFailed
  {
    var ok := k.Attempt(CgroupSetUp);
    if !ok {
      return CgroupFailed;
    }
    var report, threw := MonitorChild(box, deadline);
    if threw {
      return MonitorFailed;
    }
    var stats := k.Attempt(StatisticsReading);
    end := if stats then Completed else MonitorFailed;
  }

  /** A failed write to the child's input: kill it, wait for it, and close what is left. */
  method GiveUp(k: Kernel, box: Sandbox, p: Pipes)
    requires k.Valid() && {p.stdin.w, p.stdout.r, p.stderr.r} <= k.open && box.Fresh()
    requires p.stdin.w != p.stdout.r && p.stdout.r != p.stderr.r && p.stdin.w != p.stderr.r
    modifies k`open, k`closed, box
    ensures k.Valid() && k.open == old(k.open) - {p.stdin.w, p.stdout.r, p.stderr.r}
    ensures k.closed == old(k.closed) + [p.stdin.w, p.stdout.r, p.stderr.r]
    ensures box.awaited && box.killed && box.failure.NoFailure?
  {
    box.Kill();
    var _ := box.WaitBlocking();
    CloseThree(k, p.stdin.w, p.stdout.r, p.stderr.r);
  }

  /** The input is complete: close it, watch the child, close the outputs, and remove the cgroup. */
  method WatchOver(k: Kernel, box: Sandbox, p: Pipes, deadline: int) returns (end: End)
    requires k.Valid() && {p.stdin.w, p.stdout.r, p.stderr.r} <= k.open && box.Fresh() && k.failures == {}
    requires p.stdin.w != p.stdout.r && p.stdout.r != p.stderr.r && p.stdin.w != p.stderr.r
    modifies k`open, k`closed, k`failures, box
    ensures k.Valid() && k.failures <= {CgroupSetUp, StatisticsReading, CgroupRemoval}
    ensures end == OutcomeOf(k.failures, box.failure)
    ensures k.open == old(k.open) - {p.stdin.w, p.stdout.r, p.stderr.r}
    ensures k.closed == old(k.closed) + [p.stdin.w, p.stdout.r, p.stderr.r]
    ensures box.awaited <==> CgroupSetUp !in k.failures && !box.failure.BeforeWait?
  {
    k.Close(p.stdin.w);
    end := Monitor(k, box, p.stdin.w, deadline);
    k.Close(p.stdout.r);
    k.Close(p.stderr.r);
    var removed := k.Attempt(CgroupRemoval);
    if !removed && end.Completed? {
      end := CleanupFailed;
    }
  }

  /** What the parent does once the child exists: all six descriptors are closed, each exactly once, on
      every way out.  The child is left unreaped exactly when its cgroup is refused or an exception is
      thrown while it is watched. */
  method Supervise(k: Kernel, box: Sandbox, first: nat, stdin: seq<int>, deadline: int) returns (end: End)
    requires k.Valid() && Block(first) <= k.open && k.input == [] && k.failures == {} && box.Fresh()
    modifies k`open, k`closed, k`input, k`failures, box
    ensures k.Valid() && k.failures <= {WriteCall, CgroupSetUp, StatisticsReading, CgroupRemoval}
    ensures end == OutcomeOf(k.failures, box.failure)
    ensures end.WriteFailed? ==> box.killed
    ensures k.open == old(k.open) - Block(first)
    ensures k.closed == old(k.closed) + [first, first + 3, first + 5, first + 1, first + 2, first + 4]
    ensures box.awaited <==> CgroupSetUp !in k.failures && !box.failure.BeforeWait?
    ensures k.input <= stdin && (!end.WriteFailed? ==> k.input == stdin)
  {
    var p := NewPipes(first);
    CloseThree(k, p.stdin.r, p.stdout.w, p.stderr.w);
    var fed := stdin == [];
    if stdin != [] {
      fed := Feed(k, p.stdin.w, stdin);
    }
    if !fed {
      GiveUp(k, box, p);
      return WriteFailed;
    }
    end := WatchOver(k, box, p, deadline);
  }

  /** The open descriptors end as they began on every way out but a failing fork, which leaves all six. */
  method Execute(k: Kernel, box: Sandbox, stdin: seq<int>, deadline: int) returns (end: End)
    requires k.Valid() && !k.childRunning && k.input == [] && k.failures == {} && box.Fresh()
    modifies k, box
    ensures k.Valid()
    ensures k.childRunning <==> !end.NoPipes? && !end.NoFork?
    ensures k.open == old(k.open) + if end.NoFork? then Block(old(k.next)) else {}
    ensures k.childRunning ==> var first := old(k.next);
      k.closed == old(k.closed) + [first, first + 3, first + 5, first + 1, first + 2, first + 4]
    ensures end == OutcomeOf(k.failures, box.failure)
    ensures end.Completed? <==> k.failures == {} && box.failure.NoFailure?
    ensures k.childRunning && !box.awaited <==> CgroupSetUp in k.failures || box.failure.BeforeWait?
    ensures end.WriteFailed? ==> box.killed
    ensures k.input <= stdin && (k.childRunning && !end.WriteFailed? ==> k.input == stdin)
  {
    BlockIsNew(k.open, k.next);
    var ok, p := CreatePipes(k);
    if !ok {
      return NoPipes;
    }
    var forked := k.Fork();
    if !forked {
      return NoFork;
    }
    end := Supervise(k, box, p.stdin.r, stdin, deadline);
    CompletedWithoutFailure(k.failures, box.failure);
  }
}
