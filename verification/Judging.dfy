/** Classifying a run, judging it against the expected output, and the judge task's loop over the tests
    (judge/src/actuators/Actuator.cpp, judge/src/Judger.cpp, app/src/Application.cpp). */
module Judging {
  import opened Wrappers
  import opened Supervisor
  import opened Verdict

  const NEWLINE: byte := 10

  newtype uint32 = x: int | 0 <= x < 0x1_0000_0000

  /** What the supervisor reports about a run; `memoryPeak` is the content of memory.peak, in bytes, if
      there is such a file. */
  datatype Run = Run(report: Report, memoryPeak: Option<nat>)

  /** The recorded memory: an `int` that is -1 when no peak could be read. */
  function MemoryKb(r: Run): int
  {
    match r.memoryPeak
    case None => -1
    case Some(bytes) => ToInt32(bytes / 1024)
  }

  /** Comparing an `int` with an unsigned limit converts the `int` to unsigned first. */
  function ToUnsigned(x: int): int
  {
    x % 0x1_0000_0000
  }

  function ExitCode(s: ExitStatus): int { if s.Exit? then s.code else -1 }
  function SignalNumber(s: ExitStatus): int { if s.Signal? then s.number else 0 }

  function Classify(r: Run, memoryLimitKb: uint32): TestStatus
  {
    if r.report.timedOut then TimeLimitExceeded
    else if ToUnsigned(MemoryKb(r)) >= memoryLimitKb as int then MemoryLimitExceeded
    else if SignalNumber(r.report.status) != 0 || ExitCode(r.report.status) != 0 then RuntimeError
    else Unknown
  }

  /** In time, a run counts as over its memory limit exactly when its peak reaches the limit modulo 2^32
      kilobytes, or when no peak was recorded, whatever the limit. */
  lemma MemoryVerdict(r: Run, limit: uint32)
    requires !r.report.timedOut
    ensures Classify(r, limit) == MemoryLimitExceeded
       <==> r.memoryPeak.None? || r.memoryPeak.value / 1024 % 0x1_0000_0000 >= limit as int
  {
    if r.memoryPeak.Some? {
      var kb := r.memoryPeak.value / 1024;
      SameResidue(kb);
    }
  }

  lemma SameResidue(x: nat)
    ensures ToUnsigned(ToInt32(x)) == x % 0x1_0000_0000
  {
    var y := (x + 0x8000_0000) % 0x1_0000_0000;
    assert x + 0x8000_0000 == (x + 0x8000_0000) / 0x1_0000_0000 * 0x1_0000_0000 + y;
  }

  /** In time, with a recorded peak below the limit, and ended with exit code zero. */
  predicate RanInOrder(r: Run, limit: uint32)
  {
    !r.report.timedOut && WithinMemory(r, limit) && r.report.status == Exit(0)
  }

  predicate WithinMemory(r: Run, limit: uint32)
  {
    r.memoryPeak.Some? && r.memoryPeak.value / 1024 % 0x1_0000_0000 < limit as int
  }

  /** Each classification, by the facts of the run. */
  lemma ClassifyByFacts(r: Run, limit: uint32)
    ensures Classify(r, limit) == TimeLimitExceeded <==> r.report.timedOut
    ensures Classify(r, limit) == MemoryLimitExceeded <==> !r.report.timedOut && !WithinMemory(r, limit)
    ensures Classify(r, limit) == RuntimeError <==>
      !r.report.timedOut && WithinMemory(r, limit) && r.report.status != Exit(0)
    ensures Classify(r, limit) == Unknown <==> RanInOrder(r, limit)
  {
    if !r.report.timedOut {
      MemoryVerdict(r, limit);
    }
  }

  datatype Language = OtherLanguage | Cpp | Python

  /** How a compilation ends. */
  datatype Compilation = Compiled | Rejected(message: string)

  class Judger {
    var hasCompiler: bool
    var compileError: string
    const memoryLimitKb: uint32

    ghost predicate Valid()
      reads this
    {
      !hasCompiler ==> compileError == ""
    }

    constructor (memoryLimitKb: uint32)
      ensures Valid() && this.memoryLimitKb == memoryLimitKb && !hasCompiler
    {
      hasCompiler, compileError, this.memoryLimitKb := false, "", memoryLimitKb;
    }

    /** The rest of the constructor; `false` is the exception for an unsupported language. */
    method SetUp(language: Language, compilation: Compilation) returns (ok: bool)
      requires Valid() && !hasCompiler
      modifies this`hasCompiler, this`compileError
      ensures Valid() && ok == !language.OtherLanguage? && hasCompiler == language.Cpp?
      ensures compileError == if language.Cpp? && compilation.Rejected? then compilation.message else ""
    {
      match language {
        case Cpp =>
          hasCompiler := true;
          if compilation.Rejected? {
            compileError := compilation.message;
          }
          return true;
        case Python => return true;
        case OtherLanguage => return false;
      }
    }

    /** `judge` on a finished run.  Taking the last character needs some output when the run itself was in
        order.  The answers CompilationError, Unknown and InternalError do not occur, not even for a
        program that did not compile. */
    method Judge(run: Run, expected: seq<byte>) returns (t: TestStatus)
      requires Valid()
      requires RanInOrder(run, memoryLimitKb) ==> run.report.stdout != []
      ensures t == Judgement(run, expected, memoryLimitKb)
      ensures t == TimeLimitExceeded <==> run.report.timedOut
      ensures t == MemoryLimitExceeded <==> !run.report.timedOut && !WithinMemory(run, memoryLimitKb)
      ensures t == RuntimeError <==>
        !run.report.timedOut && WithinMemory(run, memoryLimitKb) && run.report.status != Exit(0)
      ensures t == Accepted <==> RanInOrder(run, memoryLimitKb) && Prints(run.report.stdout, expected)
      ensures t in {Accepted, WrongAnswer, RuntimeError, MemoryLimitExceeded, TimeLimitExceeded}
    {
      if !hasCompiler && compileError != "" {
        assert false;
        return CompilationError;
      }
      ClassifyByFacts(run, memoryLimitKb);
      t := Classify(run, memoryLimitKb);
      if t == Unknown {
        var stdout := run.report.stdout;
        if stdout[|stdout| - 1] == NEWLINE {
          stdout := stdout[..|stdout| - 1];
        }
        t := if stdout == expected then Accepted else WrongAnswer;
      }
    }
  }

  /** A run is accepted when it ended in order and printed the expected text, up to one newline. */
  function Judgement(run: Run, expected: seq<byte>, limit: uint32): TestStatus
  {
    var t := Classify(run, limit);
    if t != Unknown then t
    else if Prints(run.report.stdout, expected) then Accepted
    else WrongAnswer
  }

  predicate Prints(stdout: seq<byte>, expected: seq<byte>)
  {
    stdout == expected + [NEWLINE] || (stdout == expected && !EndsInNewline(expected))
  }

  predicate EndsInNewline(s: seq<byte>)
  {
    s != [] && s[|s| - 1] == NEWLINE
  }

  // ---- The judge task ----

  /** One test case together with what running it brings: a finished run, or an exception. */
  datatype Trial = Trial(expected: seq<byte>, run: Option<Run>)

  /** A published operation: the new overall status, or the result of one test. */
  datatype Message = UpdateStatus(status: SubmissionStatus) | InsertResult(number: nat, result: TestStatus)

  predicate Judgeable(trials: seq<Trial>, limit: uint32)
  {
    forall x :: x in trials && x.run.Some? && RanInOrder(x.run.value, limit) ==> x.run.value.report.stdout != []
  }

  function ResultOf(x: Trial, limit: uint32): TestStatus
    requires x.run.Some?
  {
    Judgement(x.run.value, x.expected, limit)
  }

  /** The trials before number `n` all ran, and were all accepted. */
  predicate AcceptedBefore(trials: seq<Trial>, n: nat, limit: uint32)
    requires n <= |trials|
  {
    forall i :: 0 <= i < n ==> trials[i].run.Some? && ResultOf(trials[i], limit) == Accepted
  }

  /** The last trial reached: the first one that throws or is not accepted, or else the end of the list. */
  predicate StopsAt(trials: seq<Trial>, n: nat, limit: uint32)
  {
    && n <= |trials| && AcceptedBefore(trials, n, limit)
    && (n < |trials| && trials[n].run.Some? ==> ResultOf(trials[n], limit) != Accepted)
  }

  lemma StopsOnce(trials: seq<Trial>, m: nat, n: nat, limit: uint32)
    requires StopsAt(trials, m, limit) && StopsAt(trials, n, limit)
    ensures m == n
  {}

  /** Where the loop over the trials from number `i` on stops. */
  function StopFrom(trials: seq<Trial>, i: nat, limit: uint32): (n: nat)
    requires i <= |trials| && AcceptedBefore(trials, i, limit)
    ensures StopsAt(trials, n, limit)
    decreases |trials| - i
  {
    if i < |trials| && trials[i].run.Some? && ResultOf(trials[i], limit) == Accepted then StopFrom(trials, i + 1, limit)
    else i
  }

  /** The loop ends without an exception, at trial `n`. */
  predicate EndsAt(trials: seq<Trial>, n: nat, limit: uint32)
  {
    StopsAt(trials, n, limit) && (n < |trials| ==> trials[n].run.Some?)
  }

  /** The results of the first `n` trials. */
  function Results(trials: seq<Trial>, n: nat, limit: uint32): (ts: seq<TestStatus>)
    requires n <= |trials| && forall i :: 0 <= i < n ==> trials[i].run.Some?
    ensures |ts| == n
  {
    if n == 0 then [] else Results(trials, n - 1, limit) + [ResultOf(trials[n - 1], limit)]
  }

  lemma {:induction false} ResultsAt(trials: seq<Trial>, n: nat, limit: uint32)
    requires n <= |trials| && forall i :: 0 <= i < n ==> trials[i].run.Some?
    ensures forall i :: 0 <= i < n ==> Results(trials, n, limit)[i] == ResultOf(trials[i], limit)
  {
    if n > 0 {
      ResultsAt(trials, n - 1, limit);
    }
  }

  /** The result messages for trials that ran, numbered from 1 in 32 bits. */
  function ResultMessages(ts: seq<TestStatus>): seq<Message>
  {
    seq(|ts|, i requires 0 <= i < |ts| => InsertResult((i + 1) % 0x1_0000_0000, ts[i]))
  }

  lemma OneMoreMessage(ts: seq<TestStatus>, t: TestStatus)
    ensures ResultMessages(ts + [t]) == ResultMessages(ts) + [InsertResult((|ts| + 1) % 0x1_0000_0000, t)]
  {}

  /** How many trials were judged. */
  function Reached(trials: seq<Trial>, stop: nat): nat
  {
    if stop < |trials| then stop + 1 else stop
  }

  /** The final status, read off the trial at which the loop stopped. */
  function FinalStatus(trials: seq<Trial>, stop: nat, limit: uint32): SubmissionStatus
    requires EndsAt(trials, stop, limit)
  {
    if trials == [] then CE
    else if stop >= |trials| then AC
    else Image(ResultOf(trials[stop], limit))
  }

  /** With every result but the last accepted, the fold over all results says what the last one says. */
  lemma FinalStatusIsOverall(trials: seq<Trial>, stop: nat, limit: uint32)
    requires EndsAt(trials, stop, limit)
    ensures Overall(Results(trials, Reached(trials, stop), limit)) == FinalStatus(trials, stop, limit)
  {
    var n := Reached(trials, stop);
    var results := Results(trials, n, limit);
    if n > 0 {
      ResultsAt(trials, n, limit);
      var last := results[n - 1];
      assert last in results;
      forall u | u in results
        ensures Rank(Image(u)) <= Rank(Image(last))
      {
        var i :| 0 <= i < n && results[i] == u;
      }
      OverallIs(results, last);
    }
  }

  lemma NextNumber(i: nat)
    ensures (i % 0x1_0000_0000 + 1) % 0x1_0000_0000 == (i + 1) % 0x1_0000_0000
  {}

  /** Judge trial `i`, and record its result under the next number. */
  method JudgeOne(judger: Judger, trials: seq<Trial>, i: nat, judged: JudgeResult, messages: seq<Message>, idx: nat)
    returns (messages': seq<Message>, idx': nat, accepted: bool)
    requires judger.Valid() && Judgeable(trials, judger.memoryLimitKb) && i < |trials| && trials[i].run.Some?
    requires AcceptedBefore(trials, i, judger.memoryLimitKb) && judged.results == Results(trials, i, judger.memoryLimitKb)
    requires messages == ResultMessages(judged.results) && idx == (i + 1) % 0x1_0000_0000
    modifies judged`results
    ensures judged.results == Results(trials, i + 1, judger.memoryLimitKb)
    ensures messages' == ResultMessages(judged.results) && idx' == (i + 2) % 0x1_0000_0000
    ensures accepted ==> AcceptedBefore(trials, i + 1, judger.memoryLimitKb)
    ensures !accepted ==> EndsAt(trials, i, judger.memoryLimitKb)
  {
    var status := judger.Judge(trials[i].run.value, trials[i].expected);
    OneMoreMessage(judged.results, status);
    messages' := messages + [InsertResult(idx, status)];
    NextNumber(i + 1);
    idx' := (idx + 1) % 0x1_0000_0000;
    judged.results := judged.results + [status];
    accepted := status == Accepted;
  }

  /** The loop over the tests, judging and recording until a test is not accepted. */
  method JudgeTests(judger: Judger, trials: seq<Trial>, judged: JudgeResult)
    returns (messages: seq<Message>, threw: bool, ghost stop: nat)
    requires judger.Valid() && Judgeable(trials, judger.memoryLimitKb) && judged.results == []
    modifies judged`results
    ensures StopsAt(trials, stop, judger.memoryLimitKb)
    ensures threw <==> !EndsAt(trials, stop, judger.memoryLimitKb)
    ensures !threw ==> judged.results == Results(trials, Reached(trials, stop), judger.memoryLimitKb)
    ensures !threw ==> messages == ResultMessages(judged.results)
  {
    var limit := judger.memoryLimitKb;
    var idx := 1;
    messages := [];
    for i := 0 to |trials|
      invariant AcceptedBefore(trials, i, limit) && judged.results == Results(trials, i, limit)
      invariant messages == ResultMessages(judged.results) && idx == (i + 1) % 0x1_0000_0000
    {
      if trials[i].run.None? {
        return messages, true, i;
      }
      var accepted;
      messages, idx, accepted := JudgeOne(judger, trials, i, judged, messages, idx);
      if !accepted {
        return messages, false, i;
      }
    }
    return messages, false, |trials|;
  }

  /** Everything a judge task has to publish: the update, then the numbered results of the trials judged. */
  function AllMessages(trials: seq<Trial>, stop: nat, limit: uint32): seq<Message>
    requires EndsAt(trials, stop, limit)
  {
    [UpdateStatus(FinalStatus(trials, stop, limit))] + ResultMessages(Results(trials, Reached(trials, stop), limit))
  }

  /** The messages published so far: the update first, then the results of the trials in turn, from number 1. */
  predicate TellInOrder(published: seq<Message>, trials: seq<Trial>, stop: nat, limit: uint32)
    requires EndsAt(trials, stop, limit)
  {
    && |published| <= 1 + Reached(trials, stop)
    && (published != [] ==> published[0] == UpdateStatus(FinalStatus(trials, stop, limit)))
    && forall i :: 1 <= i < |published| ==> published[i] == InsertResult(i % 0x1_0000_0000, ResultOf(trials[i - 1], limit))
  }

  lemma MessagesTellInOrder(published: seq<Message>, trials: seq<Trial>, stop: nat, limit: uint32)
    requires EndsAt(trials, stop, limit) && published <= AllMessages(trials, stop, limit)
    ensures TellInOrder(published, trials, stop, limit)
    ensures |AllMessages(trials, stop, limit)| == 1 + Reached(trials, stop)
  {
    ResultsAt(trials, Reached(trials, stop), limit);
  }

  /** Publish one message after another, until one fails. */
  method PublishAll(messages: seq<Message>) returns (published: seq<Message>, failed: bool)
    ensures if failed then published < messages else published == messages
  {
    published, failed := [], false;
    for i := 0 to |messages|
      invariant published == messages[..i] && !failed
    {
      failed := *;
      if failed {
        return;
      }
      published := published + [messages[i]];
    }
  }

  /** The judge task.  If the last trial reached throws, nothing is published.  Otherwise the update comes
      first, then one numbered result for every trial reached, unless publishing fails on the way. */
  method JudgeTask(judger: Judger, trials: seq<Trial>) returns (published: seq<Message>, failed: bool)
    requires judger.Valid() && Judgeable(trials, judger.memoryLimitKb)
    ensures var limit := judger.memoryLimitKb;
      var stop := StopFrom(trials, 0, limit);
      if !EndsAt(trials, stop, limit) then
        published == [] && failed
      else
        && published <= AllMessages(trials, stop, limit)
        && (|published| == 1 + Reached(trials, stop) <==> !failed)
        && TellInOrder(published, trials, stop, limit)
  {
    var judged := new JudgeResult();
    var messages, threw, stop := JudgeTests(judger, trials, judged);
    StopsOnce(trials, stop, StopFrom(trials, 0, judger.memoryLimitKb), judger.memoryLimitKb);
    if threw {
      return [], true;
    }
    judged.SetStatus();
    FinalStatusIsOverall(trials, stop, judger.memoryLimitKb);
    published, failed := PublishAll([UpdateStatus(judged.status)] + messages);
    MessagesTellInOrder(published, trials, stop, judger.memoryLimitKb);
  }
}
