/** From one finished process to the status of a submission (judge/src/actuators/Actuator.cpp,
    judge/src/Judger.cpp, judge/src/utilities/JudgeResult.cpp, app/src/Application.cpp). */
module Verdict {
  import opened Supervisor

  datatype TestStatus =
    | Unknown | Accepted | WrongAnswer | RuntimeError
    | MemoryLimitExceeded | TimeLimitExceeded | InternalError | CompilationError

  datatype SubmissionStatus = UNKNOWN | PENDING | AC | WA | RE | MLE | TLE | IE | CE

  // ---- The final status as a maximum ----

  /** What one test alone makes of a submission. */
  function Image(t: TestStatus): SubmissionStatus
  {
    match t
    case Accepted => AC
    case WrongAnswer => WA
    case MemoryLimitExceeded => MLE
    case TimeLimitExceeded => TLE
    case InternalError => IE
    case _ => RE
  }

  /** AC < RE < IE < TLE < MLE < WA. */
  function Rank(s: SubmissionStatus): nat
  {
    match s
    case AC => 0
    case RE => 1
    case IE => 2
    case TLE => 3
    case MLE => 4
    case WA => 5
    case _ => 6
  }

  function Worse(a: SubmissionStatus, b: SubmissionStatus): SubmissionStatus
  {
    if Rank(a) < Rank(b) then b else a
  }

  /** The worst image among the tests; a submission without test results counts as not compiled. */
  function Overall(ts: seq<TestStatus>): SubmissionStatus
  {
    if ts == [] then CE
    else if |ts| == 1 then Image(ts[0])
    else Worse(Overall(ts[..|ts| - 1]), Image(ts[|ts| - 1]))
  }

  lemma {:induction false} OverallIsMaximum(ts: seq<TestStatus>)
    requires ts != []
    ensures exists t :: t in ts && Image(t) == Overall(ts)
    ensures forall t :: t in ts ==> Rank(Image(t)) <= Rank(Overall(ts))
  {
    var last := |ts| - 1;
    assert ts == ts[..last] + [ts[last]];
    if last > 0 {
      OverallIsMaximum(ts[..last]);
      var t :| t in ts[..last] && Image(t) == Overall(ts[..last]);
      assert t in ts && ts[last] in ts;
    } else {
      assert ts[0] in ts;
    }
  }

  lemma OverallIs(ts: seq<TestStatus>, t: TestStatus)
    requires t in ts && forall u :: u in ts ==> Rank(Image(u)) <= Rank(Image(t))
    ensures Overall(ts) == Image(t)
  {
    OverallIsMaximum(ts);
  }

  /** The final status depends on the set of test statuses alone: order and repetition do not matter. */
  lemma OverallIgnoresOrder(a: seq<TestStatus>, b: seq<TestStatus>)
    requires forall t :: t in a <==> t in b
    ensures Overall(a) == Overall(b)
  {
    if a == [] {
      assert forall i :: 0 <= i < |b| ==> b[i] in b;
    } else {
      OverallIsMaximum(a);
      var t :| t in a && Image(t) == Overall(a);
      OverallIs(b, t);
    }
  }

  /** Joining two non-empty result lists takes the worse of their statuses. */
  lemma OverallOfJoin(a: seq<TestStatus>, b: seq<TestStatus>)
    requires a != [] && b != []
    ensures Overall(a + b) == Worse(Overall(a), Overall(b))
    ensures Rank(Overall(a)) <= Rank(Overall(a + b))
  {
    OverallIsMaximum(a);
    OverallIsMaximum(b);
    var t :| t in a && Image(t) == Overall(a);
    var u :| u in b && Image(u) == Overall(b);
    OverallIs(a + b, if Rank(Image(t)) < Rank(Image(u)) then u else t);
  }

  lemma AcceptedExactlyWhenAllAre(ts: seq<TestStatus>)
    ensures Overall(ts) == AC <==> ts != [] && forall t :: t in ts ==> t == Accepted
  {
    if ts != [] {
      OverallIsMaximum(ts);
    }
  }

  /** Which tests decide: the first of WA, MLE, TLE and IE that occurs, else AC or RE. */
  lemma OverallByName(ts: seq<TestStatus>)
    ensures Overall(ts) == CE <==> ts == []
    ensures Overall(ts) == WA <==> WrongAnswer in ts
    ensures Overall(ts) == MLE <==> WrongAnswer !in ts && MemoryLimitExceeded in ts
    ensures Overall(ts) == TLE <==> WrongAnswer !in ts && MemoryLimitExceeded !in ts && TimeLimitExceeded in ts
    ensures Overall(ts) == IE <==>
      WrongAnswer !in ts && MemoryLimitExceeded !in ts && TimeLimitExceeded !in ts && InternalError in ts
    ensures Overall(ts) == AC <==> ts != [] && forall t :: t in ts ==> t == Accepted
    ensures Overall(ts) in {CE, WA, MLE, TLE, IE, AC, RE}
  {
    if ts != [] {
      OverallIsMaximum(ts);
      AcceptedExactlyWhenAllAre(ts);
    }
  }

  // ---- The bitmask fold ----

  function Place(t: TestStatus): (n: nat)
    ensures n < 8
  {
    match t
    case Unknown => 0
    case Accepted => 1
    case WrongAnswer => 2
    case RuntimeError => 3
    case MemoryLimitExceeded => 4
    case TimeLimitExceeded => 5
    case InternalError => 6
    case CompilationError => 7
  }

  /** The status code: one bit of eight. */
  function Mask(t: TestStatus): bv8
  {
    1 << Place(t)
  }

  /** The enumerator: the bit in its 64-bit type. */
  function Enumerator(t: TestStatus): bv64
  {
    1 << Place(t)
  }

  /** The cast of an enumerator to 8 bits cuts nothing off. */
  lemma CastKeepsTheBit(t: TestStatus)
    ensures (Enumerator(t) & 0xFF) as bv8 == Mask(t) && Mask(t) as bv64 == Enumerator(t)
  {
  }

  /** Different statuses have different bits. */
  lemma MasksAreDisjoint(t: TestStatus, u: TestStatus)
    ensures Mask(t) & Mask(u) != 0 <==> t == u
  {
  }

  lemma OrAddsBit(mask: bv8, t: TestStatus, u: TestStatus)
    ensures (mask | Mask(t)) & Mask(u) != 0 <==> mask & Mask(u) != 0 || t == u
  {
    match t
    case Unknown => match u { case _ => }
    case Accepted => match u { case _ => }
    case WrongAnswer => match u { case _ => }
    case RuntimeError => match u { case _ => }
    case MemoryLimitExceeded => match u { case _ => }
    case TimeLimitExceeded => match u { case _ => }
    case InternalError => match u { case _ => }
    case CompilationError => match u { case _ => }
  }

  ghost predicate MaskOf(mask: bv8, ts: seq<TestStatus>)
  {
    forall t :: t in ts <==> mask & Mask(t) != 0
  }

  lemma OnlyAccepted(mask: bv8, ts: seq<TestStatus>)
    requires MaskOf(mask, ts) && ts != []
    ensures mask == Mask(Accepted) <==> forall t :: t in ts ==> t == Accepted
  {
    assert ts[0] in ts;
    BitsOf(mask);
    if mask != Mask(Accepted) && mask & Mask(Accepted) != 0 {
      assert exists t :: t != Accepted && mask & Mask(t) != 0;
    }
  }

  lemma BitsOf(mask: bv8)
    ensures mask == 2 || mask == 0 || exists t :: t != Accepted && mask & Mask(t) != 0
  {
    if mask != 2 && mask != 0 {
      assert mask & 1 != 0 || mask & 4 != 0 || mask & 8 != 0 || mask & 16 != 0
          || mask & 32 != 0 || mask & 64 != 0 || mask & 128 != 0;
      var t :=
        if mask & 1 != 0 then Unknown else if mask & 4 != 0 then WrongAnswer
        else if mask & 8 != 0 then RuntimeError else if mask & 16 != 0 then MemoryLimitExceeded
        else if mask & 32 != 0 then TimeLimitExceeded else if mask & 64 != 0 then InternalError
        else CompilationError;
      assert t != Accepted && mask & Mask(t) != 0;
    }
  }

  lemma FoldStep(mask: bv8, ts: seq<TestStatus>, t: TestStatus)
    requires MaskOf(mask, ts)
    ensures MaskOf(mask | Mask(t), ts + [t])
  {
    forall u | true
      ensures u in ts + [t] <==> (mask | Mask(t)) & Mask(u) != 0
    {
      OrAddsBit(mask, t, u);
    }
  }

  /** The priority decision: whether nothing but accepted tests was seen, and else which statuses were. */
  function Cascade(onlyAccepted: bool, seen: TestStatus -> bool): SubmissionStatus
  {
    if onlyAccepted then AC
    else if seen(WrongAnswer) then WA
    else if seen(MemoryLimitExceeded) then MLE
    else if seen(TimeLimitExceeded) then TLE
    else if seen(InternalError) then IE
    else RE
  }

  /** It picks the worst image among the statuses seen. */
  lemma CascadeIsOverall(onlyAccepted: bool, seen: TestStatus -> bool, ts: seq<TestStatus>)
    requires ts != [] && forall t :: seen(t) <==> t in ts
    requires onlyAccepted <==> forall t :: t in ts ==> t == Accepted
    ensures Cascade(onlyAccepted, seen) == Overall(ts)
  {
    var status := Cascade(onlyAccepted, seen);
    if status == WA {
      OverallIs(ts, WrongAnswer);
    } else if status == MLE {
      OverallIs(ts, MemoryLimitExceeded);
    } else if status == TLE {
      OverallIs(ts, TimeLimitExceeded);
    } else if status == IE {
      OverallIs(ts, InternalError);
    } else {
      OverallIsMaximum(ts);
      AcceptedExactlyWhenAllAre(ts);
    }
  }

  /** The decision over the folded bits. */
  function Decide(mask: bv8): SubmissionStatus
  {
    Cascade(mask == Mask(Accepted), t => mask & Mask(t) != 0)
  }

  lemma DecideIsOverall(mask: bv8, ts: seq<TestStatus>)
    requires MaskOf(mask, ts) && ts != []
    ensures Decide(mask) == Overall(ts)
  {
    OnlyAccepted(mask, ts);
    CascadeIsOverall(mask == Mask(Accepted), t => mask & Mask(t) != 0, ts);
  }

  /** The fold of all results into one mask. */
  method Fold(results: seq<TestStatus>) returns (mask: bv8)
    ensures MaskOf(mask, results)
  {
    mask := 0;
    for i := 0 to |results|
      invariant MaskOf(mask, results[..i])
    {
      FoldStep(mask, results[..i], results[i]);
      assert results[..i + 1] == results[..i] + [results[i]];
      mask := mask | Mask(results[i]);
    }
    assert results[..|results|] == results;
  }

  class JudgeResult {
    var results: seq<TestStatus>
    var status: SubmissionStatus

    constructor ()
      ensures results == [] && status == UNKNOWN
    {
      results, status := [], UNKNOWN;
    }

    /** Fold the results into a bit mask and decide; no result at all means not compiled. */
    method SetStatus()
      modifies `status
      ensures status == Overall(results)
      ensures status == CE <==> results == []
      ensures status == WA <==> WrongAnswer in results
      ensures status == MLE <==> WrongAnswer !in results && MemoryLimitExceeded in results
      ensures status == TLE <==> WrongAnswer !in results && MemoryLimitExceeded !in results && TimeLimitExceeded in results
      ensures status == AC <==> results != [] && forall t :: t in results ==> t == Accepted
    {
      OverallByName(results);
      if results == [] {
        status := CE;
        return;
      }
      var mask := Fold(results);
      status := Decide(mask);
      DecideIsOverall(mask, results);
    }
  }
}
