/** Runs of a step function, and counting over sequences.

    A protocol is a total function `step(state, action)` that leaves the state alone when the action is
    not enabled.  Every sequence of actions is therefore a run, and a lemma about all sequences of
    actions is a lemma about all interleavings. */
module Runs {

  function Exec<S, A>(step: (S, A) -> S, start: S, run: seq<A>): S
  {
    if run == [] then start
    else step(Exec(step, start, run[..|run| - 1]), run[|run| - 1])
  }

  /** An invariant kept by every step holds after every run. */
  lemma {:induction false} Always<S(!new), A(!new)>(step: (S, A) -> S, inv: S -> bool, start: S, run: seq<A>)
    requires inv(start)
    requires forall s, a :: inv(s) ==> inv(step(s, a))
    ensures inv(Exec(step, start, run))
  {
    if run != [] {
      Always(step, inv, start, run[..|run| - 1]);
    }
  }

  lemma {:induction false} ExecConcat<S, A>(step: (S, A) -> S, start: S, first: seq<A>, second: seq<A>)
    ensures Exec(step, start, first + second) == Exec(step, Exec(step, start, first), second)
  {
    if second == [] {
      assert first + second == first;
    } else {
      var front := second[..|second| - 1];
      ExecConcat(step, start, first, front);
      assert (first + second)[..|first + second| - 1] == first + front;
    }
  }

  lemma ExecOne<S, A>(step: (S, A) -> S, start: S, run: seq<A>, a: A)
    ensures Exec(step, start, run + [a]) == step(Exec(step, start, run), a)
  {
    assert (run + [a])[..|run|] == run;
  }

  lemma ExecTwo<S, A>(step: (S, A) -> S, start: S, a: A, b: A)
    ensures Exec(step, start, [a] + [b]) == step(step(start, a), b)
  {
    ExecOne(step, start, [], a);
    ExecOne(step, start, [a], b);
    assert [] + [a] == [a];
  }

  lemma ExecThree<S, A>(step: (S, A) -> S, start: S, run: seq<A>, a: A, b: A, c: A)
    ensures Exec(step, start, run + [a] + [b] + [c]) == step(step(step(Exec(step, start, run), a), b), c)
  {
    ExecOne(step, start, run, a);
    ExecOne(step, start, run + [a], b);
    ExecOne(step, start, run + [a] + [b], c);
  }

  /** How many elements satisfy `p`. */
  function Count<T>(p: T -> bool, s: seq<T>): nat
  {
    if s == [] then 0
    else Count(p, s[..|s| - 1]) + if p(s[|s| - 1]) then 1 else 0
  }

  lemma {:induction false} CountUpdate<T>(p: T -> bool, s: seq<T>, i: nat, x: T)
    requires i < |s|
    ensures Count(p, s[i := x]) + (if p(s[i]) then 1 else 0) == Count(p, s) + if p(x) then 1 else 0
  {
    var last := |s| - 1;
    if i == last {
      assert s[i := x][..last] == s[..last];
    } else {
      assert s[i := x][..last] == s[..last][i := x];
      CountUpdate(p, s[..last], i, x);
    }
  }

  lemma {:induction false} CountSame<T>(p: T -> bool, s: seq<T>, t: seq<T>)
    requires |s| == |t| && forall i :: 0 <= i < |s| ==> p(s[i]) == p(t[i])
    ensures Count(p, s) == Count(p, t)
  {
    if s != [] {
      CountSame(p, s[..|s| - 1], t[..|t| - 1]);
    }
  }

  lemma {:induction false} CountNone<T>(p: T -> bool, s: seq<T>)
    requires forall i :: 0 <= i < |s| ==> !p(s[i])
    ensures Count(p, s) == 0
  {
    if s != [] {
      CountNone(p, s[..|s| - 1]);
    }
  }

  lemma {:induction false} CountPositive<T>(p: T -> bool, s: seq<T>)
    ensures Count(p, s) > 0 <==> exists i :: 0 <= i < |s| && p(s[i])
    ensures Count(p, s) <= |s|
  {
    if s != [] {
      CountPositive(p, s[..|s| - 1]);
      if i :| 0 <= i < |s| && p(s[i]) {
        assert i < |s| - 1 ==> p(s[..|s| - 1][i]);
      }
    }
  }

  /** The weights of all elements together. */
  function Sum<T>(weight: T -> nat, s: seq<T>): nat
  {
    if s == [] then 0 else Sum(weight, s[..|s| - 1]) + weight(s[|s| - 1])
  }

  lemma {:induction false} SumUpdate<T>(weight: T -> nat, s: seq<T>, i: nat, x: T)
    requires i < |s|
    ensures Sum(weight, s[i := x]) + weight(s[i]) == Sum(weight, s) + weight(x)
  {
    var last := |s| - 1;
    if i == last {
      assert s[i := x][..last] == s[..last];
    } else {
      assert s[i := x][..last] == s[..last][i := x];
      SumUpdate(weight, s[..last], i, x);
    }
  }

  lemma {:induction false} SumIsMonotone<T>(weight: T -> nat, s: seq<T>, t: seq<T>)
    requires |s| == |t| && forall i :: 0 <= i < |s| ==> weight(s[i]) <= weight(t[i])
    ensures Sum(weight, s) <= Sum(weight, t)
  {
    if s != [] {
      SumIsMonotone(weight, s[..|s| - 1], t[..|t| - 1]);
    }
  }

  /** The numbers 0, 1, ..., n-1 in order. */
  function Iota(n: nat): (r: seq<nat>)
    ensures |r| == n && forall i :: 0 <= i < n ==> r[i] == i
  {
    seq(n, i => i)
  }
}
