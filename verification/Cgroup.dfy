/** Recursive removal of a cgroup directory tree (judge/src/actuators/Actuator.cpp, `cleanupCgroup`). */
module Cgroup {

  /** A directory with a number of its own and its sub-directories. */
  datatype Dir = Dir(id: nat, kids: seq<Dir>)

  function Ids(d: Dir): set<nat>
  {
    {d.id} + IdsOf(d.kids)
  }

  function IdsOf(ds: seq<Dir>): set<nat>
  {
    if ds == [] then {} else IdsOf(ds[..|ds| - 1]) + Ids(ds[|ds| - 1])
  }

  /** No two directories of the tree share a number. */
  predicate Distinct(d: Dir)
  {
    d.id !in IdsOf(d.kids) && AllDistinct(d.kids)
  }

  predicate AllDistinct(ds: seq<Dir>)
  {
    ds != [] ==>
      var front, last := ds[..|ds| - 1], ds[|ds| - 1];
      AllDistinct(front) && Distinct(last) && IdsOf(front) !! Ids(last)
  }

  /** Directory `a` contains directory `b`, at any depth. */
  predicate Contains(d: Dir, a: nat, b: nat)
  {
    (a == d.id && b in IdsOf(d.kids)) || SomeContains(d.kids, a, b)
  }

  predicate SomeContains(ds: seq<Dir>, a: nat, b: nat)
  {
    ds != [] && (SomeContains(ds[..|ds| - 1], a, b) || Contains(ds[|ds| - 1], a, b))
  }

  function PostOrder(d: Dir): seq<nat>
  {
    PostOrderOf(d.kids) + [d.id]
  }

  function PostOrderOf(ds: seq<Dir>): seq<nat>
  {
    if ds == [] then [] else PostOrderOf(ds[..|ds| - 1]) + PostOrder(ds[|ds| - 1])
  }

  lemma ContainsIds(d: Dir, a: nat, b: nat)
    requires Contains(d, a, b)
    ensures a in Ids(d) && b in IdsOf(d.kids)
    decreases d, 1
  {
    if SomeContains(d.kids, a, b) { SomeContainsIds(d.kids, a, b); }
  }

  lemma SomeContainsIds(ds: seq<Dir>, a: nat, b: nat)
    requires SomeContains(ds, a, b)
    ensures a in IdsOf(ds) && b in IdsOf(ds)
    decreases ds, 0
  {
    var front, last := ds[..|ds| - 1], ds[|ds| - 1];
    if SomeContains(front, a, b) { SomeContainsIds(front, a, b); } else { ContainsIds(last, a, b); }
  }

  lemma Single(d: Dir, a: nat, b: nat)
    ensures SomeContains([d], a, b) <==> Contains(d, a, b)
  {
    assert [d][..|[d]| - 1] == [];
  }

  /** Each directory of the tree occurs in the post-order exactly once. */
  lemma {:induction false} PostOrderIsComplete(d: Dir)
    requires Distinct(d)
    ensures forall x: nat :: multiset(PostOrder(d))[x] == if x in Ids(d) then 1 else 0
    decreases d, 0
  {
    PostOrdersAreComplete(d.kids);
  }

  lemma {:induction false} PostOrdersAreComplete(ds: seq<Dir>)
    requires AllDistinct(ds)
    ensures forall x: nat :: multiset(PostOrderOf(ds))[x] == if x in IdsOf(ds) then 1 else 0
    decreases ds, 1
  {
    if ds != [] {
      PostOrdersAreComplete(ds[..|ds| - 1]);
      PostOrderIsComplete(ds[|ds| - 1]);
    }
  }

  // ---- Attempt logs ----

  /** Every attempt is at a directory of `ids`, and no directory is attempted more than three times. */
  ghost predicate AtMostThrice(log: seq<nat>, ids: set<nat>)
  {
    forall x: nat :: multiset(log)[x] <= if x in ids then 3 else 0
  }

  /** No directory is attempted before one that it contains. */
  ghost predicate InnerFirst(log: seq<nat>, ds: seq<Dir>)
  {
    forall i, j :: 0 <= i < j < |log| ==> !SomeContains(ds, log[i], log[j])
  }

  ghost predicate Orderly(before: set<nat>, now: set<nat>, ds: seq<Dir>, log: seq<nat>)
  {
    before - IdsOf(ds) <= now <= before && AtMostThrice(log, IdsOf(ds)) && InnerFirst(log, ds)
  }

  ghost predicate Cleared(before: set<nat>, now: set<nat>, ds: seq<Dir>, log: seq<nat>)
  {
    now == before - IdsOf(ds) && log == PostOrderOf(ds)
  }

  lemma LogMembers(log: seq<nat>, ids: set<nat>)
    requires AtMostThrice(log, ids)
    ensures forall i :: 0 <= i < |log| ==> log[i] in ids
  {
    forall i | 0 <= i < |log|
      ensures log[i] in ids
    {
      assert log[i] in multiset(log);
    }
  }

  lemma AppendLogs(front: seq<Dir>, last: Dir, log: seq<nat>, more: seq<nat>)
    requires AllDistinct(front + [last])
    requires AtMostThrice(log, IdsOf(front)) && InnerFirst(log, front)
    requires AtMostThrice(more, Ids(last)) && InnerFirst(more, [last])
    ensures AtMostThrice(log + more, IdsOf(front + [last])) && InnerFirst(log + more, front + [last])
  {
    var ds := front + [last];
    assert ds[..|ds| - 1] == front;
    LogMembers(log, IdsOf(front));
    LogMembers(more, Ids(last));
    var both := log + more;
    forall i, j | 0 <= i < j < |both| && SomeContains(ds, both[i], both[j])
      ensures false
    {
      if SomeContains(front, both[i], both[j]) {
        SomeContainsIds(front, both[i], both[j]);
      } else {
        ContainsIds(last, both[i], both[j]);
        assert i >= |log| && both[i] == more[i - |log|] && both[j] == more[j - |log|];
        Single(last, both[i], both[j]);
      }
    }
  }

  lemma AppendOwnAttempts(d: Dir, log: seq<nat>, own: seq<nat>)
    requires Distinct(d) && AtMostThrice(log, IdsOf(d.kids)) && InnerFirst(log, d.kids)
    requires |own| <= 3 && forall i :: 0 <= i < |own| ==> own[i] == d.id
    ensures AtMostThrice(log + own, Ids(d)) && InnerFirst(log + own, [d])
  {
    LogMembers(log, IdsOf(d.kids));
    Repeated(own, d.id);
    var both := log + own;
    forall i, j | 0 <= i < j < |both| && SomeContains([d], both[i], both[j])
      ensures false
    {
      var a, b := both[i], both[j];
      Single(d, a, b);
      ContainsIds(d, a, b);
      if SomeContains(d.kids, a, b) {
        SomeContainsIds(d.kids, a, b);
      }
    }
  }

  lemma {:induction false} Repeated(s: seq<nat>, x: nat)
    requires forall i :: 0 <= i < |s| ==> s[i] == x
    ensures forall y: nat :: multiset(s)[y] == if y == x then |s| else 0
  {
    if s != [] {
      Repeated(s[..|s| - 1], x);
      assert s == s[..|s| - 1] + [x];
    }
  }

  lemma {:induction false} Prefix(ds: seq<Dir>, i: nat)
    requires AllDistinct(ds) && i <= |ds|
    ensures AllDistinct(ds[..i]) && IdsOf(ds[..i]) <= IdsOf(ds)
    ensures i < |ds| ==> Distinct(ds[i]) && IdsOf(ds[..i]) !! Ids(ds[i]) && Ids(ds[i]) <= IdsOf(ds)
    ensures i < |ds| ==> ds[..i + 1] == ds[..i] + [ds[i]] && IdsOf(ds[..i + 1]) == IdsOf(ds[..i]) + Ids(ds[i])
    ensures i < |ds| ==> PostOrderOf(ds[..i + 1]) == PostOrderOf(ds[..i]) + PostOrder(ds[i])
  {
    if i < |ds| {
      var front := ds[..|ds| - 1];
      assert ds[..i + 1][..i] == ds[..i];
      if i < |front| {
        Prefix(front, i);
        assert front[..i] == ds[..i] && front[i] == ds[i];
      }
    } else {
      assert ds[..i] == ds;
    }
  }

  /** The attempts in the first sub-directories, as attempts in all of them. */
  lemma {:induction false} Widen(ds: seq<Dir>, i: nat, log: seq<nat>)
    requires AllDistinct(ds) && i <= |ds| && AtMostThrice(log, IdsOf(ds[..i])) && InnerFirst(log, ds[..i])
    ensures AtMostThrice(log, IdsOf(ds)) && InnerFirst(log, ds)
    decreases |ds| - i
  {
    if i == |ds| {
      assert ds[..i] == ds;
    } else {
      Prefix(ds, i);
      Prefix(ds, i + 1);
      AppendLogs(ds[..i], ds[i], log, []);
      assert log + [] == log;
      Widen(ds, i + 1, log);
    }
  }

  /** The next sub-directory's attempts, `more`, follow those of the ones before it. */
  lemma NextKid(ds: seq<Dir>, i: nat, before: set<nat>, mid: set<nat>, now: set<nat>, log: seq<nat>, more: seq<nat>)
    requires AllDistinct(ds) && i < |ds| && Orderly(before, mid, ds[..i], log)
    requires mid - Ids(ds[i]) <= now <= mid && AtMostThrice(more, Ids(ds[i])) && InnerFirst(more, [ds[i]])
    ensures Orderly(before, now, ds[..i + 1], log + more)
    ensures Cleared(before, mid, ds[..i], log) && now == mid - Ids(ds[i]) && more == PostOrder(ds[i]) ==>
              Cleared(before, now, ds[..i + 1], log + more)
  {
    Prefix(ds, i);
    Prefix(ds, i + 1);
    AppendLogs(ds[..i], ds[i], log, more);
  }

  lemma KidIsPresent(ds: seq<Dir>, i: nat, before: set<nat>, now: set<nat>, log: seq<nat>)
    requires AllDistinct(ds) && i < |ds| && IdsOf(ds) <= before && Cleared(before, now, ds[..i], log)
    ensures Distinct(ds[i]) && Ids(ds[i]) <= now
  {
    Prefix(ds, i);
  }

  /** How `rmdir` ends: a directory with sub-directories left is never removed. */
  datatype Removal = Removed | NotEmpty | OtherError

  /** The last three attempts were at the same directory, which was not empty each time. */
  predicate GaveUp(log: seq<nat>, outcomes: seq<Removal>)
  {
    && |log| >= 3 && log[|log| - 1] == log[|log| - 2] == log[|log| - 3]
    && |outcomes| >= 3 && outcomes[|outcomes| - 1] == outcomes[|outcomes| - 2] == outcomes[|outcomes| - 3] == NotEmpty
  }

  lemma GaveUpAtLast(log: seq<nat>, more: seq<nat>, outcomes: seq<Removal>)
    requires GaveUp(more, outcomes)
    ensures GaveUp(log + more, outcomes)
  {}

  class FileSystem {
    /** `rmdir` of an existing directory without sub-directories always succeeds. */
    const reliable: bool
    var present: set<nat>
    /** How each attempt so far has ended. */
    var outcomes: seq<Removal>
    /** An exception is under way, which nobody catches for good: nothing may be attempted any more. */
    var raised: bool

    constructor (reliable: bool, present: set<nat>)
      ensures this.reliable == reliable && this.present == present && outcomes == [] && !raised
    {
      this.reliable, this.present, outcomes, raised := reliable, present, [], false;
    }

    method RemoveDirectory(d: Dir) returns (r: Removal)
      requires !raised
      modifies `present, `outcomes
      ensures outcomes == old(outcomes) + [r]
      ensures r.Removed? ==> d.id in old(present) && old(present) !! IdsOf(d.kids)
      ensures present == if r.Removed? then old(present) - {d.id} else old(present)
      ensures reliable && d.id in old(present) && old(present) !! IdsOf(d.kids) ==> r.Removed?
    {
      if d.id in present && present !! IdsOf(d.kids) {
        r := *;
        if reliable { r := Removed; }
      } else if * {
        r := NotEmpty;
      } else {
        r := OtherError;
      }
      outcomes := outcomes + [r];
      if r.Removed? {
        present := present - {d.id};
      }
    }

    /** Attempts at the directory itself: as long as it is not empty, but no more than three; another error
        ends them quietly. */
    method RemoveItself(d: Dir) returns (ok: bool, own: seq<nat>)
      requires !raised
      modifies `present, `outcomes, `raised
      ensures raised == !ok
      ensures 1 <= |own| <= 3 && forall k :: 0 <= k < |own| ==> own[k] == d.id
      ensures |outcomes| == |old(outcomes)| + |own| && old(outcomes) <= outcomes
      ensures forall k :: |old(outcomes)| <= k < |outcomes| - 1 ==> outcomes[k] == NotEmpty
      ensures ok <==> outcomes[|outcomes| - 1] != NotEmpty
      ensures !ok ==> |own| == 3
      ensures present == old(present) || present == old(present) - {d.id}
      ensures reliable && d.id in old(present) && old(present) !! IdsOf(d.kids) ==>
                ok && own == [d.id] && present == old(present) - {d.id}
    {
      own := [];
      while |own| < 3
        invariant |own| <= 3 && forall k :: 0 <= k < |own| ==> own[k] == d.id
        invariant !raised && present == old(present) && |outcomes| == |old(outcomes)| + |own| && old(outcomes) <= outcomes
        invariant forall k :: |old(outcomes)| <= k < |outcomes| ==> outcomes[k] == NotEmpty
        invariant reliable && d.id in present && present !! IdsOf(d.kids) ==> own == []
      {
        var r := RemoveDirectory(d);
        own := own + [d.id];
        if !r.NotEmpty? {
          return true, own;
        }
      }
      raised := true;
      return false, own;
    }

    /** A sub-directory, if it exists. */
    method CleanupIfPresent(d: Dir) returns (ok: bool, log: seq<nat>)
      requires Distinct(d) && !raised
      modifies `present, `outcomes, `raised
      ensures raised == !ok
      ensures old(present) - Ids(d) <= present <= old(present)
      ensures AtMostThrice(log, Ids(d)) && InnerFirst(log, [d])
      ensures !ok ==> GaveUp(log, outcomes)
      ensures reliable && Ids(d) <= old(present) ==> ok && present == old(present) - Ids(d) && log == PostOrder(d)
      decreases d, 1
    {
      if d.id in present {
        ok, log := Cleanup(d);
      } else {
        ok, log := true, [];
      }
    }

    /** The next sub-directory. */
    method CleanupKid(ds: seq<Dir>, i: nat, ghost before: set<nat>, log: seq<nat>) returns (ok: bool, log': seq<nat>)
      requires AllDistinct(ds) && i < |ds| && Orderly(before, present, ds[..i], log) && !raised
      modifies `present, `outcomes, `raised
      ensures raised == !ok
      ensures Orderly(before, present, ds[..i + 1], log')
      ensures !ok ==> GaveUp(log', outcomes)
      ensures reliable && IdsOf(ds) <= before && Cleared(before, old(present), ds[..i], log) ==>
                ok && Cleared(before, present, ds[..i + 1], log')
      decreases ds, 0
    {
      ghost var mid := present;
      Prefix(ds, i);
      var more;
      ok, more := CleanupIfPresent(ds[i]);
      if reliable && IdsOf(ds) <= before && Cleared(before, mid, ds[..i], log) {
        KidIsPresent(ds, i, before, mid, log);
      }
      NextKid(ds, i, before, mid, present, log, more);
      if !ok {
        GaveUpAtLast(log, more, outcomes);
      }
      log' := log + more;
    }

    /** The sub-directories in turn. */
    method CleanupKids(ds: seq<Dir>) returns (ok: bool, log: seq<nat>)
      requires AllDistinct(ds) && !raised
      modifies `present, `outcomes, `raised
      ensures raised == !ok
      ensures Orderly(old(present), present, ds, log)
      ensures !ok ==> GaveUp(log, outcomes)
      ensures reliable && IdsOf(ds) <= old(present) ==> ok && Cleared(old(present), present, ds, log)
      decreases ds, 1
    {
      log := [];
      for i := 0 to |ds|
        invariant Orderly(old(present), present, ds[..i], log) && !raised
        invariant reliable && IdsOf(ds) <= old(present) ==> Cleared(old(present), present, ds[..i], log)
      {
        ok, log := CleanupKid(ds, i, old(present), log);
        if !ok {
          Widen(ds, i + 1, log);
          Prefix(ds, i + 1);
          return false, log;
        }
      }
      assert ds[..|ds|] == ds;
      return true, log;
    }

    /** `cleanupCgroup`: no directory is attempted before the attempts inside it are over, or more than
        three times, and a reliable file system loses the whole tree in one attempt for each directory.
        `false` is the exception: of a missing directory, or of one, here or deeper, that was not empty at three
        attempts in a row, with which everything ends. */
    method Cleanup(d: Dir) returns (ok: bool, log: seq<nat>)
      requires Distinct(d) && !raised
      modifies `present, `outcomes, `raised
      ensures raised == !ok
      ensures old(present) - Ids(d) <= present <= old(present)
      ensures AtMostThrice(log, Ids(d)) && InnerFirst(log, [d])
      ensures d.id !in old(present) ==> !ok && log == []
      ensures d.id in old(present) && !ok ==> GaveUp(log, outcomes)
      ensures ok ==> log != [] && log[|log| - 1] == d.id && outcomes != [] && outcomes[|outcomes| - 1] != NotEmpty
      ensures reliable && Ids(d) <= old(present) ==> ok && present == old(present) - Ids(d) && log == PostOrder(d)
      decreases d, 0
    {
      if d.id !in present {
        raised := true;
        return false, [];
      }
      ok, log := CleanupKids(d.kids);
      var own := [];
      if ok {
        ok, own := RemoveItself(d);
      }
      AppendOwnAttempts(d, log, own);
      log := log + own;
    }
  }
}
