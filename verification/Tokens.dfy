/** Session tokens (app/src/services/TokenManager.cpp): the two kinds of Redis keys, and what runs of
    their single Redis commands guarantee.

    A signature is an injective function of the claims, so a token signed here is its claims.  Time is in
    ticks; `iat` and `exp` are in whole seconds (sections 4.1.6 and 4.1.4 of RFC 7519).  A token is refused
    once the clock has passed `exp`, and a key is gone once the clock has passed its expiry. */
module TokenProtocol {
  import opened Runs
  import opened Wrappers

  const TICKS := 1000

  /** `sub`, a private user-name claim, `iat` and `exp`. */
  datatype Claims = Claims(sub: string, name: string, iat: int, exp: int)

  /** `Foreign`: readable, but without a valid signature or issuer of this system. */
  datatype Token = Issued(claims: Claims) | Foreign(claims: Claims, text: string) | Malformed(text: string)

  /** `until` is when a key disappears; `None` is never. */
  datatype Active = Active(token: Token, until: Option<int>)

  datatype Store = Store(active: map<string, Active>, black: map<Token, Option<int>>)

  predicate Alive(until: Option<int>, now: int)
  {
    until.None? || now <= until.value
  }

  predicate Blacklisted(s: Store, t: Token, now: int)
  {
    t in s.black && Alive(s.black[t], now)
  }

  predicate IsActive(s: Store, user: string, t: Token, now: int)
  {
    user in s.active && Alive(s.active[user].until, now) && s.active[user].token == t
  }

  function Deadline(t: Token): int
    requires !t.Malformed?
  {
    t.claims.exp * TICKS
  }

  /** What `verifyToken` accepts. */
  predicate Verifies(s: Store, t: Token, now: int)
  {
    t.Issued? && now <= Deadline(t) && !Blacklisted(s, t, now) && IsActive(s, t.claims.sub, t, now)
  }

  /** The expiry given to a key.  A time to live of zero means none here; where it is refused instead, the
      command has failed. */
  function Until(now: int, seconds: int): Option<int>
  {
    if seconds == 0 then None else Some(now + seconds * TICKS)
  }

  function PutActive(s: Store, user: string, t: Token, now: int, seconds: int): Store
  {
    s.(active := s.active[user := Active(t, Until(now, seconds))])
  }

  function PutBlack(s: Store, t: Token, now: int, seconds: int): Store
  {
    s.(black := s.black[t := Until(now, seconds)])
  }

  function DropActive(s: Store, user: string): Store
  {
    s.(active := s.active - {user})
  }

  /** Whole seconds from one reading of the clock to the expiry of a token. */
  function SecondsLeft(t: Token, readAt: int): int
    requires !t.Malformed?
  {
    (Deadline(t) - readAt) / TICKS
  }

  // ---- Runs of single Redis commands, arbitrarily interleaved ----

  datatype World = World(now: int, store: Store)

  /** `Issue` and `Ban` may use clock readings that are older than the command itself. */
  datatype Event =
    | Pass(ticks: nat)
    | Issue(t: Token, lifetime: nat)
    | Ban(t: Token, readAt: int)
    | Drop(user: string)

  function Step(w: World, e: Event): World
  {
    match e
    case Pass(d) => w.(now := w.now + d)
    case Issue(t, lifetime) => if t.Issued? then w.(store := PutActive(w.store, t.claims.sub, t, w.now, lifetime)) else w
    case Ban(t, readAt) =>
      if t.Malformed? || readAt > w.now || Deadline(t) <= readAt then w
      else w.(store := PutBlack(w.store, t, w.now, SecondsLeft(t, readAt)))
    case Drop(user) => w.(store := DropActive(w.store, user))
  }

  /** The blacklist covers the token until less than a second before it expires. */
  predicate Covered(s: Store, t: Token)
    requires !t.Malformed?
  {
    t in s.black && (s.black[t].None? || s.black[t].value > Deadline(t) - TICKS)
  }

  /** The token is covered, and not active unless it has been issued in the meantime. */
  predicate Revoked(s: Store, t: Token, reissued: bool)
  {
    t.Issued? && Covered(s, t)
    && (!reissued ==> !(t.claims.sub in s.active && s.active[t.claims.sub].token == t))
  }

  lemma BanCovers(s: Store, t: Token, readAt: int, now: int)
    requires !t.Malformed? && readAt <= now && readAt < Deadline(t)
    ensures Covered(PutBlack(s, t, now, SecondsLeft(t, readAt)), t)
  {
    var left := Deadline(t) - readAt;
    assert left < (left / TICKS + 1) * TICKS;
  }

  predicate Reissues(e: Event, t: Token) { e.Issue? && e.t == t }

  lemma StepKeepsRevoked(w: World, e: Event, t: Token, reissued: bool)
    requires Revoked(w.store, t, reissued)
    ensures Revoked(Step(w, e).store, t, reissued || Reissues(e, t))
    ensures Step(w, e).now >= w.now
  {
    if e.Ban? && e.t == t && e.readAt <= w.now && e.readAt < Deadline(t) {
      BanCovers(w.store, t, e.readAt, w.now);
    }
  }

  lemma {:induction false} RunKeepsRevoked(w: World, run: seq<Event>, t: Token)
    requires Revoked(w.store, t, false)
    ensures Revoked(Exec(Step, w, run).store, t, exists e :: e in run && Reissues(e, t))
  {
    if run != [] {
      var front, last := run[..|run| - 1], run[|run| - 1];
      RunKeepsRevoked(w, front, t);
      assert run == front + [last];
      StepKeepsRevoked(Exec(Step, w, front), last, t, exists e :: e in front && Reissues(e, t));
    }
  }

  // ---- The sessions of other users ----

  /** Nothing about the tokens of other subjects changes, at any time. */
  ghost predicate OthersKeep(before: Store, after: Store, sub: string)
  {
    forall u: Token, at: int :: !u.Malformed? && u.claims.sub != sub ==>
      && (IsActive(after, u.claims.sub, u, at) <==> IsActive(before, u.claims.sub, u, at))
      && (Blacklisted(after, u, at) <==> Blacklisted(before, u, at))
      && (Verifies(after, u, at) <==> Verifies(before, u, at))
  }

  lemma CommandsSpareOthers(s: Store, t: Token, now: int, seconds: int)
    requires !t.Malformed?
    ensures OthersKeep(s, PutActive(s, t.claims.sub, t, now, seconds), t.claims.sub)
    ensures OthersKeep(s, PutBlack(s, t, now, seconds), t.claims.sub)
    ensures OthersKeep(s, DropActive(s, t.claims.sub), t.claims.sub)
  {}

  lemma OthersKeepOn(a: Store, b: Store, c: Store, sub: string)
    requires OthersKeep(a, b, sub) && OthersKeep(b, c, sub)
    ensures OthersKeep(a, c, sub)
  {}

  /** An issue or a drop concerns the active token of one subject, a ban one token. */
  predicate Concerns(e: Event, u: Token)
    requires u.Issued?
  {
    match e
    case Pass(_) => false
    case Issue(t, _) => t.Issued? && t.claims.sub == u.claims.sub
    case Ban(t, _) => t == u
    case Drop(user) => user == u.claims.sub
  }

  lemma StepSparesOthers(w: World, e: Event, u: Token, at: int)
    requires u.Issued? && !Concerns(e, u)
    ensures Verifies(Step(w, e).store, u, at) <==> Verifies(w.store, u, at)
    ensures IsActive(Step(w, e).store, u.claims.sub, u, at) <==> IsActive(w.store, u.claims.sub, u, at)
  {}

  /** Over every run of commands about other subjects and other tokens, a token verifies at any one time
      exactly when it would have without them. */
  lemma {:induction false} RunSparesOthers(w: World, run: seq<Event>, u: Token, at: int)
    requires u.Issued? && forall e :: e in run ==> !Concerns(e, u)
    ensures Verifies(Exec(Step, w, run).store, u, at) <==> Verifies(w.store, u, at)
  {
    if run != [] {
      var front, last := run[..|run| - 1], run[|run| - 1];
      assert run == front + [last] && last in run;
      RunSparesOthers(w, front, u, at);
      StepSparesOthers(Exec(Step, w, front), last, u, at);
    }
  }

  /** The three kinds of command, by what they do to tokens of the same subject: an issue makes its token
      the only active one, as long as its key lives; a ban leaves the active token alone; a drop leaves no
      active token. */
  lemma CommandsOnOwnSubject(w: World, u: Token, t: Token, lifetime: nat, readAt: int, at: int)
    requires u.Issued? && t.Issued? && u.claims.sub == t.claims.sub
    ensures IsActive(Step(w, Issue(t, lifetime)).store, u.claims.sub, u, at)
       <==> u == t && (lifetime == 0 || at <= w.now + lifetime * TICKS)
    ensures Blacklisted(Step(w, Issue(t, lifetime)).store, u, at) <==> Blacklisted(w.store, u, at)
    ensures IsActive(Step(w, Ban(t, readAt)).store, u.claims.sub, u, at) <==> IsActive(w.store, u.claims.sub, u, at)
    ensures !IsActive(Step(w, Drop(t.claims.sub)).store, u.claims.sub, u, at)
    ensures Blacklisted(Step(w, Drop(t.claims.sub)).store, u, at) <==> Blacklisted(w.store, u, at)
  {}

  predicate VerifiesAfter(w: World, run: seq<Event>, t: Token)
  {
    var later := Exec(Step, w, run);
    Verifies(later.store, t, later.now)
  }

  /** After a token has been banned and dropped, it verifies again only if the identical string is issued
      again, and even then only in the last second before it expires. */
  lemma RevokedStaysRevoked(w: World, run: seq<Event>, t: Token)
    requires Revoked(w.store, t, false) && VerifiesAfter(w, run, t)
    ensures exists e :: e in run && Reissues(e, t)
    ensures Deadline(t) - TICKS < Exec(Step, w, run).now <= Deadline(t)
  {
    RunKeepsRevoked(w, run, t);
  }

  // ---- An invalidation is two commands, with any others in between ----

  lemma {:induction false} RunKeepsCovered(w: World, run: seq<Event>, t: Token)
    requires t.Issued? && Covered(w.store, t)
    ensures Covered(Exec(Step, w, run).store, t) && Exec(Step, w, run).now >= w.now
  {
    if run != [] {
      var front, last := run[..|run| - 1], run[|run| - 1];
      RunKeepsCovered(w, front, t);
      StepKeepsRevoked(Exec(Step, w, front), last, t, true);
    }
  }

  function Invalidated(w: World, readAt: int, t: Token, between: seq<Event>): World
    requires t.Issued?
  {
    Step(Exec(Step, Step(w, Ban(t, readAt)), between), Drop(t.claims.sub))
  }

  lemma BanThenDrop(w: World, readAt: int, t: Token, between: seq<Event>)
    requires t.Issued? && readAt <= w.now && readAt < Deadline(t)
    ensures Revoked(Invalidated(w, readAt, t, between).store, t, false)
  {
    BanCovers(w.store, t, readAt, w.now);
    RunKeepsCovered(Step(w, Ban(t, readAt)), between, t);
  }

  /** Over every interleaving of commands, those within the invalidation included: an invalidated token
      verifies again only if the identical string is issued after it, in the last second of its life. */
  lemma InvalidatedStaysInvalid(w: World, readAt: int, t: Token, between: seq<Event>, run: seq<Event>)
    requires t.Issued? && readAt <= w.now && readAt < Deadline(t)
    requires VerifiesAfter(Invalidated(w, readAt, t, between), run, t)
    ensures exists e :: e in run && Reissues(e, t)
    ensures Deadline(t) - TICKS < Exec(Step, Invalidated(w, readAt, t, between), run).now <= Deadline(t)
  {
    BanThenDrop(w, readAt, t, between);
    RevokedStaysRevoked(Invalidated(w, readAt, t, between), run, t);
  }

  // ---- Exactly when an invalidated token can verify again ----

  predicate Bans(e: Event, t: Token) { e.Ban? && e.t == t }

  predicate NeverBans(run: seq<Event>, t: Token)
  {
    forall e :: e in run ==> !Bans(e, t)
  }

  /** The ban is over before the token expires. */
  predicate LapsesEarly(s: Store, t: Token)
    requires t.Issued?
  {
    t in s.black && s.black[t].Some? && s.black[t].value < Deadline(t)
  }

  /** A ban lapses early when whole seconds are cut off by more than it was delayed. */
  lemma BanLapsesEarly(s: Store, t: Token, readAt: int, now: int)
    requires t.Issued? && readAt <= now && readAt < Deadline(t)
    ensures LapsesEarly(PutBlack(s, t, now, SecondsLeft(t, readAt)), t)
       <==> Deadline(t) - readAt >= TICKS && now - readAt < (Deadline(t) - readAt) % TICKS
  {
    var left := Deadline(t) - readAt;
    assert left == left / TICKS * TICKS + left % TICKS;
  }

  lemma {:induction false} BanStays(w: World, run: seq<Event>, t: Token)
    requires t.Issued? && t in w.store.black && NeverBans(run, t)
    ensures var later := Exec(Step, w, run);
      t in later.store.black && later.store.black[t] == w.store.black[t] && later.now >= w.now
  {
    if run != [] {
      var front, last := run[..|run| - 1], run[|run| - 1];
      assert run == front + [last] && last in run;
      BanStays(w, front, t);
    }
  }

  /** Issue again, and wait for the very end of the token's life. */
  lemma ReissueAndWait(w: World, t: Token, lifetime: nat) returns (run: seq<Event>)
    requires t.Issued? && LapsesEarly(w.store, t) && w.now <= Deadline(t)
    requires lifetime == 0 || w.now + lifetime * TICKS >= Deadline(t)
    ensures run == [Issue(t, lifetime)] + [Pass(Deadline(t) - w.now)] && NeverBans(run, t) && VerifiesAfter(w, run, t)
  {
    run := [Issue(t, lifetime)] + [Pass(Deadline(t) - w.now)];
    ExecTwo(Step, w, Issue(t, lifetime), Pass(Deadline(t) - w.now));
  }

  /** If nobody bans it again, a revoked token can come back exactly when its ban lapses early. */
  lemma RevokedReturnsExactly(w: World, t: Token)
    requires Revoked(w.store, t, false)
    ensures (exists run :: NeverBans(run, t) && VerifiesAfter(w, run, t))
       <==> w.now <= Deadline(t) && LapsesEarly(w.store, t)
  {
    forall run | NeverBans(run, t) && VerifiesAfter(w, run, t)
      ensures w.now <= Deadline(t) && LapsesEarly(w.store, t)
    {
      BanStays(w, run, t);
    }
    if w.now <= Deadline(t) && LapsesEarly(w.store, t) {
      var run := ReissueAndWait(w, t, 0);
    }
  }

  /** For an invalidation whose commands interleave with anything but further bans of the token, the token
      can verify again exactly when it outlives the invalidation and more is cut off from its remaining
      time than passed between the reading of the clock and the ban. */
  lemma InvalidatedReturnsExactly(w: World, readAt: int, t: Token, between: seq<Event>)
    requires t.Issued? && readAt <= w.now && readAt < Deadline(t) && NeverBans(between, t)
    ensures var after := Invalidated(w, readAt, t, between);
      (exists run :: NeverBans(run, t) && VerifiesAfter(after, run, t))
      <==> after.now <= Deadline(t) && Deadline(t) - readAt >= TICKS && w.now - readAt < (Deadline(t) - readAt) % TICKS
  {
    var banned := Step(w, Ban(t, readAt));
    BanThenDrop(w, readAt, t, between);
    BanLapsesEarly(w.store, t, readAt, w.now);
    BanStays(banned, between, t);
    RevokedReturnsExactly(Invalidated(w, readAt, t, between), t);
  }

  /** Invalidated at one moment, and issued again at once with a key that lasts as long as the token: it
      verifies again at some later moment exactly when more than a second, and not a whole number of
      seconds, was left. */
  lemma ReissueVerifiesExactly(w: World, t: Token, lifetime: nat)
    requires t.Issued? && w.now < Deadline(t)
    requires lifetime == 0 || w.now + lifetime * TICKS >= Deadline(t)
    ensures (exists d :: VerifiesAfter(Invalidated(w, w.now, t, []), [Issue(t, lifetime)] + [Pass(d)], t))
       <==> Deadline(t) - w.now > TICKS && (Deadline(t) - w.now) % TICKS != 0
  {
    var after := Invalidated(w, w.now, t, []);
    InvalidatedReturnsExactly(w, w.now, t, []);
    BanThenDrop(w, w.now, t, []);
    RevokedReturnsExactly(after, t);
    forall d | VerifiesAfter(after, [Issue(t, lifetime)] + [Pass(d)], t)
      ensures LapsesEarly(after.store, t)
    {
      assert NeverBans([Issue(t, lifetime)] + [Pass(d)], t);
    }
    if LapsesEarly(after.store, t) {
      var run := ReissueAndWait(after, t, lifetime);
    }
  }

  /** A witness: banned half a second after its issue and issued again at once, a token verifies once more
      at the end of its life. */
  lemma ReissuedTokenComesBack(sub: string, name: string)
    ensures var t := Issued(Claims(sub, name, 0, 1800));
      VerifiesAfter(Invalidated(World(500, Store(map[], map[])), 500, t, []), [Issue(t, 1800)] + [Pass(1_799_500)], t)
  {
    var t := Issued(Claims(sub, name, 0, 1800));
    var w := World(500, Store(map[], map[]));
    BanLapsesEarly(w.store, t, 500, 500);
    var run := ReissueAndWait(Invalidated(w, 500, t, []), t, 1800);
  }

  // ---- ... and when it may also be banned again ----

  /** Nothing can bring the token back: it has expired, or its last second has begun under a ban that
      covers all of it. */
  predicate Sealed(w: World, t: Token)
    requires t.Issued?
  {
    Covered(w.store, t) && (w.now > Deadline(t) || (w.now >= Deadline(t) - TICKS && !LapsesEarly(w.store, t)))
  }

  lemma {:induction false} SealedForGood(w: World, run: seq<Event>, t: Token)
    requires t.Issued? && Sealed(w, t)
    ensures Sealed(Exec(Step, w, run), t)
  {
    if run != [] {
      var front, last := run[..|run| - 1], run[|run| - 1];
      SealedForGood(w, front, t);
      var mid := Exec(Step, w, front);
      StepKeepsRevoked(mid, last, t, true);
      if Bans(last, t) && last.readAt <= mid.now && last.readAt < Deadline(t) {
        BanLapsesEarly(mid.store, t, last.readAt, mid.now);
      }
    }
  }

  /** Over all runs, in which anybody may ban the token again: it can come back exactly when more than a
      second is left, or its ban lapses early. */
  lemma RevokedReturnsOnSomeRunExactly(w: World, t: Token)
    requires Revoked(w.store, t, false)
    ensures (exists run :: VerifiesAfter(w, run, t))
       <==> w.now <= Deadline(t) && (Deadline(t) - w.now > TICKS || LapsesEarly(w.store, t))
  {
    if Sealed(w, t) {
      forall run
        ensures !VerifiesAfter(w, run, t)
      {
        SealedForGood(w, run, t);
      }
    } else if LapsesEarly(w.store, t) {
      var run := ReissueAndWait(w, t, 0);
    } else {
      var delay := if (Deadline(t) - w.now) % TICKS == 0 then 1 else 0;
      var banned := Exec(Step, w, [Pass(delay)] + [Ban(t, w.now + delay)]);
      ExecTwo(Step, w, Pass(delay), Ban(t, w.now + delay));
      BanLapsesEarly(w.store, t, w.now + delay, w.now + delay);
      var run := ReissueAndWait(banned, t, 0);
      ExecConcat(Step, w, [Pass(delay)] + [Ban(t, w.now + delay)], run);
      assert VerifiesAfter(w, [Pass(delay)] + [Ban(t, w.now + delay)] + run, t);
    }
  }

  // ---- A refresh is a ban, a drop and an issue, with any other commands in between ----

  /** The refreshed token verifies at its issue if it differs from the old one; an equal one verifies only
      if the ban has lapsed by then, in the last second of its life. */
  lemma RefreshInterleaved(w: World, readAt: int, t: Token, between: seq<Event>, more: seq<Event>, next: Token, lifetime: nat)
    requires t.Issued? && next.Issued? && next.claims.sub == t.claims.sub
    requires readAt <= w.now && readAt < Deadline(t)
    requires next != t ==> next !in w.store.black && NeverBans(between, next) && NeverBans(more, next)
    ensures var issued := Step(Exec(Step, Invalidated(w, readAt, t, between), more), Issue(next, lifetime));
      && (next != t ==> (Verifies(issued.store, next, issued.now) <==> issued.now <= Deadline(next)))
      && (next == t && Verifies(issued.store, t, issued.now) ==> Deadline(t) - TICKS < issued.now <= Deadline(t))
  {
    var after := Invalidated(w, readAt, t, between);
    if next != t {
      NeverBanned(Step(w, Ban(t, readAt)), between, next);
      NeverBanned(after, more, next);
    } else {
      BanThenDrop(w, readAt, t, between);
      RunKeepsCovered(after, more, t);
    }
  }

  lemma {:induction false} NeverBanned(w: World, run: seq<Event>, t: Token)
    requires t !in w.store.black && NeverBans(run, t)
    ensures t !in Exec(Step, w, run).store.black
  {
    if run != [] {
      var front, last := run[..|run| - 1], run[|run| - 1];
      assert run == front + [last] && last in run;
      NeverBanned(w, front, t);
    }
  }
}
