/** The token manager object (app/src/services/TokenManager.cpp): each call as a sequence of clock readings
    and Redis commands between which time passes, with any command possibly failing.  Commands of other
    calls in between are the subject of `TokenProtocol`. */
module TokenManagerObject {
  import opened TokenProtocol
  import opened Wrappers

  datatype User = User(uuid: string, name: string)

  /** No later in either claim. */
  predicate NotNewer(u: Token, t: Token)
    requires u.Issued? && t.Issued?
  {
    u.claims.iat <= t.claims.iat && u.claims.exp <= t.claims.exp
  }

  predicate StillActive(s: Store, user: string, now: int)
  {
    user in s.active && Alive(s.active[user].until, now)
  }

  class TokenManager {
    /** JWT_EXPIRE, in seconds. */
    const lifetime: nat
    var now: int
    var store: Store
    /** How many Redis commands have failed. */
    var failures: nat
    /** Every token signed here so far. */
    ghost var issued: set<Token>

    /** The clock was read for `iat`, then for `exp`, and has not gone back since. */
    ghost predicate Stamped(t: Token)
      reads this
    {
      t.Issued? && t.claims.iat <= t.claims.exp - lifetime && (t.claims.exp - lifetime) * TICKS <= now
    }

    /** Issued tokens carry the seconds of their issue, and the active one of a user is the latest. */
    ghost predicate Valid()
      reads this
    {
      && (forall t :: t in issued ==> Stamped(t))
      && (forall t :: t in store.black && t.Issued? ==> t in issued)
      && (forall user :: user in store.active ==>
            var a := store.active[user].token; a in issued && a.claims.sub == user)
      && (forall t :: t in issued && t.claims.sub in store.active ==>
            NotNewer(t, store.active[t.claims.sub].token))
    }

    constructor (lifetime: nat, now: int)
      ensures Valid() && this.lifetime == lifetime && this.now == now
      ensures store == Store(map[], map[]) && issued == {} && failures == 0
    {
      this.lifetime, this.now, failures := lifetime, now, 0;
      store, issued := Store(map[], map[]), {};
    }

    method TimePasses()
      requires Valid()
      modifies `now
      ensures Valid() && now >= old(now)
    {
      var ticks :| ticks >= 0;
      now := now + ticks;
    }

    /** Whether a Redis command goes through. */
    method Command() returns (ok: bool)
      modifies `failures
      ensures failures == old(failures) + if ok then 0 else 1
    {
      ok := *;
      failures := failures + if ok then 0 else 1;
    }

    /** Sign claims and make the token the user's active one; `None` if Redis fails.  The clock is read
        once for `iat` and again for `exp`. */
    method GenerateToken(user: User) returns (r: Option<Token>)
      requires Valid()
      modifies `now, `store, `issued, `failures
      ensures Valid() && now >= old(now) && failures >= old(failures)
      ensures r.Some? <==> failures == old(failures)
      ensures r.Some? ==>
        && r.value.Issued? && r.value.claims.sub == user.uuid && r.value.claims.name == user.name
        && r.value.claims.iat == old(now) / TICKS
        && r.value.claims.iat + lifetime <= r.value.claims.exp <= now / TICKS + lifetime
        && store == PutActive(old(store), user.uuid, r.value, now, lifetime)
        && issued == old(issued) + {r.value}
      ensures r.Some? ==> forall u: Token, at: int :: u.Issued? && u.claims.sub == user.uuid ==>
        (IsActive(store, user.uuid, u, at) <==> u == r.value && (lifetime == 0 || at <= now + lifetime * TICKS))
      ensures r.None? ==> store == old(store) && issued == old(issued)
      ensures OthersKeep(old(store), store, user.uuid)
    {
      var iat := now / TICKS;
      TimePasses();
      var exp := (now + lifetime * TICKS) / TICKS;
      var token := Issued(Claims(user.uuid, user.name, iat, exp));
      assert exp == now / TICKS + lifetime;
      forall u | u in issued
        ensures NotNewer(u, token)
      {
        assert u.claims.exp - lifetime <= iat;
      }
      TimePasses();
      var ok := Command();
      if !ok {
        return None;
      }
      CommandsSpareOthers(store, token, now, lifetime);
      store := PutActive(store, user.uuid, token, now, lifetime);
      issued := issued + {token};
      return Some(token);
    }

    /** The user of a token that verifies, which is then one signed here and the only one of that user; a
        failing Redis refuses it. */
    method VerifyToken(t: Token) returns (r: Option<User>)
      requires Valid()
      modifies `failures
      ensures Valid() && failures >= old(failures)
      ensures r.Some? <==> Verifies(store, t, now) && failures == old(failures)
      ensures r.Some? ==> r.value == User(t.claims.sub, t.claims.name) && t in issued
      ensures r.Some? ==> forall u :: Verifies(store, u, now) && u.claims.sub == t.claims.sub ==> u == t
    {
      if !t.Issued? || now > Deadline(t) {
        return None;
      }
      var ok := Command();
      if !ok || Blacklisted(store, t, now) {
        return None;
      }
      ok := Command();
      var user := t.claims.sub;
      if !ok || user !in store.active || !Alive(store.active[user].until, now) || store.active[user].token != t {
        return None;
      }
      return Some(User(user, t.claims.name));
    }

    /** Ban a token until it expires and drop its subject's active token.  At and after its expiry neither
        is done.  `false` also for an unreadable token, a failing Redis, or a subject without active token.
        The signature is not looked at: a foreign token, too, ends the session of the subject it names. */
    method InvalidateToken(t: Token) returns (ok: bool, ghost bannedAt: int)
      requires Valid() && (t.Issued? ==> t in issued)
      modifies `now, `store, `failures
      ensures Valid() && old(now) <= bannedAt <= now && failures >= old(failures)
      ensures ok <==> !t.Malformed?
                      && (old(now) >= Deadline(t) || (failures == old(failures) && StillActive(old(store), t.claims.sub, now)))
      ensures ok ==> failures == old(failures)
      ensures ok && old(now) < Deadline(t) ==>
        store == DropActive(PutBlack(old(store), t, bannedAt, SecondsLeft(t, old(now))), t.claims.sub)
      ensures ok && old(now) < Deadline(t) ==> forall u :: Verifies(store, u, now) ==> u.claims.sub != t.claims.sub
      ensures ok && old(now) >= Deadline(t) ==> store == old(store) && (Verifies(store, t, now) ==> now == Deadline(t))
      ensures ok && t.Issued? && old(now) < Deadline(t) ==> Revoked(store, t, false)
      ensures !ok && store != old(store) ==>
        !t.Malformed? && old(now) < Deadline(t) && store == PutBlack(old(store), t, bannedAt, SecondsLeft(t, old(now)))
      ensures if t.Malformed? then store == old(store) else OthersKeep(old(store), store, t.claims.sub)
    {
      ok, bannedAt := false, now;
      if t.Malformed? {
        return;
      }
      if Deadline(t) <= now {
        return true, now;
      }
      var ttl := SecondsLeft(t, now);
      TimePasses();
      bannedAt := now;
      var banned := Command();
      if !banned {
        return;
      }
      BanCovers(store, t, old(now), now);
      CommandsSpareOthers(store, t, now, ttl);
      store := PutBlack(store, t, now, ttl);
      TimePasses();
      var user := t.claims.sub;
      var dropped := Command();
      if !dropped || user !in store.active || !Alive(store.active[user].until, now) {
        return;
      }
      CommandsSpareOthers(store, t, now, ttl);
      OthersKeepOn(old(store), store, DropActive(store, user), user);
      store := DropActive(store, user);
      ok := true;
    }

    /** A refreshed token keeps user id and name.  It verifies, until it expires, if it differs from the old
        one; the very same string is signed when the call ends within the second of the old token's issue,
        never when it starts after it, and is refused but for the last second of its life. */
    method RefreshToken(t: Token) returns (r: Option<Token>)
      requires Valid() && (t.Issued? ==> t in issued)
      modifies `now, `store, `issued, `failures
      ensures Valid() && failures >= old(failures)
      ensures r.Some? ==>
        && old(Verifies(store, t, now)) && r.value.Issued?
        && r.value.claims.sub == t.claims.sub && r.value.claims.name == t.claims.name
        && (r.value != t ==> (Verifies(store, r.value, now) <==> now <= Deadline(r.value)))
        && (r.value == t && Verifies(store, t, now) ==> Deadline(t) - TICKS < now <= Deadline(t))
        && (now / TICKS == t.claims.iat ==> r.value == t)
        && (r.value == t ==> old(now) / TICKS == t.claims.iat)
      ensures !old(Verifies(store, t, now)) ==> r.None? && store == old(store)
      ensures r.Some? && now < Deadline(t) ==> Covered(store, t)
      ensures r.Some? ==> failures == old(failures)
      ensures r.None? && old(Verifies(store, t, now)) && failures == old(failures) ==>
        !StillActive(old(store), t.claims.sub, now)
      ensures if t.Malformed? then store == old(store) else OthersKeep(old(store), store, t.claims.sub)
    {
      var user := VerifyToken(t);
      if user.None? {
        return None;
      }
      ghost var earlier, banned := issued, store.black.Keys;
      TimePasses();
      ghost var readAt := now;
      var invalidated, _ := InvalidateToken(t);
      if !invalidated {
        return None;
      }
      assert store.black.Keys <= banned + {t} && (readAt < Deadline(t) ==> Covered(store, t));
      ghost var mid := store;
      TimePasses();
      ghost var signedAt := now;
      r := GenerateToken(user.value);
      if r.Some? {
        var next := r.value;
        assert store.black == mid.black && IsActive(store, next.claims.sub, next, now);
        OthersKeepOn(old(store), mid, store, t.claims.sub);
        Refreshed(t, next, signedAt);
        assert next != t ==> next !in earlier;
      }
    }

    /** The stamps of a token and of one signed after it for the same user. */
    lemma Refreshed(t: Token, next: Token, readAt: int)
      requires Stamped(t) && Stamped(next) && (t.claims.exp - lifetime) * TICKS <= readAt <= now
      requires next.claims.iat == readAt / TICKS && next.claims.exp <= now / TICKS + lifetime
      requires next.claims.sub == t.claims.sub && next.claims.name == t.claims.name
      ensures NotNewer(t, next)
      ensures NotNewer(next, t) <==> next == t
      ensures now / TICKS == t.claims.iat ==> next == t
      ensures next == t && readAt >= Deadline(t) ==> Deadline(t) <= now
    {
      assert t.claims.exp - lifetime <= readAt / TICKS <= now / TICKS;
    }
  }
}
