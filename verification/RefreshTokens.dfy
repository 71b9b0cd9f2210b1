/** `RefreshTokenManager` of src/auth/backend.py on a `LocalCache`. Clock readings, and the token
    drawn by `secrets.token_urlsafe`, are parameters. */
module RefreshTokens {
  import opened Wrappers
  import opened Text
  import opened IsoTime
  import opened RedisKeys
  import opened TokenCodec
  import opened LocalCaches
  import opened TokenLedger

  class RefreshTokenManager {
    const cache: LocalCache
    const settings: Settings
    /** Everything done to tokens so far, and the latest clock reading. */
    ghost var history: History
    ghost var clock: int

    /** The live entries of the cache are the live entries of the history's image. */
    ghost predicate Valid()
      reads this, cache
    {
      && Collisionless(settings)
      && WellFormed(history) && Past(history, clock)
      && Purge(cache.store, clock) == Purge(Image(settings, history), clock)
    }

    constructor (cache: LocalCache, settings: Settings, ghost now: int)
      requires Collisionless(settings) && cache.store == map[]
      ensures Valid() && history == [] && clock == now
      ensures this.cache == cache && this.settings == settings
    {
      this.cache := cache;
      this.settings := settings;
      history := [];
      clock := now;
    }

    method CreateRefreshToken(token: string, userId: int, device: Option<string>, stamp: Instant, now: int)
      returns (r: string)
      requires Valid() && NeverIssued(history, token) && clock <= stamp <= now
      modifies this, cache
      ensures Valid() && r == token && clock == now
      ensures history == old(history) + [Issued(token, userId, device, stamp, now)]
      ensures forall t :: Lookup(cache.store, t, "refresh_token:" + settings.digest(token)) ==
                if settings.lifetime == 0 || t <= now + settings.lifetime * 1_000_000
                then Some(IntText(userId) + ":" + (if device == None || device == Some("") then "unknown" else device.value)
                          + ":" + IsoFormat(stamp))
                else None
      ensures forall k, t | k != TokenKey(settings, token) :: Lookup(cache.store, t, k) == Lookup(old(cache.store), t, k)
    {
      EncodeText(userId, device, stamp);
      var value := Encode(userId, device, stamp);
      ghost var e := Issued(token, userId, device, stamp, now);
      IssueKeepsStep(settings, cache.store, history, clock, e);
      cache.Set(now, RefreshTokenKey(settings.digest(token)), value, Some(settings.lifetime));
      history := history + [e];
      clock := now;
      r := token;
    }

    method VerifyRefreshToken(token: string, g1: int, g2: int) returns (verdict: Verdict)
      requires Valid() && clock <= g1 <= g2
      modifies this`clock, cache
      ensures Valid() && clock == g2
      ensures verdict == Verify(settings, Image(settings, history), token, g1, g2) != Malformed
      ensures verdict.Accepted? ==> Holding(history, token).Some? && Holding(history, token).value.user == verdict.user
      ensures g1 == g2 && PlainDevice(history, token) ==>
                HonouredUser(settings, history, token, g1) == if verdict.Accepted? then Some(verdict.user) else None
      ensures Purge(cache.store, g2) == Purge(old(cache.store), g2)
    {
      ghost var image, before := Image(settings, history), cache.store;
      VerifyIsJudge(settings, history, token, g1, g2);
      if g1 == g2 && PlainDevice(history, token) {
        forall u ensures Verify(settings, image, token, g1, g2) == Accepted(u) <==> Honoured(settings, history, token, u, g1) {
          VerifyMatchesLedger(settings, history, token, u, g1);
        }
      }
      var value := cache.Get(g1, RefreshTokenKey(settings.digest(token)));
      EqualLookups(before, image, clock, g1, TokenKey(settings, token));
      ghost var between := cache.store;
      PurgeEqualLater(before, image, clock, g2);
      PurgeEqualLater(before, image, clock, g1);
      clock := g2;
      if value.None? || value.value == "" {
        return Rejected;
      }
      var parts := Split(value.value, ':', 2);
      var userId := ParseInt(parts[0]);
      if userId.None? || |parts| < 3 {
        return Malformed;
      }
      var created := parts[2];
      var revokeTime := cache.Get(g2, UserRevokedKey(userId.value));
      EqualLookups(between, image, g1, g2, UserRevokedKey(userId.value));
      if revokeTime.Some? && revokeTime.value != "" && Less(created, revokeTime.value) {
        return Rejected;
      }
      return Accepted(userId.value);
    }

    method RevokeToken(token: string)
      requires Valid()
      modifies this`history, cache
      ensures Valid() && history == old(history) + [Revoked(token)]
      ensures forall t :: Lookup(cache.store, t, "refresh_token:" + settings.digest(token)) == None
      ensures forall k, t | k != TokenKey(settings, token) :: Lookup(cache.store, t, k) == Lookup(old(cache.store), t, k)
    {
      ghost var was := cache.store;
      var _ := cache.Delete(RefreshTokenKey(settings.digest(token)));
      assert (cache.store, Flag(TokenKey(settings, token) in was)) == LazyStep(was, clock, Delete(TokenKey(settings, token)));
      ExtendRevoked(history, token, clock);
      SameAfterWithout(was, Image(settings, history), clock, TokenKey(settings, token));
      ImageStep(settings, history, Revoked(token));
      history := history + [Revoked(token)];
    }

    method RevokeAllUserTokens(userId: int, stamp: Instant, now: int)
      requires Valid() && clock <= stamp <= now
      modifies this, cache
      ensures Valid() && clock == now
      ensures history == old(history) + [RevokedAll(userId, stamp, now)]
      ensures forall t :: Lookup(cache.store, t, "user_revoked:" + IntText(userId)) ==
                if settings.lifetime == 0 || t <= now + settings.lifetime * 1_000_000 then Some(IsoFormat(stamp)) else None
      ensures forall k, t | k != UserRevokedKey(userId) :: Lookup(cache.store, t, k) == Lookup(old(cache.store), t, k)
    {
      ghost var e := RevokedAll(userId, stamp, now);
      MarkKeepsStep(settings, cache.store, history, clock, e);
      var revokeTime := IsoFormat(stamp);
      cache.Set(now, UserRevokedKey(userId), revokeTime, Some(settings.lifetime));
      history := history + [e];
      clock := now;
    }
  }

  // ---- What the manager's cache answers after each operation ----------------------------

  /** After `CreateRefreshToken` the new token verifies for the user it was created for. */
  lemma CreatedTokenVerifies(m: RefreshTokenManager, before: History, e: Event)
    requires m.Valid() && m.history == before + [e] && e.Issued? && e.storedAt == m.clock
    requires m.settings.lifetime >= 0 && (e.device == None || ':' !in e.device.value)
    ensures Verify(m.settings, m.cache.store, e.token, m.clock, m.clock) == Accepted(e.user)
  {
    ColonFreeMeans(e.device);
    FreshTokenVerifies(m.settings, m.cache.store, m.history, |before|, m.clock);
  }

  /** So it does after another token has been revoked on top. */
  lemma RotatedTokenVerifies(m: RefreshTokenManager, before: History, e: Event, spent: string)
    requires m.Valid() && m.history == before + [e] + [Revoked(spent)] && e.Issued? && e.storedAt == m.clock && spent != e.token
    requires m.settings.lifetime >= 0 && (e.device == None || ':' !in e.device.value)
    ensures Verify(m.settings, m.cache.store, e.token, m.clock, m.clock) == Accepted(e.user)
  {
    ColonFreeMeans(e.device);
    FreshTokenVerifies(m.settings, m.cache.store, m.history, |before|, m.clock);
  }

  /** After `RevokeToken` the token is rejected at all readings. */
  lemma RevokedTokenRejected(m: RefreshTokenManager, before: History, token: string, g1: int, g2: int)
    requires m.Valid() && m.history == before + [Revoked(token)] && m.clock <= g1
    ensures Verify(m.settings, m.cache.store, token, g1, g2) == Rejected
  {
    TokenLookup(m.settings, m.history, token, g1);
    EqualLookups(m.cache.store, Image(m.settings, m.history), m.clock, g1, TokenKey(m.settings, token));
  }

  /** After `RevokeAllUserTokens` no token of the user stamped earlier is accepted, then or later. */
  lemma RevokedUserRejected(m: RefreshTokenManager, before: History, r: Event, e: Event, now: int)
    requires m.Valid() && m.history == before + [r] && r.RevokedAll? && m.clock <= now
    requires e in before && e.Issued? && e.user == r.user && e.stamp < r.stamp && (e.device == None || ':' !in e.device.value)
    ensures Verify(m.settings, m.cache.store, e.token, now, now) == Rejected
  {
    ColonFreeMeans(e.device);
    RevokedAllRejected(m.settings, m.cache.store, before, r, e, m.clock, now);
  }
}
